/**
 Whole runs of a followed connection: the closed form of the connection timer, the
 channels the follower tunes to, and the count of its hops.
*/
module FollowRun {
  import opened Words
  import opened LeChannels
  import opened LinkLayer

  // ----- Division -----

  lemma MultipleIsFar(n: nat, d: int)
    ensures d >= 1 ==> n * d >= n
    ensures d <= -1 ==> n * d <= 0 - n
  {}

  lemma QuotientIs(a: nat, n: nat, q: int, r: nat)
    requires n > 0 && r < n && a == n * q + r
    ensures a / n == q && a % n == r
  {
    assert a == n * (a / n) + a % n;
    assert n * (a / n - q) == r - a % n;
    MultipleIsFar(n, a / n - q);
  }

  lemma NextQuotient(a: nat, n: nat)
    requires n > 0
    ensures (a + 1) % n == (if a % n + 1 == n then 0 else a % n + 1)
    ensures (a + 1) / n == (if a % n + 1 == n then a / n + 1 else a / n)
  {
    var q, r := a / n, a % n;
    assert a == n * q + r;
    if r + 1 == n {
      assert a + 1 == n * (q + 1) + 0;
      QuotientIs(a + 1, n, q + 1, 0);
    } else {
      QuotientIs(a + 1, n, q, r + 1);
    }
  }

  // ----- The connection timer -----

  /**
   Where a connection timer starts: the epoch its boundaries are counted from, the
   interval, the boundaries into it, the intervals over before, and the ticks since the
   epoch.
  */
  datatype Start = Start(epoch: u32, interval: u16, into: nat, count: nat, at: nat)

  /** The start that a packet makes which begins a connection or brings new parameters. */
  function AtPacket(clkn: u32, interval: u16, count: nat): Start {
    Start(clkn, interval, 1, count, 0)
  }

  /** The boundaries of 1.25 ms in the first t ticks, and those into the interval at the start. */
  function Passed(start: Start, t: nat): (n: nat)
    ensures start.at == 0 ==> n == start.into + t / 4
  {
    start.into + ((start.at + t) / 4 - start.at / 4)
  }

  /** The interrupt t ticks after the start is a hop. */
  predicate OnTime(start: Start, t: nat) {
    (start.at + t) % 4 == 0 && start.interval > 0 && Passed(start, t) % start.interval == 0
  }

  /** A running connection timer: so many boundaries into the interval, so many intervals in all. */
  predicate Timer(s: Link, epoch: u32, interval: u16, into: nat, total: nat, t: nat)
    requires into < interval
  {
    && s.hopMode == HopBtle && s.clknOffset == 0 && s.le.linkState == Connected
    && s.le.connEpoch == epoch && s.le.connInterval == interval
    && s.clkn == (epoch + t) % 0x1_0000_0000
    && s.le.intervalTimer == interval - into
    && s.le.connCount == total % 0x1_0000
  }

  /** Boundaries into the present interval after t ticks. */
  function Into(start: Start, t: nat): (into: nat)
    requires start.interval > 0
    ensures into < start.interval
  {
    Passed(start, t) % start.interval
  }

  /** Intervals over since the start after t ticks. */
  function Over(start: Start, t: nat): nat
    requires start.interval > 0
  {
    Passed(start, t) / start.interval
  }

  /** The state of a connection t ticks after its start. */
  predicate TimerAt(s: Link, start: Start, t: nat)
    requires start.interval > 0
  {
    Timer(s, start.epoch, start.interval, Into(start, t), start.count + Over(start, t), start.at + t)
  }

  lemma NextPassed(start: Start, t: nat)
    ensures Passed(start, t + 1) == Passed(start, t) + if (start.at + t + 1) % 4 == 0 then 1 else 0
  {
    Quarter(start.at + t);
  }

  lemma NextPlaceInInterval(start: Start, t: nat)
    requires start.interval > 0
    ensures if (start.at + t + 1) % 4 != 0 then Into(start, t + 1) == Into(start, t) && Over(start, t + 1) == Over(start, t)
            else if Into(start, t) + 1 == start.interval
            then Into(start, t + 1) == 0 && Over(start, t + 1) == Over(start, t) + 1
            else Into(start, t + 1) == Into(start, t) + 1 && Over(start, t + 1) == Over(start, t)
    ensures OnTime(start, t + 1) <==> (start.at + t + 1) % 4 == 0 && Into(start, t) + 1 == start.interval
  {
    NextPassed(start, t);
    NextQuotient(Passed(start, t), start.interval);
  }

  lemma NextAnchor(s: Link, epoch: u32, t: nat)
    requires s.clknOffset == 0 && s.clkn == (epoch + t) % 0x1_0000_0000 && s.le.connEpoch == epoch
    ensures NextClkn(s) == (epoch + t + 1) % 0x1_0000_0000
    ensures Anchor(s) <==> (t + 1) % 4 == 0
  {
    var w := (epoch + t + 1) / 0x1_0000_0000;
    OneTickOn(epoch + t);
    WholeTurns(t + 1, w);
    assert NextClkn(s) - epoch == t + 1 - 0x1_0000_0000 * w;
  }

  lemma OneTickOn(a: nat)
    ensures (a % 0x1_0000_0000 + 1) % 0x1_0000_0000 == (a + 1) % 0x1_0000_0000
  {}

  /** Turns of the 32-bit clock do not matter to a quarter. */
  lemma WholeTurns(a: nat, w: int)
    ensures (a - 0x1_0000_0000 * w) % 0x1_0000_0000 % 4 == a % 4
  {
    var q := (a - 0x1_0000_0000 * w) / 0x1_0000_0000;
    assert (a - 0x1_0000_0000 * w) % 0x1_0000_0000 == a - 4 * (0x4000_0000 * (w + q));
  }

  lemma NextCount(total: nat)
    ensures (total % 0x1_0000 + 1) % 0x1_0000 == (total + 1) % 0x1_0000
  {}

  lemma Quarter(t: nat)
    ensures (t + 1) / 4 == (if (t + 1) % 4 == 0 then t / 4 + 1 else t / 4)
  {}

  lemma TickTimer(s: Link, epoch: u32, interval: u16, into: nat, total: nat, t: nat)
    requires into < interval && Timer(s, epoch, interval, into, total, t)
    ensures Raises(s) <==> (t + 1) % 4 == 0 && into + 1 == interval
    ensures if (t + 1) % 4 != 0 then Timer(Tick(s), epoch, interval, into, total, t + 1)
            else if into + 1 == interval then Timer(Tick(s), epoch, interval, 0, total + 1, t + 1)
            else Timer(Tick(s), epoch, interval, into + 1, total, t + 1)
  {
    NextAnchor(s, epoch, t);
    NextCount(total);
  }

  /** One interrupt: the closed form moves one tick on, and the hop comes exactly on time. */
  lemma TickMovesTimer(s: Link, start: Start, t: nat)
    requires start.interval > 0 && TimerAt(s, start, t)
    ensures TimerAt(Tick(s), start, t + 1)
    ensures Raises(s) <==> OnTime(start, t + 1)
  {
    TickTimer(s, start.epoch, start.interval, Into(start, t), start.count + Over(start, t), start.at + t);
    NextPlaceInInterval(start, t);
  }

  /** A hop falls on tick 4 * (k * interval - 1) for every k from 1 on, and on no other. */
  predicate IsHopTick(interval: nat, t: int, k: nat) {
    k >= 1 && t == 4 * (k * interval - 1)
  }

  lemma OnTimeTicks(clkn: u32, interval: u16, t: nat)
    requires interval > 0
    ensures OnTime(AtPacket(clkn, interval, 0), t) <==> exists k: nat :: IsHopTick(interval, t, k)
  {
    var q: nat := 1 + t / 4;
    assert Passed(AtPacket(clkn, interval, 0), t) == q;
    if q % interval == 0 && t % 4 == 0 {
      assert q == interval * (q / interval);
      assert IsHopTick(interval, t, q / interval);
    }
    if k: nat :| IsHopTick(interval, t, k) {
      assert t / 4 == k * interval - 1;
      QuotientIs(q, interval, k, 0);
    }
  }

  // ----- The timer alone -----

  function Ticks(s: Link, n: nat): Link {
    if n == 0 then s else Tick(Ticks(s, n - 1))
  }

  /** Interrupt t, counting from one, ends an interval. */
  predicate RaisesAt(s: Link, t: nat)
    requires t >= 1
  {
    Raises(Ticks(s, t - 1))
  }

  /** The first packet of a connection has just been handled. */
  predicate JustConnected(s: Link) {
    && s.hopMode == HopBtle && s.clknOffset == 0 && s.le.linkState == Connected
    && s.le.connEpoch == s.clkn && s.le.intervalTimer == (s.le.connInterval - 1) % 0x1_0000 && s.le.connCount == 0
  }

  function StartOf(s: Link): Start {
    AtPacket(s.clkn, s.le.connInterval, 0)
  }

  lemma StartsOnTime(s: Link)
    requires JustConnected(s) && s.le.connInterval >= 2
    ensures TimerAt(s, StartOf(s), 0)
  {}

  /** A connection starts its timer with its first packet, and starts it over with new parameters. */
  lemma PacketStartsTimer(s: Link, packet: seq<u8>)
    requires |packet| >= 40 && s.hopMode == HopBtle && s.clknOffset == 0
    ensures s.le.linkState == ConnPending ==> JustConnected(FollowCallback(s, packet))
    ensures UpdateDue(s.le) && s.le.intervalUpdate >= 2 ==>
              TimerAt(FollowCallback(s, packet), AtPacket(s.clkn, s.le.intervalUpdate, s.le.connCount), 0)
  {
    if UpdateDue(s.le) && s.le.intervalUpdate >= 2 {
      FirstPlace(AtPacket(s.clkn, s.le.intervalUpdate, s.le.connCount));
    }
  }

  /** The interrupts alone keep a timer on its course. */
  lemma {:induction false} TicksKeepTime(s: Link, start: Start, t: nat)
    requires start.interval > 0 && TimerAt(s, start, 0)
    ensures TimerAt(Ticks(s, t), start, t) && (Raises(Ticks(s, t)) <==> OnTime(start, t + 1))
  {
    if t > 0 {
      TicksKeepTime(s, start, t - 1);
      TickMovesTimer(Ticks(s, t - 1), start, t - 1);
    }
    TickMovesTimer(Ticks(s, t), start, t);
  }

  /**
   The timer in closed form: after t interrupts of a connection with an interval of
   at least two, whatever the clock it started at.
  */
  lemma TimerClosedForm(s: Link, t: nat)
    requires JustConnected(s) && s.le.connInterval >= 2
    ensures var interval, u := s.le.connInterval, Ticks(s, t);
            && TimerAt(u, StartOf(s), t)
            && 1 <= u.le.intervalTimer <= interval
            && u.le.connCount == ((1 + t / 4) / interval) % 0x1_0000
            && (Raises(u) <==> OnTime(StartOf(s), t + 1))
  {
    StartsOnTime(s);
    TicksKeepTime(s, StartOf(s), t);
  }

  /** A timer that started below its first boundary counts down from the top of its 16 bits. */
  predicate Starved(s: Link, epoch: u32, interval: u16, t: nat) {
    && s.hopMode == HopBtle && s.clknOffset == 0 && s.le.linkState == Connected && s.le.connEpoch == epoch
    && s.clkn == (epoch + t) % 0x1_0000_0000
    && s.le.intervalTimer == if t < 4 && interval == 1 then 0 else 65535 + interval - t / 4
  }

  lemma StarvedTick(s: Link, epoch: u32, interval: u16, t: nat)
    requires interval < 2 && t < 4 * 65535 && Starved(s, epoch, interval, t)
    ensures Raises(s) <==> t == 4 * 65535 - 1 && interval == 0
    ensures !Raises(s) ==> Starved(Tick(s), epoch, interval, t + 1)
  {
    NextAnchor(s, epoch, t);
    Quarter(t);
  }

  /** With an interval of one or none the timer runs on for 65535 boundaries before the first hop. */
  lemma {:induction false} ShortIntervalStarves(s: Link, t: nat)
    requires JustConnected(s) && s.le.connInterval < 2 && t < 4 * 65535
    ensures Starved(Ticks(s, t), s.clkn, s.le.connInterval, t)
    ensures Raises(Ticks(s, t)) <==> t == 4 * 65535 - 1 && s.le.connInterval == 0
  {
    if t > 0 {
      ShortIntervalStarves(s, t - 1);
      StarvedTick(Ticks(s, t - 1), s.clkn, s.le.connInterval, t - 1);
    }
    StarvedTick(Ticks(s, t), s.clkn, s.le.connInterval, t);
  }

  /** The interrupts ask for hops on time, and at no other tick. */
  ghost predicate HopsOnTime(s: Link, start: Start) {
    forall t: nat :: t >= 1 ==> (RaisesAt(s, t) <==> OnTime(start, t))
  }

  /** The follower hops once every interval exactly when the interval is at least two. */
  lemma OnTimeExactly(s: Link)
    requires JustConnected(s)
    ensures HopsOnTime(s, StartOf(s)) <==> s.le.connInterval >= 2
  {
    if s.le.connInterval >= 2 {
      forall t: nat | t >= 1 ensures RaisesAt(s, t) <==> OnTime(StartOf(s), t) {
        TimerClosedForm(s, t - 1);
      }
    } else if s.le.connInterval == 1 {
      ShortIntervalStarves(s, 3);
      assert OnTime(StartOf(s), 4) && !RaisesAt(s, 4);
    } else {
      ShortIntervalStarves(s, 4 * 65535 - 1);
      assert !OnTime(StartOf(s), 4 * 65535) && RaisesAt(s, 4 * 65535);
    }
  }

  // ----- Hops in the other modes -----

  /** Every interrupt moves the clock one tick on; the offset set by the host is added once. */
  lemma {:induction false} ClockOfTicks(s: Link, t: nat)
    requires t > 0 || s.clknOffset == 0
    ensures var u := Ticks(s, t);
            && u.clkn == (s.clkn + s.clknOffset + t) % 0x1_0000_0000 && u.clknOffset == 0
            && u.hopMode == s.hopMode && u.lastHop == s.lastHop && u.hopTimeout == s.hopTimeout
    decreases t
  {
    if t == 1 {
      assert Ticks(s, 1) == Tick(Ticks(s, 0)) == Tick(s);
    } else if t > 1 {
      ClockOfTicks(s, t - 1);
      OneTickOn(s.clkn + s.clknOffset + (t - 1));
    }
  }

  /**
   The interrupts ask for a hop every 128 ticks in the sweep and without hopping, every
   other tick in basic rate, and never while single channels are tuned to.
  */
  lemma HopsByClock(s: Link, t: nat)
    requires s.clknOffset == 0 && t >= 1
    ensures s.hopMode == HopNone || s.hopMode == HopSweep ==> (TickHops(Ticks(s, t - 1)) <==> (s.clkn + t) % 128 == 0)
    ensures s.hopMode == HopBluetooth ==> (TickHops(Ticks(s, t - 1)) <==> (s.clkn + t) % 2 == 0)
    ensures s.hopMode == HopDirect ==> !TickHops(Ticks(s, t - 1))
  {
    ClockOfTicks(s, t - 1);
    OneTickOn(s.clkn + (t - 1));
    RestOfClock(s.clkn + t);
  }

  lemma RestOfClock(a: nat)
    ensures a % 0x1_0000_0000 % 128 == a % 128 && a % 0x1_0000_0000 % 2 == a % 2
  {
    RestOfRest(a, 128, 0x200_0000);
    RestOfRest(a, 2, 0x8000_0000);
  }

  lemma RestOfRest(a: nat, d: nat, m: nat)
    requires d > 0 && m > 0
    ensures a % (d * m) % d == a % d
  {
    var q, r := a / (d * m), a % (d * m);
    var k, rest := r / d, r % d;
    assert a == (d * m) * q + r && r == d * k + rest;
    assert (d * m) * q == d * (m * q);
    assert a == d * (m * q + k) + rest;
    QuotientIs(a, d, m * q + k, rest);
  }

  /** In the search for unused channels one hop leads to the next after the timeout set by the host, and not before. */
  lemma HopsByTimeout(s: Link, picked: u16, t: nat)
    requires s.clknOffset == 0 && s.hopMode == HopAfh && 1 <= t < 0x1_0000_0000
    ensures TickHops(Ticks(Hop(s, picked), t - 1)) <==> t == s.hopTimeout
  {
    ClockOfTicks(Hop(s, picked), t - 1);
    TimeoutTick(Ticks(Hop(s, picked), t - 1), s.clkn, s.hopTimeout, t);
  }

  lemma TimeoutTick(u: Link, clkn: u32, timeout: u16, t: u32)
    requires t >= 1 && u.clkn == (clkn + (t - 1)) % 0x1_0000_0000 && u.clknOffset == 0
    requires u.hopMode == HopAfh && u.lastHop == clkn && u.hopTimeout == timeout
    ensures TickHops(u) <==> t == timeout
  {
    OneTickOn(clkn + (t - 1));
    SameTick(clkn, timeout, t);
  }

  lemma SameTick(clkn: u32, a: u16, b: u32)
    ensures (clkn + a) % 0x1_0000_0000 == (clkn + b) % 0x1_0000_0000 <==> a == b
  {}

  // ----- The channels of a run -----

  /** A packet in front of the callback has at least the 40 bytes the callback looks at. */
  datatype Event = Interrupt | Received(packet: seq<u8>, clk100ns: u32) | Flushed(clk100ns: u32)

  predicate Legal(events: seq<Event>) {
    forall e :: e in events && e.Received? ==> |e.packet| >= 40
  }

  /**
   The link, and the history of its present connection: the channels tuned to, the
   hops asked for, how many of these came while another one was still waiting, and how
   many were asked for by something else than the timer.
  */
  datatype History = History(s: Link, base: nat, hops: seq<u16>, raises: nat, lost: nat, early: nat)

  function Count(b: bool): nat {
    if b then 1 else 0
  }

  function AfterTick(h: History): History {
    if Raises(h.s) then h.(s := Tick(h.s), raises := h.raises + 1, lost := h.lost + Count(h.s.doHop))
    else h.(s := Tick(h.s))
  }

  function AfterPacket(h: History, packet: seq<u8>, clk100ns: u32): History
    requires |packet| >= 40
  {
    var s := FollowCallback(h.s, packet);
    var t := s.(le := s.le.(lastPacket := clk100ns));
    if Connects(h.s.le, packet) then History(t, t.le.channelIncrement, [], 1, 0, 1) else h.(s := t)
  }

  function AfterFlush(h: History, clk100ns: u32): History {
    var s := Flush(h.s, clk100ns, h.s.channel);
    if !TimedOut(h.s, clk100ns) && h.s.doHop then h.(s := s, hops := h.hops + [s.channel]) else h.(s := s)
  }

  function After(h: History, e: Event): History
    requires e.Received? ==> |e.packet| >= 40
  {
    match e
    case Interrupt => AfterTick(h)
    case Received(packet, clk100ns) => AfterPacket(h, packet, clk100ns)
    case Flushed(clk100ns) => AfterFlush(h, clk100ns)
  }

  function Follow(h: History, events: seq<Event>): History
    requires Legal(events)
    decreases |events|
  {
    if events == [] then h
    else
      assert Legal(events[1..]);
      Follow(After(h, events[0]), events[1..])
  }

  /** Hop k of a connection that starts at a channel index and steps by an increment. */
  function ChannelAt(base: nat, increment: nat, k: nat): u16 {
    IndexToPhys((base + k * increment) % 37)
  }

  /** The channels tuned to step through the data channels from the base on. */
  predicate Tuned(hops: seq<u16>, base: nat, increment: nat) {
    forall k :: 0 <= k < |hops| ==> hops[k] == ChannelAt(base, increment, k)
  }

  /** The invariant of every run in the connection-following mode. */
  predicate Follows(h: History) {
    var le := h.s.le;
    h.s.hopMode == HopBtle &&
    if le.linkState == Inactive || le.linkState == Listening then !h.s.doHop
    else
      && le.channelIdx == (h.base + |h.hops| * le.channelIncrement) % 37
      && Tuned(h.hops, h.base, le.channelIncrement)
      && (h.hops != [] ==> h.s.channel == h.hops[|h.hops| - 1])
      && |h.hops| + Count(h.s.doHop) + h.lost == h.raises >= h.early
      && (if le.linkState == Connected then le.connCount == (h.raises - h.early) % 0x1_0000 else h.raises == h.early)
      && (h.early == 1 ==> h.base == le.channelIncrement < 32)
  }

  lemma TickFollows(h: History)
    requires Follows(h)
    ensures Follows(AfterTick(h))
  {
    if Raises(h.s) {
      NextCount(h.raises - h.early);
    }
  }

  lemma UpdateKeepsCourse(le: LeState, clkn: u32, packet: seq<u8>)
    requires |packet| >= 40
    ensures var u := NoteUpdate(ApplyUpdate(le, clkn), packet);
            && u.linkState == le.linkState && u.channelIdx == le.channelIdx
            && u.channelIncrement == le.channelIncrement && u.connCount == le.connCount
  {}

  lemma ConnectedFollows(h: History, packet: seq<u8>, clk100ns: u32)
    requires |packet| >= 40 && Follows(h) && h.s.le.linkState == Connected
    ensures Follows(AfterPacket(h, packet, clk100ns))
  {
    UpdateKeepsCourse(h.s.le, h.s.clkn, packet);
  }

  lemma ListeningFollows(h: History, packet: seq<u8>, clk100ns: u32)
    requires |packet| >= 40 && Follows(h) && !Joined(h)
    ensures Follows(AfterPacket(h, packet, clk100ns))
  {}

  lemma ConnectFollows(h: History, packet: seq<u8>, clk100ns: u32)
    requires |packet| >= 40 && Follows(h)
    ensures Follows(AfterPacket(h, packet, clk100ns))
  {
    if h.s.le.linkState == Connected {
      ConnectedFollows(h, packet, clk100ns);
    } else if !Joined(h) {
      ListeningFollows(h, packet, clk100ns);
    }
  }

  lemma NextIndex(base: nat, increment: nat, n: nat)
    ensures ((base + n * increment) % 37 + increment) % 37 == (base + (n + 1) * increment) % 37
  {}

  lemma FlushFollows(h: History, clk100ns: u32)
    requires Follows(h)
    ensures Follows(AfterFlush(h, clk100ns))
  {
    NextIndex(h.base, h.s.le.channelIncrement, |h.hops|);
  }

  /** Every run keeps the invariant. */
  lemma {:induction false} RunFollows(h: History, events: seq<Event>)
    requires Follows(h) && Legal(events)
    ensures Follows(Follow(h, events))
    decreases |events|
  {
    if events != [] {
      match events[0] {
        case Interrupt => TickFollows(h);
        case Received(packet, clk100ns) => ConnectFollows(h, packet, clk100ns);
        case Flushed(clk100ns) => FlushFollows(h, clk100ns);
      }
      assert Legal(events[1..]);
      RunFollows(After(h, events[0]), events[1..]);
    }
  }

  /** The history of a follower that listens for a connect packet. */
  function Fresh(s: Link): History {
    History(s, 0, [], 0, 0, 0)
  }

  predicate Joined(h: History) {
    h.s.le.linkState == ConnPending || h.s.le.linkState == Connected
  }

  lemma {:induction false} RunFromConnect(h: History, events: seq<Event>)
    requires Follows(h) && Legal(events) && (Joined(h) ==> h.early == 1)
    ensures Joined(Follow(h, events)) ==> Follow(h, events).early == 1
    decreases |events|
  {
    if events != [] {
      RunFollows(h, [events[0]]);
      assert Legal(events[1..]);
      assert Follow(h, [events[0]]) == After(h, events[0]) by {
        assert [events[0]][1..] == [];
      }
      RunFromConnect(After(h, events[0]), events[1..]);
    }
  }

  /**
   Whatever packets, interrupts and flushes follow: from the connect packet on, hop k
   (counting from one) tunes to data channel k * increment mod 37, and every hop asked
   for was made, waits to be made, or was asked for while another one was waiting.
  */
  lemma ConnectionHops(s: Link, events: seq<Event>, k: nat)
    requires s.hopMode == HopBtle && s.le.linkState == Listening && !s.doHop && Legal(events)
    ensures var h := Follow(Fresh(s), events);
            Joined(h) ==>
              && (k < |h.hops| ==> h.hops[k] == IndexToPhys(((k + 1) * h.s.le.channelIncrement) % 37))
              && |h.hops| + Count(h.s.doHop) + h.lost == h.raises >= 1
              && (h.s.le.linkState == Connected ==> h.s.le.connCount == (h.raises - 1) % 0x1_0000)
  {
    RunFollows(Fresh(s), events);
    RunFromConnect(Fresh(s), events);
    var h := Follow(Fresh(s), events);
    var increment := h.s.le.channelIncrement;
    assert increment + k * increment == (k + 1) * increment;
  }

  // ----- The hops of one connection -----

  /** No flush of the run finds the link silent for too long. */
  predicate Heard(h: History, events: seq<Event>)
    requires Legal(events)
    decreases |events|
  {
    events != [] ==>
      assert Legal(events[1..]);
      (events[0].Flushed? ==> !TimedOut(h.s, events[0].clk100ns)) && Heard(After(h, events[0]), events[1..])
  }

  lemma HeardStep(h: History, e: Event)
    requires Joined(h) && (e.Received? ==> |e.packet| >= 40)
    requires e.Flushed? ==> !TimedOut(h.s, e.clk100ns)
    ensures var g := After(h, e);
            && Joined(g) && g.base == h.base && g.s.le.channelIncrement == h.s.le.channelIncrement
            && (h.s.le.linkState == Connected ==> g.s.le.linkState == Connected)
  {
    match e {
      case Interrupt =>
      case Received(packet, clk100ns) => UpdateKeepsCourse(h.s.le, h.s.clkn, packet);
      case Flushed(clk100ns) =>
    }
  }

  lemma {:induction false} HeardKeepsCourse(h: History, events: seq<Event>)
    requires Joined(h) && Legal(events) && Heard(h, events)
    ensures var g := Follow(h, events);
            && Joined(g) && g.base == h.base && g.s.le.channelIncrement == h.s.le.channelIncrement
            && (h.s.le.linkState == Connected ==> g.s.le.linkState == Connected)
    decreases |events|
  {
    if events != [] {
      assert Legal(events[1..]);
      HeardStep(h, events[0]);
      HeardKeepsCourse(After(h, events[0]), events[1..]);
    }
  }

  /**
   From a connect packet on, as long as the link is heard: hop k tunes to data channel
   (k + 1) * increment mod 37, with the increment in the low five bits of byte 39 of the
   packet, and hops made, waiting and overrun are those asked for.
  */
  lemma HopsOfConnection(h: History, connect: seq<u8>, clk100ns: u32, events: seq<Event>, k: nat)
    requires Follows(h) && |connect| >= 40 && Connects(h.s.le, connect)
    requires Legal(events) && Heard(After(h, Received(connect, clk100ns)), events)
    ensures var g, increment := Follow(After(h, Received(connect, clk100ns)), events), connect[39] as nat % 32;
            && (k < |g.hops| ==> g.hops[k] == IndexToPhys(((k + 1) * increment) % 37))
            && |g.hops| + Count(g.s.doHop) + g.lost == g.raises >= 1
  {
    var u := After(h, Received(connect, clk100ns));
    ConnectFollows(h, connect, clk100ns);
    ConnectRequest(h.s, connect);
    LowPlaces(connect[4]);
    CourseOf(u, events, connect[39] % 32, k);
  }

  lemma CourseOf(u: History, events: seq<Event>, increment: u8, k: nat)
    requires Follows(u) && Joined(u) && u.early == 1 && u.base == u.s.le.channelIncrement == increment
    requires Legal(events) && Heard(u, events)
    ensures var g := Follow(u, events);
            && (k < |g.hops| ==> g.hops[k] == IndexToPhys(((k + 1) * increment) % 37))
            && |g.hops| + Count(g.s.doHop) + g.lost == g.raises >= 1
  {
    RunFollows(u, events);
    HeardKeepsCourse(u, events);
    RunFromConnect(u, events);
    var g := Follow(u, events);
    if k < |g.hops| {
      assert g.hops[k] == ChannelAt(increment, increment, k);
      assert increment + k * increment == (k + 1) * increment;
    }
  }

  // ----- Thirty-seven hops -----

  /** Multiplying by an increment modulo 37 is undone by the table of inverses. */
  lemma TimesInverse(x: int, increment: nat)
    requires 0 < increment < 37
    ensures ((x * increment) % 37 * HopIntervalLut(increment)) % 37 == x % 37
  {
    LutInverts(increment);
    var inverse := HopIntervalLut(increment);
    var q, m := (increment * inverse) / 37, (x * increment) / 37;
    assert increment * inverse == 37 * q + 1;
    assert x * increment == 37 * m + (x * increment) % 37;
    ProductRest(x, increment, inverse, q, m, (x * increment) % 37);
    SameRest((x * increment) % 37 * inverse, x, x * q - m * inverse);
  }

  lemma ProductRest(x: int, a: int, b: int, q: int, m: int, r: int)
    requires a * b == 37 * q + 1 && x * a == 37 * m + r
    ensures r * b == x + 37 * (x * q - m * b)
  {}

  lemma SameRest(a: int, b: int, n: int)
    requires a == b + 37 * n
    ensures a % 37 == b % 37
  {}

  lemma IndexInjective(a: u8, b: u8)
    requires a < 37 && b < 37 && a != b
    ensures IndexToPhys(a) != IndexToPhys(b)
  {}

  /** Fewer than 37 hops on, the channel is another one. */
  lemma NoShortCycle(base: nat, increment: nat, i: nat, j: nat)
    requires 0 < increment < 37 && i < j < i + 37
    ensures (base + i * increment) % 37 != (base + j * increment) % 37
  {
    var a, b := base + i * increment, base + j * increment;
    assert b - a == (j - i) * increment;
    TimesNonzero(j - i, increment);
    RestsDiffer(a, b);
  }

  lemma TimesNonzero(x: nat, increment: nat)
    requires 0 < increment < 37 && 0 < x < 37
    ensures (x * increment) % 37 != 0
  {
    TimesInverse(x, increment);
    FactorNonzero((x * increment) % 37, HopIntervalLut(increment), x);
  }

  lemma FactorNonzero(r: nat, inverse: nat, x: nat)
    requires (r * inverse) % 37 == x % 37 && 0 < x < 37
    ensures r != 0
  {}

  lemma RestsDiffer(a: int, b: int)
    requires (b - a) % 37 != 0
    ensures a % 37 != b % 37
  {}

  /** The hop, from a given one on, at which a channel index comes up. */
  function HopOf(base: nat, increment: nat, from: nat, channel: nat): (k: nat)
    requires 0 < increment < 37
    ensures from <= k < from + 37
  {
    from + ((channel - base - from * increment) * HopIntervalLut(increment)) % 37
  }

  lemma StepsReach(base: nat, increment: nat, from: nat, n: nat, channel: nat)
    requires channel < 37 && (n * increment) % 37 == (channel - base - from * increment) % 37
    ensures (base + (from + n) * increment) % 37 == channel
  {}

  lemma HopOfReaches(base: nat, increment: nat, from: nat, channel: nat)
    requires 0 < increment < 37 && channel < 37
    ensures (base + HopOf(base, increment, from, channel) * increment) % 37 == channel
  {
    var x, inverse := channel - base - from * increment, HopIntervalLut(increment);
    LutInverts(increment);
    TimesInverse(x, inverse);
    StepsReach(base, increment, from, (x * inverse) % 37, channel);
  }

  /** Any 37 consecutive steps reach every data channel, and no channel twice. */
  lemma CycleCoversBand(base: nat, increment: nat, from: nat, channel: nat, i: nat, j: nat)
    requires 0 < increment < 37 && channel < 37 && from <= i < j < from + 37
    ensures ChannelAt(base, increment, HopOf(base, increment, from, channel)) == IndexToPhys(channel)
    ensures ChannelAt(base, increment, i) != ChannelAt(base, increment, j)
  {
    HopOfReaches(base, increment, from, channel);
    NoShortCycle(base, increment, i, j);
    IndexInjective((base + i * increment) % 37, (base + j * increment) % 37);
  }

  /** Any 37 consecutive hops of a run that keeps the invariant visit every data channel, and no channel twice. */
  lemma AllChannels(hops: seq<u16>, base: nat, increment: nat, from: nat, channel: nat, i: nat, j: nat)
    requires Tuned(hops, base, increment) && 0 < increment < 37
    requires from + 37 <= |hops| && channel < 37 && from <= i < j < from + 37
    ensures hops[HopOf(base, increment, from, channel)] == IndexToPhys(channel)
    ensures hops[i] != hops[j]
  {
    var k := HopOf(base, increment, from, channel);
    assert hops[k] == ChannelAt(base, increment, k);
    CycleCoversBand(base, increment, from, channel, i, j);
  }

  // ----- Hops on schedule -----

  /** Nothing in the run cuts the connection off or changes its parameters, and no hop is asked for twice. */
  predicate Steady(h: History, events: seq<Event>)
    requires Legal(events)
    decreases |events|
  {
    events != [] ==>
      assert Legal(events[1..]);
      (match events[0]
       case Interrupt => !(Raises(h.s) && h.s.doHop)
       case Received(_, _) => !UpdateDue(h.s.le)
       case Flushed(clk100ns) => !TimedOut(h.s, clk100ns))
      && Steady(After(h, events[0]), events[1..])
  }

  function Interrupts(events: seq<Event>): nat {
    if events == [] then 0 else Count(events[0].Interrupt?) + Interrupts(events[1..])
  }

  lemma SteadyStep(h: History, e: Event, start: Start, t: nat)
    requires start.interval > 0 && TimerAt(h.s, start, t)
    requires match e
             case Interrupt => !(Raises(h.s) && h.s.doHop)
             case Received(packet, _) => |packet| >= 40 && !UpdateDue(h.s.le)
             case Flushed(clk100ns) => !TimedOut(h.s, clk100ns)
    ensures var g, t' := After(h, e), t + Count(e.Interrupt?);
            && TimerAt(g.s, start, t') && g.lost == h.lost && g.early == h.early
            && g.raises - Over(start, t') == h.raises - Over(start, t)
            && g.base == h.base && g.s.le.channelIncrement == h.s.le.channelIncrement
            && (g.hops == [] ==> h.hops == [] && g.s.channel == h.s.channel)
  {
    if e.Interrupt? {
      TickMovesTimer(h.s, start, t);
      NextPlaceInInterval(start, t);
    }
  }

  /** In a steady run packets and flushes leave the timer alone, and hops are asked for on time. */
  lemma {:induction false} SteadyTimer(h: History, events: seq<Event>, start: Start, t: nat)
    requires start.interval > 0 && TimerAt(h.s, start, t) && Legal(events) && Steady(h, events)
    ensures var g, t' := Follow(h, events), t + Interrupts(events);
            && TimerAt(g.s, start, t') && g.lost == h.lost && g.early == h.early
            && g.raises - Over(start, t') == h.raises - Over(start, t)
            && g.base == h.base && g.s.le.channelIncrement == h.s.le.channelIncrement
            && (g.hops == [] ==> h.hops == [] && g.s.channel == h.s.channel)
    decreases |events|
  {
    if events != [] {
      SteadyStep(h, events[0], start, t);
      assert Legal(events[1..]);
      SteadyTimer(After(h, events[0]), events[1..], start, t + Count(events[0].Interrupt?));
    }
  }

  /** From the first packet on every interval over has been hopped, beside the hop to the first channel. */
  lemma HopsAfterFirst(h: History, events: seq<Event>)
    requires Follows(h) && JustConnected(h.s) && h.s.le.connInterval >= 2
    requires h.lost == 0 && h.raises == h.early == 1 && Legal(events) && Steady(h, events)
    ensures var g := Follow(h, events);
            && |g.hops| + Count(g.s.doHop) == 1 + Over(StartOf(h.s), Interrupts(events))
            && Tuned(g.hops, h.base, h.s.le.channelIncrement)
  {
    StartsOnTime(h.s);
    SteadyTimer(h, events, StartOf(h.s), 0);
    RunFollows(h, events);
    FirstPlace(StartOf(h.s));
  }

  lemma FirstPlace(start: Start)
    requires start.into < start.interval
    ensures Into(start, 0) == start.into && Over(start, 0) == 0
  {
    QuotientIs(Passed(start, 0), start.interval, 0, start.into);
  }

  /** Between the connect packet and the first packet of the connection: interrupts, and flushes in time. */
  predicate Waits(h: History, events: seq<Event>)
    requires Legal(events)
    decreases |events|
  {
    events != [] ==>
      assert Legal(events[1..]);
      !events[0].Received? && (events[0].Flushed? ==> !TimedOut(h.s, events[0].clk100ns))
      && Waits(After(h, events[0]), events[1..])
  }

  /** The connection asked for by a connect packet with this interval and increment has had no packet yet. */
  predicate Pending(h: History, interval: u16, increment: u8) {
    && h.base == h.s.le.channelIncrement == increment && Follows(h) && h.s.le.linkState == ConnPending && h.s.clknOffset == 0 && h.s.le.connInterval == interval
    && h.lost == 0 && h.raises == h.early == 1
  }

  lemma ConnectPends(s: Link, packet: seq<u8>, clk100ns: u32)
    requires |packet| >= 40 && s.hopMode == HopBtle && !s.doHop && s.clknOffset == 0 && Connects(s.le, packet)
    ensures Pending(After(Fresh(s), Received(packet, clk100ns)), packet[28], packet[39] % 32)
  {
    ConnectRequest(s, packet);
    LowPlaces(packet[4]);
    ConnectFollows(Fresh(s), packet, clk100ns);
  }

  lemma WaitStep(h: History, e: Event, interval: u16, increment: u8)
    requires Pending(h, interval, increment) && !e.Received? && (e.Flushed? ==> !TimedOut(h.s, e.clk100ns))
    ensures Pending(After(h, e), interval, increment)
  {
    match e {
      case Interrupt => TickFollows(h);
      case Flushed(clk100ns) => FlushFollows(h, clk100ns);
    }
  }

  lemma {:induction false} WaitingPends(h: History, events: seq<Event>, interval: u16, increment: u8)
    requires Pending(h, interval, increment) && Legal(events) && Waits(h, events)
    ensures Pending(Follow(h, events), interval, increment)
    decreases |events|
  {
    if events != [] {
      assert Legal(events[1..]);
      WaitStep(h, events[0], interval, increment);
      WaitingPends(After(h, events[0]), events[1..], interval, increment);
    }
  }

  lemma FirstPacketConnects(h: History, packet: seq<u8>, clk100ns: u32, interval: u16, increment: u8)
    requires |packet| >= 40 && Pending(h, interval, increment)
    ensures var g := After(h, Received(packet, clk100ns));
            && Follows(g) && JustConnected(g.s) && g.s.le.connInterval == interval
            && g.lost == 0 && g.raises == g.early == 1 && g.base == g.s.le.channelIncrement == increment
  {
    ConnectFollows(h, packet, clk100ns);
  }

  /**
   The hops of a connection on schedule. A listening follower gets a connect packet, then
   waits, then gets the first packet of the connection: t interrupts later it has made
   1 + (1 + t / 4) / interval hops, one less while the last one is still waiting to be made.
  */
  lemma HopsOnSchedule(s: Link, connect: seq<u8>, c1: u32, waits: seq<Event>, first: seq<u8>, c2: u32, events: seq<Event>)
    requires s.hopMode == HopBtle && !s.doHop && s.clknOffset == 0
    requires |connect| >= 40 && Connects(s.le, connect) && connect[28] >= 2
    requires Legal(waits) && Waits(After(Fresh(s), Received(connect, c1)), waits) && |first| >= 40
    requires Legal(events) && Steady(After(Follow(After(Fresh(s), Received(connect, c1)), waits), Received(first, c2)), events)
    ensures var h := After(Follow(After(Fresh(s), Received(connect, c1)), waits), Received(first, c2));
            var g, t := Follow(h, events), Interrupts(events);
            && |g.hops| + Count(g.s.doHop) == 1 + (1 + t / 4) / connect[28]
            && Tuned(g.hops, connect[39] % 32, connect[39] % 32)
  {
    var asked := After(Fresh(s), Received(connect, c1));
    ConnectPends(s, connect, c1);
    WaitingPends(asked, waits, connect[28], connect[39] % 32);
    FirstPacketConnects(Follow(asked, waits), first, c2, connect[28], connect[39] % 32);
    HopsAfterFirst(After(Follow(asked, waits), Received(first, c2)), events);
  }

  /**
   The schedule goes on piece by piece: the packet at the instant of an update starts a new
   one, by which every interval over has been hopped from then on.
  */
  lemma HopsThroughUpdate(h: History, packet: seq<u8>, clk100ns: u32, events: seq<Event>)
    requires Follows(h) && h.s.clknOffset == 0 && UpdateDue(h.s.le) && h.s.le.intervalUpdate >= 2
    requires |packet| >= 40 && Legal(events) && Steady(After(h, Received(packet, clk100ns)), events)
    ensures var g, start := Follow(After(h, Received(packet, clk100ns)), events),
                            AtPacket(h.s.clkn, h.s.le.intervalUpdate, h.s.le.connCount);
            && |g.hops| + Count(g.s.doHop) == |h.hops| + Count(h.s.doHop) + Over(start, Interrupts(events))
            && TimerAt(g.s, start, Interrupts(events)) && g.base == h.base
            && Tuned(g.hops, g.base, h.s.le.channelIncrement)
  {
    var u, start := After(h, Received(packet, clk100ns)), AtPacket(h.s.clkn, h.s.le.intervalUpdate, h.s.le.connCount);
    UpdateStarts(h, packet, clk100ns);
    ConnectFollows(h, packet, clk100ns);
    SteadyTimer(u, events, start, 0);
    RunFollows(u, events);
    FirstPlace(start);
  }

  lemma UpdateStarts(h: History, packet: seq<u8>, clk100ns: u32)
    requires Follows(h) && h.s.clknOffset == 0 && UpdateDue(h.s.le) && h.s.le.intervalUpdate >= 2 && |packet| >= 40
    ensures var u := After(h, Received(packet, clk100ns));
            && TimerAt(u.s, AtPacket(h.s.clkn, h.s.le.intervalUpdate, h.s.le.connCount), 0)
            && u.hops == h.hops && u.s.doHop == h.s.doHop && u.lost == h.lost && u.raises == h.raises
            && u.base == h.base && u.s.le.channelIncrement == h.s.le.channelIncrement
  {
    PacketStartsTimer(h.s, packet);
    UpdateKeepsCourse(h.s.le, h.s.clkn, packet);
  }
}
