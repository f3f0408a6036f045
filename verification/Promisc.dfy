/**
 Joining a connection that is already under way: the CRC initial value, the hop
 interval and the hop increment are recovered from the packets seen
 (firmware/bluetooth_rxtx/bluetooth_rxtx.c, promisc_follow_cb and the two callbacks
 behind it).
*/
module Promisc {
  import opened Words
  import opened Crc24
  import opened LeChannels
  import opened LeReceive
  import opened LinkLayer
  import opened FollowRun
  import opened CrcCheck

  datatype Callback = FollowCb | PromiscCb | IntervalCb | IncrementCb

  /**
   The link, the callback that gets the next packet, and the variables of the recovery.
   Once it has divided by zero nothing more is said about the firmware.
  */
  datatype State = State(
    link: Link, callback: Callback, firstTs: u32, prevClk: u32, smallestHopInterval: u32, consecIntervals: int,
    faulted: bool)

  // ----- The CRC initial value -----

  /** The register word from which these bits lead to a CRC. */
  function Back(crc: nat, bits: seq<bool>): nat
    decreases |bits|
  {
    if bits == [] then crc else UnstepWord(Back(crc, bits[1..]), bits[0])
  }

  lemma {:induction false} BackLeadsOn(crc: nat, bits: seq<bool>)
    requires crc < 0x100_0000
    ensures Back(crc, bits) < 0x100_0000
    ensures Run(RegisterOf(Back(crc, bits)), bits) == RegisterOf(crc)
    decreases |bits|
  {
    if bits != [] {
      BackLeadsOn(crc, bits[1..]);
      UnstepRange(Back(crc, bits[1..]), bits[0]);
      UnstepUndoes(Back(crc, bits[1..]), bits[0]);
    }
  }

  /** Header and length byte of an empty PDU. */
  const EMPTY_PDU: seq<u8> := [1, 0]

  /** The only register word that has this CRC over the two bytes of an empty PDU. */
  function InitOf(crc: nat): (init: u32)
    requires crc < 0x100_0000
    ensures init < 0x100_0000 && Crc(init, EMPTY_PDU) == RegisterOf(crc)
  {
    BackLeadsOn(crc, DataBits(EMPTY_PDU));
    Back(crc, DataBits(EMPTY_PDU))
  }

  lemma InitOfIsOnly(crc: nat, init: nat)
    requires crc < 0x100_0000 && init < 0x100_0000 && Crc(init, EMPTY_PDU) == RegisterOf(crc)
    ensures init == InitOf(crc)
  {
    InitialValueUnique(RegisterOf(InitOf(crc)), EMPTY_PDU, RegisterOf(crc));
    RegisterInjective(init, InitOf(crc));
  }

  lemma TurnedIsOnly(s: nat, t: nat)
    requires t < 0x100_0000 && RegisterOf(t) == Reflect(RegisterOf(s))
    ensures t == Turned(s)
  {
    RegisterInjective(t, Turned(s));
  }

  lemma ReflectTwice(r: Register)
    ensures Reflect(Reflect(r)) == r
  {}

  /** The CRC on the wire behind an empty PDU. */
  function WireCrc(packet: seq<u8>): (crc: u32)
    requires |packet| >= 40
    ensures crc < 0x100_0000
  {
    LittleEndianRange(packet[6], packet[7], packet[8]);
    LittleEndian(packet[6], packet[7], packet[8])
  }

  /** promisc_follow_cb. */
  function TakeCrcInit(p: State, packet: seq<u8>): State
    requires |packet| >= 40
  {
    if p.link.le.crcVerify || packet[4] != 1 || packet[5] != 0 then p
    else
      var init := InitOf(WireCrc(packet));
      p.(callback := IntervalCb,
         link := p.link.(le := p.link.le.(crcInit := Turned(init), crcInitReversed := init, crcVerify := true)))
  }

  // ----- The hop interval and the hop increment -----

  const BASECLK: nat := 12500

  /** DIVIDE_ROUND on an unsigned 32-bit number. */
  function DivideRound(n: u32, d: nat): nat
    requires 0 < d < 0x8000_0000
  {
    (n + d / 2) % 0x1_0000_0000 / d
  }

  /** A reading of the clock after an earlier one, with the rollover constant the interval step has. */
  function Unrolled(prev: u32, clk: u32): u32 {
    if clk < prev then (clk + 3267800000) % 0x1_0000_0000 else clk
  }

  /** The gap between the two. */
  function Gap(prev: u32, clk: u32): u32 {
    (Unrolled(prev, clk) - prev) % 0x1_0000_0000
  }

  /** The hop interval a gap of one turn through the 37 channels stands for. */
  function Rounded(gap: u32): u16 {
    DivideRound(gap, 37 * BASECLK) % 0x1_0000
  }

  /** promisc_recover_hop_interval. */
  function TakeInterval(p: State, clk: u32): State {
    var diff := Gap(p.prevClk, clk);
    if diff < 2 * BASECLK then p
    else
      var smallest := if diff < p.smallestHopInterval then diff else p.smallestHopInterval;
      var interval := Rounded(smallest);
      var q := p.(smallestHopInterval := smallest, prevClk := Unrolled(p.prevClk, clk));
      if p.link.le.connInterval != interval then
        q.(consecIntervals := 0, link := p.link.(le := p.link.le.(connInterval := interval)))
      else if p.consecIntervals + 1 == 5 then
        q.(consecIntervals := 5, callback := IncrementCb,
           link := p.link.(hopDirectChannel := 2404, hopMode := HopDirect, doHop := true))
      else q.(consecIntervals := p.consecIntervals + 1)
  }

  /** Connection intervals between two readings of the clock, to the nearest. */
  function ChannelsHopped(interval: u16, first: u32, second: u32): nat
    requires interval > 0
  {
    DivideRound(Elapsed(first, second), interval * BASECLK)
  }

  /** The state in which promisc_recover_hop_increment goes over to following. */
  function Joins(s: Link, increment: u8): Link {
    s.(doHop := false, hopMode := HopBtle,
       le := s.le.(channelIncrement := increment, intervalTimer := s.le.connInterval / 2, connCount := 0,
                   connEpoch := 0, channelIdx := (1 + increment) % 37, linkState := Connected, crcVerify := false))
  }

  /** promisc_recover_hop_increment, which divides by the connection interval. */
  function TakeIncrement(p: State, clk: u32): State {
    if p.link.channel == 2404 then p.(firstTs := clk, link := p.link.(hopDirectChannel := 2406, doHop := true))
    else if p.link.channel == 2406 then
      if p.link.le.connInterval == 0 then p.(faulted := true)
      else
        var hopped := ChannelsHopped(p.link.le.connInterval, p.firstTs, clk);
        if hopped < 37 then p.(callback := FollowCb, link := Joins(p.link, HopIntervalLut(hopped)))
        else p.(link := p.link.(hopDirectChannel := 2404, doHop := true))
    else p.(link := p.link.(hopDirectChannel := 2404, doHop := true))
  }

  // ----- Recovering the increment -----

  lemma QuotientBetween(a: nat, d: nat, n: nat)
    requires d > 0
    ensures a / d == n <==> n * d <= a < n * d + d
  {
    if n * d <= a < n * d + d {
      QuotientIs(a, d, n, a - n * d);
    }
    assert a == d * (a / d) + a % d;
  }

  lemma NoWrapInRounding(interval: u16, n: nat)
    requires 0 < interval && n < ROLLOVER
    ensures 0 < interval * BASECLK < 0x8000_0000
    ensures DivideRound(n, interval * BASECLK) == (n + interval * BASECLK / 2) / (interval * BASECLK)
  {}

  lemma HoppedIsQuotient(interval: u16, first: u32, second: u32, d: nat)
    requires 0 < interval && first < ROLLOVER && second < ROLLOVER && d == interval * BASECLK
    ensures ChannelsHopped(interval, first, second) == (Time(first, second) + d / 2) / d
  {
    ElapsedIsTime(first, second);
    NoWrapInRounding(interval, Time(first, second));
  }

  /** The count comes out as n exactly when the time is within half an interval of n intervals. */
  lemma HoppedIsNearest(interval: u16, first: u32, second: u32, n: nat, d: nat)
    requires 0 < interval && first < ROLLOVER && second < ROLLOVER && d == interval * BASECLK
    ensures ChannelsHopped(interval, first, second) == n <==> 0 - d <= 2 * (Time(first, second) - n * d) < d
  {
    HoppedIsQuotient(interval, first, second, d);
    EvenInterval(interval, d);
    Nearest(Time(first, second), d / 2, d, n);
  }

  lemma EvenInterval(interval: u16, d: nat)
    requires 0 < interval && d == interval * BASECLK
    ensures d == 2 * (d / 2) && d / 2 > 0
  {}

  lemma Nearest(t: nat, half: nat, d: nat, n: nat)
    requires d == 2 * half && half > 0
    ensures (t + half) / d == n <==> 0 - d <= 2 * (t - n * d) < d
  {
    QuotientBetween(t + half, d, n);
  }

  /**
   The callback that hears the target on channel index 1 recovers the increment
   exactly when the time since it heard it on index 0 is within half an interval of as
   many intervals as the target takes from index 0 to index 1.
  */
  lemma IncrementRecovered(p: State, clk: u32, increment: u8)
    requires p.link.channel == 2406 && p.link.le.connInterval > 0 && 0 < increment < 37
    requires p.firstTs < ROLLOVER && clk < ROLLOVER
    ensures var d, n := p.link.le.connInterval * BASECLK, HopIntervalLut(increment);
            TakeIncrement(p, clk) == p.(callback := FollowCb, link := Joins(p.link, increment))
            <==> 0 - d <= 2 * (Time(p.firstTs, clk) - n * d) < d
  {
    var n, hopped := HopIntervalLut(increment), ChannelsHopped(p.link.le.connInterval, p.firstTs, clk);
    HoppedIsNearest(p.link.le.connInterval, p.firstTs, clk, n, p.link.le.connInterval * BASECLK);
    LutInverts(increment);
    if 0 < hopped < 37 {
      LutInverts(hopped);
    }
  }

  /** The history of a follower that has just recovered the increment. */
  function JoinedHistory(s: Link, increment: u8): History {
    History(Joins(s, increment), (1 + increment) % 37, [], 0, 0, 0)
  }

  /** The recovered state is one from which every run follows, the next hop going to (1 + increment) mod 37. */
  lemma JoinedFollows(s: Link, increment: u8)
    requires increment < 37
    ensures Follows(JoinedHistory(s, increment))
  {}

  lemma SameCourse(increment: nat, n: nat, k: nat)
    requires (n * increment) % 37 == 1
    ensures ((1 + increment) % 37 + k * increment) % 37 == ((n + 1 + k) * increment) % 37
  {
    assert (n + 1 + k) * increment == n * increment + increment + k * increment;
    var q, w := (n * increment) / 37, (1 + increment) / 37;
    assert n * increment == 37 * q + 1;
    assert 1 + increment == 37 * w + (1 + increment) % 37;
    SameRest((n + 1 + k) * increment, (1 + increment) % 37 + k * increment, q + w);
  }

  /**
   Whatever happens after the increment has been recovered, short of a timeout: the
   target went from index 0 to index 1 in n intervals, and hop k tunes to index
   (n + 1 + k) * increment mod 37.
  */
  lemma JoinedHops(s: Link, increment: u8, events: seq<Event>, k: nat)
    requires 0 < increment < 37 && Legal(events) && Heard(JoinedHistory(s, increment), events)
    ensures var h := Follow(JoinedHistory(s, increment), events);
            k < |h.hops| ==> h.hops[k] == ChannelAt(0, increment, HopIntervalLut(increment) + 1 + k)
  {
    var h0 := JoinedHistory(s, increment);
    JoinedFollows(s, increment);
    RunFollows(h0, events);
    HeardKeepsCourse(h0, events);
    var n := HopIntervalLut(increment);
    LutInverts(increment);
    assert n * increment == increment * n;
    SameCourse(increment, n, k);
  }

  // ----- The time of the hops after that -----

  /** The timer is set as if half an interval were over, and its boundaries are multiples of four of the clock. */
  function JoinStart(s: Link): Start {
    Start(0, s.le.connInterval, s.le.connInterval - s.le.connInterval / 2, 0, s.clkn)
  }

  lemma JoinStarts(s: Link, increment: u8)
    requires s.clknOffset == 0 && s.le.connInterval >= 2
    ensures TimerAt(Joins(s, increment), JoinStart(s), 0)
  {
    FirstPlace(JoinStart(s));
  }

  /** The boundaries of 1.25 ms in the first t ticks from a clock on. */
  function Boundaries(clkn: u32, t: nat): nat {
    (clkn + t) / 4 - clkn / 4
  }

  /** Hop k is asked for half an interval and k whole ones after the increment was recovered. */
  predicate IsJoinedHop(s: Link, t: nat, k: nat) {
    (s.clkn + t) % 4 == 0 && Boundaries(s.clkn, t) == s.le.connInterval / 2 + k * s.le.connInterval
  }

  lemma JoinedHopTicks(s: Link, t: nat)
    requires s.le.connInterval > 0
    ensures OnTime(JoinStart(s), t) <==> exists k: nat :: IsJoinedHop(s, t, k)
  {
    if OnTime(JoinStart(s), t) {
      var k := WholeIntervals(s.le.connInterval, Boundaries(s.clkn, t), Passed(JoinStart(s), t));
      assert IsJoinedHop(s, t, k);
    }
    if k: nat :| IsJoinedHop(s, t, k) {
      HalfAndWhole(s.le.connInterval, Boundaries(s.clkn, t), Passed(JoinStart(s), t), k);
    }
  }

  lemma HalfAndWhole(interval: nat, boundaries: nat, passed: nat, k: nat)
    requires interval > 0 && passed == interval - interval / 2 + boundaries && boundaries == interval / 2 + k * interval
    ensures passed % interval == 0
  {
    QuotientIs(passed, interval, k + 1, 0);
  }

  lemma WholeIntervals(interval: nat, boundaries: nat, passed: nat) returns (k: nat)
    requires interval > 0 && passed == interval - interval / 2 + boundaries && passed % interval == 0
    ensures boundaries == interval / 2 + k * interval
  {
    var q := passed / interval;
    assert passed == interval * q;
    PositiveFactor(interval, q);
    k := q - 1;
  }

  lemma PositiveFactor(a: nat, q: int)
    requires a * q > 0
    ensures q > 0
  {}

  /** Before the next boundary the interrupts leave the connection alone. */
  lemma {:induction false} NoBoundary(s: Link, t: nat)
    requires s.clknOffset == 0 && s.le.connEpoch == 0 && s.clkn % 4 + t < 4
    ensures Ticks(s, t).le == s.le && Ticks(s, t).clknOffset == 0
    ensures Ticks(s, t).clkn == s.clkn + t && Ticks(s, t).hopMode == s.hopMode
  {
    if t > 0 {
      NoBoundary(s, t - 1);
      WithinQuarter(s.clkn, t - 1);
      BetweenBoundaries(Ticks(s, t - 1), s.clkn + (t - 1));
    }
  }

  lemma WithinQuarter(clkn: u32, t: nat)
    requires clkn % 4 + t < 3
    ensures (clkn + t) % 4 < 3 && clkn + t + 1 < 0x1_0000_0000
  {
    assert clkn + t == 4 * (clkn / 4) + (clkn % 4 + t);
  }

  lemma BetweenBoundaries(s: Link, clkn: nat)
    requires s.clkn == clkn && s.clknOffset == 0 && s.le.connEpoch == 0 && clkn % 4 < 3
    ensures Tick(s).le == s.le && Tick(s).clknOffset == 0 && Tick(s).clkn == clkn + 1 && Tick(s).hopMode == s.hopMode
  {
    assert (clkn + 1) % 4 != 0 && clkn + 1 < 0x1_0000_0000;
    assert !Anchor(s);
  }

  /** A timer that starts at zero does not ask for the hop due at the first boundary. */
  lemma FirstHopLate(s: Link, increment: u8, t: nat)
    requires s.clknOffset == 0 && s.le.connInterval == 1 && t == 4 - s.clkn % 4
    ensures OnTime(JoinStart(s), t) && !RaisesAt(Joins(s, increment), t)
  {
    NoBoundary(Joins(s, increment), t - 1);
    assert Ticks(Joins(s, increment), t - 1).le.intervalTimer == 0;
    NextQuarter(s.clkn, t);
  }

  lemma NextQuarter(clkn: u32, t: nat)
    requires t == 4 - clkn % 4
    ensures (clkn + t) % 4 == 0
  {}

  /** The hops come half an interval and whole intervals after the recovery exactly when the interval is at least two. */
  lemma JoinedOnTimeExactly(s: Link, increment: u8)
    requires s.clknOffset == 0 && s.le.connInterval > 0
    ensures HopsOnTime(Joins(s, increment), JoinStart(s)) <==> s.le.connInterval >= 2
  {
    var j := Joins(s, increment);
    if s.le.connInterval >= 2 {
      JoinStarts(s, increment);
      forall t: nat | t >= 1 ensures RaisesAt(j, t) <==> OnTime(JoinStart(s), t) {
        TicksKeepTime(j, JoinStart(s), t - 1);
      }
    } else {
      FirstHopLate(s, increment, 4 - s.clkn % 4);
    }
  }

  /** Within half an interval of the target's m-th interval since the recovery. */
  predicate Nearby(interval: nat, boundaries: nat, m: nat) {
    m * interval - (interval - interval / 2) <= boundaries < m * interval + interval / 2
  }

  lemma NearbyHops(interval: nat, boundaries: nat, m: nat)
    requires interval > 0 && Nearby(interval, boundaries, m)
    ensures (interval - interval / 2 + boundaries) / interval == m
  {
    QuotientIs(interval - interval / 2 + boundaries, interval, m, interval - interval / 2 + boundaries - m * interval);
  }

  lemma JoinedRun(s: Link, increment: u8, events: seq<Event>)
    requires increment < 37 && s.clknOffset == 0 && s.le.connInterval >= 2
    requires Legal(events) && Steady(JoinedHistory(s, increment), events)
    ensures var g := Follow(JoinedHistory(s, increment), events);
            && Follows(g) && g.s.le.linkState == Connected
            && g.base == (1 + increment) % 37 && g.s.le.channelIncrement == increment
            && (g.hops == [] ==> g.s.channel == s.channel)
            && |g.hops| + Count(g.s.doHop) == Over(JoinStart(s), Interrupts(events))
  {
    var h := JoinedHistory(s, increment);
    JoinStarts(s, increment);
    JoinedFollows(s, increment);
    SteadyTimer(h, events, JoinStart(s), 0);
    RunFollows(h, events);
    FirstPlace(JoinStart(s));
  }

  /**
   After the recovery the follower is where the target is: the target went from index 0
   to index 1 in n intervals, and from half an interval before the m-th interval after
   that to half an interval behind it the follower has made m hops, or one less while the
   last is waiting, and stands on index (n + m) * increment mod 37.
  */
  lemma FollowsTarget(s: Link, increment: u8, events: seq<Event>, m: nat)
    requires 0 < increment < 37 && s.channel == 2406 && s.clknOffset == 0 && s.le.connInterval >= 2
    requires Legal(events) && Steady(JoinedHistory(s, increment), events)
    requires Nearby(s.le.connInterval, Boundaries(s.clkn, Interrupts(events)), m)
    ensures var g := Follow(JoinedHistory(s, increment), events);
            && |g.hops| + Count(g.s.doHop) == m
            && (!g.s.doHop ==> g.s.channel == ChannelAt(0, increment, HopIntervalLut(increment) + m))
  {
    JoinedRun(s, increment, events);
    OverNearby(s, Interrupts(events), m);
    StandsOnTarget(Follow(JoinedHistory(s, increment), events), increment);
  }

  lemma OverNearby(s: Link, t: nat, m: nat)
    requires s.le.connInterval > 0 && Nearby(s.le.connInterval, Boundaries(s.clkn, t), m)
    ensures Over(JoinStart(s), t) == m
  {
    NearbyHops(s.le.connInterval, Boundaries(s.clkn, t), m);
  }

  lemma StandsOnTarget(g: History, increment: u8)
    requires 0 < increment < 37 && Follows(g) && g.s.le.linkState == Connected
    requires g.base == (1 + increment) % 37 && g.s.le.channelIncrement == increment
    requires g.hops == [] ==> g.s.channel == 2406
    ensures g.s.channel == ChannelAt(0, increment, HopIntervalLut(increment) + |g.hops|)
  {
    var m := |g.hops|;
    var n := HopIntervalLut(increment);
    LutInverts(increment);
    assert n * increment == increment * n;
    if m > 0 {
      SameCourse(increment, n, m - 1);
      assert n + 1 + (m - 1) == n + m;
    }
  }

  // ----- Whole runs -----

  /** A packet in front of a callback, which looks at up to 40 bytes of it. */
  type Buffer = packet: seq<u8> | |packet| >= 40 witness seq(40, _ => 0)

  /**
   bt_promisc_le goes round: the recovery starts over, on the address found by listening
   unless the host has set one.
  */
  function Sought(p: State, found: u32): State {
    var le := if p.link.le.targetSet then p.link.le else ResetOf(p.link.le).(accessAddress := found);
    p.(callback := PromiscCb, smallestHopInterval := 0xffff_ffff, consecIntervals := 0,
       link := p.link.(doHop := p.link.le.targetSet && p.link.doHop,
                       channel := if p.link.channel % 2 == 1 then 2440 else p.link.channel,
                       le := le.(crcVerify := false, linkState := Listening)))
  }

  /** The connection has died, and bt_le_sync has returned. */
  function Lost(p: State): State {
    p.(link := p.link.(le := ResetOf(p.link.le), doHop := false))
  }

  /**
   The turns of a run: a timer interrupt, a packet, the end of a receive loop, and what
   the host does: UBERTOOTH_BTLE_PROMISC in the middle of the mode, which only changes the
   hop mode; leaving the mode and entering it again; and switching the CRC check.
  */
  datatype Turn =
    | Timer
    | Packet(packet: Buffer, clk: u32)
    | Silence(clk: u32, picked: u16, found: u32)
    | Again
    | Restart(found: u32)
    | Override(verify: bool)

  function Handle(p: State, packet: Buffer, clk: u32): State {
    match p.callback
    case FollowCb => p.(link := FollowCallback(p.link, packet))
    case PromiscCb => TakeCrcInit(p, packet)
    case IntervalCb => TakeInterval(p, clk)
    case IncrementCb => TakeIncrement(p, clk)
  }

  function Next(p: State, t: Turn): State {
    if p.faulted then p
    else
      match t
      case Timer => p.(link := Tick(p.link))
      case Packet(packet, clk) =>
        var q := Handle(p, packet, clk);
        q.(link := q.link.(le := q.link.le.(lastPacket := clk)))
      case Silence(clk, picked, found) =>
        if TimedOut(p.link, clk) then Sought(Lost(p), found) else p.(link := Flush(p.link, clk, picked))
      case Again => p.(link := p.link.(hopMode := HopNone))
      case Restart(found) => Sought(p.(link := p.link.(hopMode := HopNone)), found)
      case Override(verify) => p.(link := p.link.(le := p.link.le.(crcVerify := verify)))
  }

  function Turns(p: State, ts: seq<Turn>): State
    decreases |ts|
  {
    if ts == [] then p else Turns(Next(p, ts[0]), ts[1..])
  }

  lemma {:induction false} TurnsAppend(p: State, a: seq<Turn>, b: seq<Turn>)
    ensures Turns(p, a + b) == Turns(Turns(p, a), b)
    decreases |a|
  {
    if a == [] {
      assert a + b == b;
    } else {
      TurnsAppend(Next(p, a[0]), a[1..], b);
      assert (a + b)[1..] == a[1..] + b;
    }
  }

  // ----- The CRC check over whole runs -----

  /** The recovery takes the initial value from this turn. */
  predicate Recovers(p: State, t: Turn) {
    t.Packet? && p.callback == PromiscCb && !p.link.le.crcVerify && t.packet[4] == 1 && t.packet[5] == 0
  }

  /** The connection-following callback takes it from a connect packet. */
  predicate Connecting(p: State, t: Turn) {
    t.Packet? && p.callback == FollowCb && Connects(p.link.le, t.packet)
  }

  /** This turn stores a pair of initial values: of a packet, or the advertising one. */
  predicate Stores(p: State, t: Turn) {
    && !p.faulted
    && (Recovers(p, t) || Connecting(p, t) || (t.Silence? && TimedOut(p.link, t.clk)) || (t.Restart? && !p.link.le.targetSet))
  }

  /** And one that agrees. */
  predicate StoresSound(p: State, t: Turn) {
    Stores(p, t) && (Connecting(p, t) ==> CrcInitOf(t.packet) == 0)
  }

  lemma PacketPair(p: State, t: Turn)
    requires !p.faulted && t.Packet? && !Connecting(p, t)
    ensures PairSound(Next(p, t).link.le) <==> Recovers(p, t) || PairSound(p.link.le)
  {
    match p.callback
    case FollowCb => PacketStores(p.link, t.packet);
    case PromiscCb =>
      if Recovers(p, t) {
        RecoveredPair(p, t.packet);
      }
    case IntervalCb =>
    case IncrementCb =>
  }

  lemma RecoveredPair(p: State, packet: Buffer)
    requires !p.link.le.crcVerify && packet[4] == 1 && packet[5] == 0
    ensures PairSound(TakeCrcInit(p, packet).link.le)
  {
    var init := InitOf(WireCrc(packet));
    ReflectTwice(RegisterOf(init));
  }

  lemma ConnectingPair(p: State, t: Turn)
    requires !p.faulted && Connecting(p, t)
    ensures PairSound(Next(p, t).link.le) <==> CrcInitOf(t.packet) == 0
  {
    PacketStores(p.link, t.packet);
    ConnectedPair(Next(p, t).link.le);
  }

  lemma NextPair(p: State, t: Turn)
    ensures PairSound(Next(p, t).link.le) <==> if Stores(p, t) then StoresSound(p, t) else PairSound(p.link.le)
  {
    AdvertisingInitSound(p.link.le);
    AdvertisingInitSound(ResetOf(p.link.le));
    if t.Packet? && !p.faulted {
      if Connecting(p, t) {
        ConnectingPair(p, t);
      } else {
        PacketPair(p, t);
      }
    }
  }

  /** The last turn that stored a pair stored a sound one; without any such turn, as it was before. */
  predicate LastSound(p: State, ts: seq<Turn>, before: bool)
    decreases |ts|
  {
    if ts == [] then before
    else LastSound(Next(p, ts[0]), ts[1..], if Stores(p, ts[0]) then StoresSound(p, ts[0]) else before)
  }

  /** At the end of every run, whether the CRC is checked or not, the pair is as the last turn that stored one left it. */
  lemma {:induction false} PairOfRun(p: State, ts: seq<Turn>)
    ensures PairSound(Turns(p, ts).link.le) <==> LastSound(p, ts, PairSound(p.link.le))
    decreases |ts|
  {
    if ts != [] {
      NextPair(p, ts[0]);
      PairOfRun(Next(p, ts[0]), ts[1..]);
    }
  }

  /** In every state of the run the pair is sound if the CRC is checked. */
  predicate AlwaysChecked(p: State, ts: seq<Turn>)
    decreases |ts|
  {
    Checked(p.link.le) && (ts != [] ==> AlwaysChecked(Next(p, ts[0]), ts[1..]))
  }

  /** The host switches the check on only while the pair is sound. */
  predicate OverridesSound(p: State, ts: seq<Turn>)
    decreases |ts|
  {
    ts != [] ==>
      && (ts[0].Override? && ts[0].verify && !p.faulted ==> PairSound(p.link.le))
      && OverridesSound(Next(p, ts[0]), ts[1..])
  }

  lemma PacketChecked(p: State, t: Turn)
    requires Checked(p.link.le) && !p.faulted && t.Packet?
    ensures Checked(Next(p, t).link.le)
  {
    PacketStores(p.link, t.packet);
    if !Connecting(p, t) {
      PacketPair(p, t);
    }
  }

  /** Every turn but the override keeps the check sound, whatever the state. */
  lemma NextChecked(p: State, t: Turn)
    requires Checked(p.link.le)
    ensures Checked(Next(p, t).link.le) <==> t.Override? && t.verify && !p.faulted ==> PairSound(p.link.le)
  {
    AdvertisingInitSound(p.link.le);
    if t.Packet? && !p.faulted {
      PacketChecked(p, t);
    }
  }

  /**
   Over every run of promiscuous mode: wherever the CRC is checked the two stored forms of
   the initial value are 24-bit reversals of each other, unless and until the host
   switches the check on while they are not.
  */
  lemma {:induction false} RunSound(p: State, ts: seq<Turn>)
    requires Checked(p.link.le)
    ensures AlwaysChecked(p, ts) <==> OverridesSound(p, ts)
    ensures OverridesSound(p, ts) ==> Checked(Turns(p, ts).link.le)
    decreases |ts|
  {
    if ts != [] {
      NextChecked(p, ts[0]);
      if Checked(Next(p, ts[0]).link.le) {
        RunSound(Next(p, ts[0]), ts[1..]);
      }
    }
  }

  /** The search puts the firmware in a state to begin with, whatever it was in before. */
  lemma SearchSound(p: State, found: u32, ts: seq<Turn>)
    ensures AlwaysChecked(Sought(p, found), ts) <==> OverridesSound(Sought(p, found), ts)
  {
    RunSound(Sought(p, found), ts);
  }

  /** The connection-following callback is in force only in a connection. */
  predicate Placed(p: State) {
    p.callback == FollowCb ==> p.link.le.linkState == Connected
  }

  /** The recovery has taken this initial value. */
  predicate Holds(p: State, init: u32) {
    Placed(p) && p.callback != PromiscCb && p.link.le.crcInitReversed == init
  }

  /** The run neither loses the connection nor starts over. */
  predicate Undisturbed(p: State, ts: seq<Turn>)
    decreases |ts|
  {
    ts != [] ==>
      && !ts[0].Restart? && (ts[0].Silence? ==> !TimedOut(p.link, ts[0].clk))
      && Undisturbed(Next(p, ts[0]), ts[1..])
  }

  lemma NextHolds(p: State, t: Turn, init: u32)
    requires Holds(p, init) && !t.Restart? && (t.Silence? ==> !TimedOut(p.link, t.clk))
    ensures Holds(Next(p, t), init)
  {}

  lemma {:induction false} RunHolds(p: State, ts: seq<Turn>, init: u32)
    requires Holds(p, init) && Undisturbed(p, ts)
    ensures Holds(Turns(p, ts), init)
    decreases |ts|
  {
    if ts != [] {
      NextHolds(p, ts[0], init);
      RunHolds(Next(p, ts[0]), ts[1..], init);
    }
  }

  /**
   Once an empty PDU has been seen that is right for some initial value, every later
   PDU of the connection passes the check of bt_le_sync if its CRC comes from that
   value, and as long as the CRC is checked only if it does.
  */
  lemma LaterPacketsPass(p: State, packet: Buffer, init: u32, ts: seq<Turn>, pdu: seq<u8>)
    requires p.callback == PromiscCb && !p.link.le.crcVerify && packet[4] == 1 && packet[5] == 0
    requires init < 0x100_0000 && Run(RegisterOf(init), DataBits(packet[4..9])) == Zeros(24)
    requires Undisturbed(TakeCrcInit(p, packet), ts) && |pdu| == 44 && Length(pdu) <= 39
    ensures var le := Turns(TakeCrcInit(p, packet), ts).link.le;
            && (CrcGood(init, pdu) ==> Accepts(le.crcVerify, le.crcInitReversed, pdu))
            && (le.crcVerify ==> (Accepts(le.crcVerify, le.crcInitReversed, pdu) <==> CrcGood(init, pdu)))
  {
    EmptyPduInit(packet, init);
    RunHolds(TakeCrcInit(p, packet), ts, init);
  }

  /** The initial value found is the one with which the empty PDU and its CRC end the register at zero. */
  lemma EmptyPduInit(packet: Buffer, init: nat)
    requires packet[4] == 1 && packet[5] == 0 && init < 0x100_0000
    requires Run(RegisterOf(init), DataBits(packet[4..9])) == Zeros(24)
    ensures InitOf(WireCrc(packet)) == init
  {
    var pdu := packet[4..9];
    LengthField(pdu);
    CrcGoodIsResidue(init, pdu);
    assert pdu[..2] == EMPTY_PDU && pdu[2] == packet[6] && pdu[3] == packet[7] && pdu[4] == packet[8];
    InitOfIsOnly(WireCrc(packet), init);
  }

  // ----- An interval of zero -----

  lemma RoundsToZero(n: u32)
    ensures Rounded(n) == 0 <==> n < 231250 || n >= 0x1_0000_0000 - 231250
  {
    var m := (n + 231250) % 0x1_0000_0000;
    assert DivideRound(n, 37 * BASECLK) == m / 462500;
    assert m / 462500 < 0x1_0000;
  }

  /** Where it matters the interval is what the shortest gap stands for. */
  predicate Settled(p: State) {
    (p.callback == IncrementCb || (p.callback == IntervalCb && p.consecIntervals != 0)) ==>
      p.link.le.connInterval == Rounded(p.smallestHopInterval)
  }

  lemma NextSettled(p: State, t: Turn)
    requires Settled(p) && (p.callback == PromiscCb ==> p.consecIntervals == 0)
    ensures Settled(Next(p, t)) && (Next(p, t).callback == PromiscCb ==> Next(p, t).consecIntervals == 0)
  {}

  lemma {:induction false} RunSettled(p: State, ts: seq<Turn>)
    requires Settled(p) && (p.callback == PromiscCb ==> p.consecIntervals == 0)
    ensures Settled(Turns(p, ts))
    decreases |ts|
  {
    if ts != [] {
      NextSettled(p, ts[0]);
      RunSettled(Next(p, ts[0]), ts[1..]);
    }
  }

  /** The next turn divides by zero. */
  predicate Divides(p: State, t: Turn) {
    !p.faulted && Next(p, t).faulted
  }

  lemma SettledDivides(p: State, t: Turn)
    requires Settled(p) && !p.faulted
    ensures Divides(p, t) <==>
      && t.Packet? && p.callback == IncrementCb && p.link.channel == 2406
      && (p.smallestHopInterval < 231250 || p.smallestHopInterval >= 0x1_0000_0000 - 231250)
  {
    RoundsToZero(p.smallestHopInterval);
  }

  /**
   After any turns from the start of the recovery on, restarts and all: the next one divides
   by zero exactly when it is a packet on channel 2406 in the increment step, and the
   smallest hop interval rounds to zero.
  */
  lemma DividesExactly(p: State, ts: seq<Turn>, t: Turn)
    requires p.callback == PromiscCb && p.consecIntervals == 0 && !Turns(p, ts).faulted
    ensures var q := Turns(p, ts);
            Divides(q, t) <==>
              && t.Packet? && q.callback == IncrementCb && q.link.channel == 2406
              && (q.smallestHopInterval < 231250 || q.smallestHopInterval >= 0x1_0000_0000 - 231250)
  {
    RunSettled(p, ts);
    SettledDivides(Turns(p, ts), t);
  }

  /** The gaps the interval step counts: those of at least 2.5 ms. */
  function Gaps(prev: u32, clks: seq<u32>): seq<u32>
    decreases |clks|
  {
    if clks == [] then []
    else if Gap(prev, clks[0]) < 25000 then Gaps(prev, clks[1..])
    else [Gap(prev, clks[0])] + Gaps(Unrolled(prev, clks[0]), clks[1..])
  }

  /** The clock at the packets of a run that the interval step gets. */
  function Readings(p: State, ts: seq<Turn>): seq<u32>
    decreases |ts|
  {
    if ts == [] then []
    else
      var rest := Readings(Next(p, ts[0]), ts[1..]);
      if ts[0].Packet? && p.callback == IntervalCb && !p.faulted then [ts[0].clk] + rest else rest
  }

  /** The shortest of some gaps and a value before them. */
  predicate Shortest(smallest: u32, before: u32, gaps: seq<u32>) {
    && smallest <= before && (forall g :: g in gaps ==> smallest <= g)
    && (smallest == before || smallest in gaps)
  }

  lemma NextReading(p: State, t: Turn)
    requires p.callback != PromiscCb && !t.Restart? && (t.Silence? ==> !TimedOut(p.link, t.clk))
    ensures var q := Next(p, t);
            && q.callback != PromiscCb
            && if t.Packet? && p.callback == IntervalCb && !p.faulted && Gap(p.prevClk, t.clk) >= 2 * BASECLK
               then q.prevClk == Unrolled(p.prevClk, t.clk) && Shortest(q.smallestHopInterval, p.smallestHopInterval, [Gap(p.prevClk, t.clk)])
               else q.prevClk == p.prevClk && q.smallestHopInterval == p.smallestHopInterval
  {}

  /** After any undisturbed run the smallest hop interval is the shortest gap counted. */
  lemma {:induction false} ShortestGap(p: State, ts: seq<Turn>)
    requires p.callback != PromiscCb && Undisturbed(p, ts)
    ensures Shortest(Turns(p, ts).smallestHopInterval, p.smallestHopInterval, Gaps(p.prevClk, Readings(p, ts)))
    decreases |ts|
  {
    if ts != [] {
      NextReading(p, ts[0]);
      var q := Next(p, ts[0]);
      ShortestGap(q, ts[1..]);
      var rest := Readings(q, ts[1..]);
      assert Readings(p, ts) == rest || (Readings(p, ts)[0] == ts[0].clk && Readings(p, ts)[1..] == rest);
    }
  }

  /**
   Over every undisturbed run from the packet that gives the initial value: the next turn
   divides by zero exactly when it is a packet on channel 2406 in the increment step, and
   some gap between the packets of the interval step was below 23.125 ms, or all of them
   were so long that their rounding wrapped around.
  */
  lemma DividesByZeroExactly(p: State, packet: Buffer, clk: u32, ts: seq<Turn>, t: Turn)
    requires !p.faulted && Recovers(p, Turn.Packet(packet, clk))
    requires p.smallestHopInterval == 0xffff_ffff && p.consecIntervals == 0
    requires Undisturbed(Next(p, Turn.Packet(packet, clk)), ts) && !Turns(Next(p, Turn.Packet(packet, clk)), ts).faulted
    ensures var p1 := Next(p, Turn.Packet(packet, clk));
            var q, gaps := Turns(p1, ts), Gaps(p.prevClk, Readings(p1, ts));
            Divides(q, t) <==>
              && t.Packet? && q.callback == IncrementCb && q.link.channel == 2406
              && ((exists g :: g in gaps && g < 231250) || (forall g :: g in gaps ==> g >= 0x1_0000_0000 - 231250))
  {
    var p1 := Next(p, Turn.Packet(packet, clk));
    RunSettled(p1, ts);
    ShortestGap(p1, ts);
    SettledDivides(Turns(p1, ts), t);
  }

  // ----- The interval that is recovered -----

  lemma RoundedIsNearest(gap: u32, n: nat)
    requires n > 0
    ensures Rounded(gap) == n <==> gap < 0x1_0000_0000 - 231250 && (2 * n - 1) * 462500 <= 2 * gap < (2 * n + 1) * 462500
  {
    if gap < 0x1_0000_0000 - 231250 {
      QuotientBetween(gap + 231250, 462500, n);
      assert (gap + 231250) / 462500 < 0x1_0000;
    }
  }

  /**
   When the interval step moves on, the interval is n exactly when no gap between packets
   was shorter than one turn of n times 37 channels, and some gap was no longer, both to
   the nearest interval of 1.25 ms times 37.
  */
  lemma IntervalRecovered(p: State, packet: Buffer, clk: u32, ts: seq<Turn>, n: nat)
    requires !p.faulted && Recovers(p, Turn.Packet(packet, clk)) && n > 0
    requires p.smallestHopInterval == 0xffff_ffff && p.consecIntervals == 0
    requires Undisturbed(Next(p, Turn.Packet(packet, clk)), ts)
    requires Turns(Next(p, Turn.Packet(packet, clk)), ts).callback == IncrementCb
    ensures var p1 := Next(p, Turn.Packet(packet, clk));
            var q, gaps := Turns(p1, ts), Gaps(p.prevClk, Readings(p1, ts));
            q.link.le.connInterval == n <==>
              && (forall g :: g in gaps ==> (2 * n - 1) * 462500 <= 2 * g)
              && (exists g :: g in gaps && 2 * g < (2 * n + 1) * 462500 && g < 0x1_0000_0000 - 231250)
  {
    var p1 := Next(p, Turn.Packet(packet, clk));
    RunSettled(p1, ts);
    ShortestGap(p1, ts);
    NearestOfShortest(Turns(p1, ts).smallestHopInterval, Gaps(p.prevClk, Readings(p1, ts)), n);
  }

  lemma NearestOfShortest(smallest: u32, gaps: seq<u32>, n: nat)
    requires n > 0 && Shortest(smallest, 0xffff_ffff, gaps)
    ensures Rounded(smallest) == n <==>
              && (forall g :: g in gaps ==> (2 * n - 1) * 462500 <= 2 * g)
              && (exists g :: g in gaps && 2 * g < (2 * n + 1) * 462500 && g < 0x1_0000_0000 - 231250)
  {
    RoundedIsNearest(smallest, n);
  }

  // ----- A run that gets there -----

  /**
   The reading the interval step takes for one 2.5 ms after another: it is that, except
   across a rollover of the clock, whose constant the step has wrong.
  */
  function Ahead(prev: u32): (clk: u32)
    ensures prev + 25000 < ROLLOVER ==> clk == prev + 25000
    ensures clk < ROLLOVER && Gap(prev, clk) == 25000 && Unrolled(prev, clk) == (prev + 25000) % 0x1_0000_0000
  {
    if prev + 25000 < ROLLOVER then prev + 25000 else prev + 25000 - 3267800000
  }

  /** Packets the interval step takes for 2.5 ms apart. */
  function Paced(prev: u32, packet: Buffer, n: nat): seq<Turn>
    decreases n
  {
    if n == 0 then []
    else [Turn.Packet(packet, Ahead(prev))] + Paced((prev + 25000) % 0x1_0000_0000, packet, n - 1)
  }

  /** The interval step with n intervals of zero. */
  predicate Counting(p: State, n: nat) {
    && p.callback == IntervalCb && !p.faulted && p.consecIntervals == n && p.link.le.connInterval == 0
    && p.smallestHopInterval >= 25000 && p.link.le.linkState == Listening
  }

  /** The increment step, about to tune to its first channel, with an interval of zero. */
  predicate Doomed(p: State) {
    && p.callback == IncrementCb && !p.faulted && p.link.le.connInterval == 0 && p.link.le.linkState == Listening
    && p.link.hopMode == HopDirect && p.link.doHop && p.link.hopDirectChannel == 2404
  }

  lemma PacedStep(p: State, packet: Buffer, n: nat)
    requires n < 5 && Counting(p, n)
    ensures var q := Next(p, Turn.Packet(packet, Ahead(p.prevClk)));
            && q.prevClk == (p.prevClk + 25000) % 0x1_0000_0000
            && if n == 4 then Doomed(q) else Counting(q, n + 1)
  {
    RoundsToZero(25000);
  }

  lemma {:induction false} PacedRun(p: State, packet: Buffer, n: nat)
    requires n < 5 && Counting(p, n)
    ensures Doomed(Turns(p, Paced(p.prevClk, packet, 5 - n)))
    decreases 5 - n
  {
    PacedStep(p, packet, n);
    var q := Next(p, Turn.Packet(packet, Ahead(p.prevClk)));
    if n < 4 {
      PacedRun(q, packet, n + 1);
    }
  }

  /** Tuned to the first channel a packet, tuned to the second one another. */
  function LastTurns(packet: Buffer, first: u32, second: u32): seq<Turn> {
    [Silence(first, 0, 0), Turn.Packet(packet, first), Silence(first, 0, 0), Turn.Packet(packet, second)]
  }

  lemma TwoTurns(p: State, a: Turn, b: Turn)
    ensures Turns(p, [a, b]) == Next(Next(p, a), b)
  {
    assert [a, b][1..] == [b] && [b][1..] == [];
    assert Turns(Next(p, a), [b]) == Turns(Next(Next(p, a), b), [b][1..]);
  }

  lemma DoomedRun(p: State, packet: Buffer, first: u32, second: u32)
    requires Doomed(p)
    ensures Turns(p, LastTurns(packet, first, second)).faulted
  {
    var tune, heard, last := Silence(first, 0, 0), Turn.Packet(packet, first), Turn.Packet(packet, second);
    assert LastTurns(packet, first, second) == [tune, heard] + [tune, last];
    TurnsAppend(p, [tune, heard], [tune, last]);
    TwoTurns(p, tune, heard);
    TwoTurns(Next(Next(p, tune), heard), tune, last);
    assert Next(p, tune).link.channel == 2404;
  }

  lemma StartsCounting(p: State, found: u32, empty: Buffer, clk: u32)
    requires !p.faulted && !p.link.le.targetSet && empty[4] == 1 && empty[5] == 0
    ensures var q := Turns(p, [Restart(found), Turn.Packet(empty, clk)]);
            Counting(q, 0) && q.prevClk == p.prevClk
  {
    TwoTurns(p, Restart(found), Turn.Packet(empty, clk));
  }

  lemma ThreeRuns(p: State, a: seq<Turn>, b: seq<Turn>, c: seq<Turn>)
    ensures Turns(p, a + b + c) == Turns(Turns(Turns(p, a), b), c)
  {
    TurnsAppend(p, a + b, c);
    TurnsAppend(p, a, b);
  }

  lemma CountingFails(p: State, packet: Buffer, prev: u32, first: u32, second: u32)
    requires Counting(p, 0) && p.prevClk == prev
    ensures Turns(Turns(p, Paced(prev, packet, 5)), LastTurns(packet, first, second)).faulted
  {
    PacedRun(p, packet, 0);
    DoomedRun(Turns(p, Paced(prev, packet, 5)), packet, first, second);
  }

  /**
   So it happens: whatever the previous reading, when promiscuous mode has found its own
   access address, an empty PDU, five packets the interval step takes for 2.5 ms apart, and a
   packet on each of the two channels of the increment step divide by zero.
  */
  lemma DividesByZeroHappens(p: State, found: u32, empty: Buffer, packet: Buffer, clk: u32, second: u32)
    requires !p.faulted && !p.link.le.targetSet && empty[4] == 1 && empty[5] == 0
    ensures Turns(p, [Restart(found), Turn.Packet(empty, clk)] + Paced(p.prevClk, packet, 5)
                     + LastTurns(packet, clk, second)).faulted
  {
    StartsCounting(p, found, empty, clk);
    CountingFails(Turns(p, [Restart(found), Turn.Packet(empty, clk)]), packet, p.prevClk, clk, second);
    ThreeRuns(p, [Restart(found), Turn.Packet(empty, clk)], Paced(p.prevClk, packet, 5), LastTurns(packet, clk, second));
  }

  // ----- Two packets recover the increment -----

  lemma ThreeTurns(p: State, a: Turn, b: Turn, c: Turn)
    ensures Turns(p, [a, b, c]) == Next(Next(Next(p, a), b), c)
  {
    assert [a, b, c][1..] == [b, c];
    TwoTurns(Next(p, a), b, c);
  }

  /**
   A packet on 2404 MHz, the hop, and a packet on 2406 MHz: the connection is joined with
   the increment exactly when the time between the packets is within half an interval of
   as many intervals as the target takes from the one channel to the other.
  */
  lemma TwoPacketsRecover(p: State, first: Buffer, a: u32, flushed: u32, second: Buffer, b: u32, increment: u8)
    requires p.callback == IncrementCb && !p.faulted && p.link.hopMode == HopDirect && p.link.channel == 2404
    requires p.link.le.linkState == Listening && p.link.le.connInterval > 0
    requires a < ROLLOVER && b < ROLLOVER && 0 < increment < 37
    ensures var q := Turns(p, [Turn.Packet(first, a), Silence(flushed, 0, 0), Turn.Packet(second, b)]);
            var d, n := p.link.le.connInterval * BASECLK, HopIntervalLut(increment);
            q.callback == FollowCb && q.link.le.linkState == Connected && q.link.le.channelIncrement == increment
            <==> 0 - d <= 2 * (Time(a, b) - n * d) < d
    ensures var q := Turns(p, [Turn.Packet(first, a), Silence(flushed, 0, 0), Turn.Packet(second, b)]);
            q.callback == FollowCb ==> !q.link.le.crcVerify && q.link.hopMode == HopBtle && !q.link.doHop
  {
    ThreeTurns(p, Turn.Packet(first, a), Silence(flushed, 0, 0), Turn.Packet(second, b));
    var p2 := Next(Next(p, Turn.Packet(first, a)), Silence(flushed, 0, 0));
    assert p2.callback == IncrementCb && !p2.faulted && p2.firstTs == a && p2.link.channel == 2406;
    assert p2.link.le.connInterval == p.link.le.connInterval;
    IncrementRecovered(p2, b, increment);
  }

  /** With more time than that for 36 intervals the step goes back to the first channel and begins again. */
  lemma IncrementRetried(p: State, clk: u32)
    requires p.link.channel == 2406 && p.link.le.connInterval > 0 && p.firstTs < ROLLOVER && clk < ROLLOVER
    ensures TakeIncrement(p, clk) == p.(link := p.link.(hopDirectChannel := 2404, doHop := true))
            <==> 2 * Time(p.firstTs, clk) >= 73 * (p.link.le.connInterval * BASECLK)
  {
    var d := p.link.le.connInterval * BASECLK;
    EvenInterval(p.link.le.connInterval, d);
    HoppedIsQuotient(p.link.le.connInterval, p.firstTs, clk, d);
    AtLeast(Time(p.firstTs, clk) + d / 2, d, 37);
  }

  lemma AtLeast(a: nat, d: nat, n: nat)
    requires d > 0
    ensures a / d >= n <==> a >= n * d
  {
    var q := a / d;
    assert a == d * q + a % d;
    NotBelow(d, q - n);
    assert d * (q - n) == d * q - n * d;
  }

  lemma NotBelow(d: nat, e: int)
    ensures e >= 0 ==> d * e >= 0
    ensures e <= -1 ==> d * e <= 0 - d
  {}

  /** Where the search begins: on an even channel, unchecked, with nothing of the recovery left. */
  lemma SearchBegins(p: State, found: u32)
    requires 2402 <= p.link.channel <= 2480
    ensures var q := Sought(p, found);
            && q.callback == PromiscCb && !q.link.le.crcVerify && q.link.le.linkState == Listening
            && q.smallestHopInterval == 0xffff_ffff && q.consecIntervals == 0
            && q.link.channel % 2 == 0 && (p.link.channel % 2 == 0 ==> q.link.channel == p.link.channel)
            && (p.link.channel % 2 == 1 ==> q.link.channel == 2440)
            && q.link.le.accessAddress == (if p.link.le.targetSet then p.link.le.accessAddress else found)
            && (!p.link.le.targetSet ==> q.link.le.connInterval == 0 && !q.link.doHop)
  {}

  /** The host's commands in the mode: only the hop mode, only the check, or all over again without hopping. */
  lemma HostCommands(p: State, found: u32, verify: bool)
    requires !p.faulted
    ensures Next(p, Again) == p.(link := p.link.(hopMode := HopNone))
    ensures Next(p, Turn.Override(verify)) == p.(link := p.link.(le := p.link.le.(crcVerify := verify)))
    ensures Next(p, Restart(found)).link.hopMode == HopNone && Next(p, Restart(found)).callback == PromiscCb
  {}

  // ----- The firmware's form -----

  /** The two forms of the initial value that promisc_follow_cb stores. */
  method RecoverInit(crc: u32, data: seq<u8>) returns (crcInit: u32, reversed: u32)
    requires crc < 0x100_0000 && data == EMPTY_PDU
    ensures reversed == InitOf(crc) && crcInit == Turned(reversed)
  {
    ghost var init := InitOf(crc);
    assert Crc(init, data) == RegisterOf(crc);
    crcInit := ReverseCrc(crc, data);
    TurnedIsOnly(init, crcInit);
    reversed := Reverse24(crcInit);
    ReflectTwice(RegisterOf(init));
    RegisterInjective(reversed, init);
  }

  class Recovery {
    var link: Link
    var callback: Callback
    var firstTs: u32
    var prevClk: u32
    var smallestHopInterval: u32
    var consecIntervals: int
    var faulted: bool

    ghost function Now(): State
      reads this
    {
      State(link, callback, firstTs, prevClk, smallestHopInterval, consecIntervals, faulted)
    }

    /** A turn of the loop in bt_promisc_le, up to bt_le_sync. */
    method Seek(found: u32)
      modifies this
      ensures Now() == Sought(old(Now()), found)
    {
      smallestHopInterval := 0xffff_ffff;
      consecIntervals := 0;
      if link.channel % 2 == 1 {
        link := link.(channel := 2440);
      }
      if !link.le.targetSet {
        link := link.(le := ResetOf(link.le), doHop := false);
        link := link.(le := link.le.(accessAddress := found));
      }
      callback := PromiscCb;
      link := link.(le := link.le.(crcVerify := false));
      link := link.(le := link.le.(linkState := Listening));
    }

    method PromiscFollowCb(packet: seq<u8>)
      requires |packet| >= 40
      modifies this
      ensures Now() == TakeCrcInit(old(Now()), packet)
    {
      if !link.le.crcVerify && packet[4] == 1 && packet[5] == 0 {
        var crcInit, reversed := RecoverInit(WireCrc(packet), packet[4..6]);
        link := link.(le := link.le.(crcInit := crcInit, crcInitReversed := reversed));
        link := link.(le := link.le.(crcVerify := true));
        callback := IntervalCb;
      }
    }

    method PromiscRecoverHopInterval(clk100ns: u32)
      modifies this
      ensures Now() == TakeInterval(old(Now()), clk100ns)
    {
      var curClk := clk100ns;
      if curClk < prevClk {
        curClk := (curClk + 3267800000) % 0x1_0000_0000;
      }
      var clkDiff := (curClk - prevClk) % 0x1_0000_0000;
      if clkDiff < 2 * BASECLK {
        return;
      }
      if clkDiff < smallestHopInterval {
        smallestHopInterval := clkDiff;
      }
      var obsvHopInterval := DivideRound(smallestHopInterval, 37 * BASECLK) % 0x1_0000;
      if link.le.connInterval == obsvHopInterval {
        consecIntervals := consecIntervals + 1;
        if consecIntervals == 5 {
          callback := IncrementCb;
          link := link.(hopDirectChannel := 2404, hopMode := HopDirect, doHop := true);
        }
      } else {
        link := link.(le := link.le.(connInterval := obsvHopInterval));
        consecIntervals := 0;
      }
      prevClk := curClk;
    }

    method PromiscRecoverHopIncrement(clk100ns: u32)
      modifies this
      ensures Now() == TakeIncrement(old(Now()), clk100ns)
    {
      if link.channel == 2404 {
        firstTs := clk100ns;
        link := link.(hopDirectChannel := 2406, doHop := true);
      } else if link.channel == 2406 {
        var secondTs := clk100ns;
        if secondTs < firstTs {
          secondTs := (secondTs + 3276800000) % 0x1_0000_0000;
        }
        if link.le.connInterval == 0 {
          faulted := true;
          return;
        }
        var channelsHopped := DivideRound((secondTs - firstTs) % 0x1_0000_0000, link.le.connInterval * BASECLK);
        if channelsHopped < 37 {
          link := link.(le := link.le.(channelIncrement := HopIntervalLut(channelsHopped)));
          link := link.(le := link.le.(intervalTimer := link.le.connInterval / 2, connCount := 0, connEpoch := 0));
          link := link.(doHop := false);
          link := link.(le := link.le.(channelIdx := (1 + link.le.channelIncrement) % 37));
          link := link.(le := link.le.(linkState := Connected, crcVerify := false));
          link := link.(hopMode := HopBtle);
          callback := FollowCb;
          return;
        }
        link := link.(hopDirectChannel := 2404, doHop := true);
      } else {
        link := link.(hopDirectChannel := 2404, doHop := true);
      }
    }
  }
}
