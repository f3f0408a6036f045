/**
 When the CRC is checked, and against what: the two forms of the initial value over whole
 runs of the connection-following mode, with the host switching the check on and off
 (firmware/bluetooth_rxtx/bluetooth_rxtx.c, reset_le, connection_follow_cb and
 UBERTOOTH_SET_CRC_VERIFY).
*/
module CrcCheck {
  import opened Words
  import opened Crc24
  import opened LeReceive
  import opened LinkLayer
  import opened FollowRun

  /** A word of 24 bits the other way round. */
  function Turned(s: nat): (t: u32)
    ensures t < 0x100_0000 && RegisterOf(t) == Reflect(RegisterOf(s))
  {
    var bits := seq(24, k requires 0 <= k < 24 => Bit(s, 23 - k));
    TurnedBits(s, bits);
    Value(bits)
  }

  lemma TurnedBits(s: nat, bits: seq<bool>)
    requires |bits| == 24 && forall k :: 0 <= k < 24 ==> bits[k] == Bit(s, 23 - k)
    ensures Value(bits) < 0x100_0000 && RegisterOf(Value(bits)) == Reflect(RegisterOf(s))
  {
    ValueRange24(bits);
    forall p | 0 <= p < 24 ensures RegisterOf(Value(bits))[p] == Reflect(RegisterOf(s))[p] {
      BitValue(bits, 23 - p);
    }
  }

  /** The two stored forms of the initial value are 24-bit reversals of each other. */
  predicate PairSound(le: LeState) {
    && le.crcInit < 0x100_0000 && le.crcInitReversed < 0x100_0000
    && RegisterOf(le.crcInitReversed) == Reflect(RegisterOf(le.crcInit))
  }

  /** Where the CRC is checked, the reversed initial value is the reversal of the initial value. */
  predicate Checked(le: LeState) {
    le.crcVerify ==> PairSound(le)
  }

  // ----- The pairs that are stored -----

  lemma AdvertisingInitSound(le: LeState)
    ensures PairSound(ResetOf(le))
  {
    forall p | 0 <= p < 24 ensures RegisterOf(0xaa_aaaa)[p] == Reflect(RegisterOf(0x55_5555))[p] {
      AlternatingBits(p);
    }
  }

  lemma AlternatingBits(p: nat)
    requires p < 24
    ensures Bit(0xaa_aaaa, 23 - p) == Bit(0x55_5555, p)
  {
    Pow2Values();
    AlternatingBit(0x55_5555, 12, p);
    if p < 23 {
      AlternatingBit(0x55_5555, 12, 22 - p);
      assert 0xaa_aaaa / 2 == 0x55_5555;
    }
  }

  /** The words 0b0101...01 of n ones. */
  lemma {:induction false} AlternatingBit(s: nat, n: nat, k: nat)
    requires 3 * s + 1 == Pow2(2 * n)
    ensures Bit(s, k) == (k < 2 * n && k % 2 == 0)
    decreases n
  {
    if n == 0 {
      BitZero(k);
    } else {
      assert Pow2(2 * n) == 4 * Pow2(2 * (n - 1));
      LastTwoBits(s, Pow2(2 * (n - 1)));
      if k >= 2 {
        AlternatingBit(s / 2 / 2, n - 1, k - 2);
      }
    }
  }

  lemma LastTwoBits(s: nat, p: nat)
    requires 3 * s + 1 == 4 * p
    ensures s % 2 == 1 && s / 2 % 2 == 0 && 3 * (s / 2 / 2) + 1 == p
  {}

  lemma SameBitsApart(init: nat, k: nat, n: nat)
    requires init < 0x100_0000 && forall i :: 0 <= i < 24 ==> Bit(init, i) == Bit(init, i + 8)
    requires k + 8 * n >= 24
    ensures !Bit(init, k)
    decreases n
  {
    if k >= 24 {
      Word24HighClear(init, k);
    } else {
      SameBitsApart(init, k + 8, n - 1);
    }
  }

  /** The 32-bit reversal stored for a connect packet is the 24-bit one only for the initial value zero. */
  lemma ConnectPairExactly(init: nat)
    requires init < 0x100_0000
    ensures RegisterOf(Rbit(init)) == Reflect(RegisterOf(init)) <==> init == 0
  {
    forall p | 0 <= p < 24
      ensures RegisterOf(Rbit(init))[p] == Bit(init, p + 8) && Reflect(RegisterOf(init))[p] == Bit(init, p)
    {
      RbitBit(init, 23 - p);
    }
    if RegisterOf(Rbit(init)) == Reflect(RegisterOf(init)) {
      forall i | 0 <= i < 24 ensures Bit(init, i) == Bit(init, i + 8) {
        assert RegisterOf(Rbit(init))[i] == Reflect(RegisterOf(init))[i];
      }
      forall p | 0 <= p < 24 ensures RegisterOf(init)[p] == RegisterOf(0)[p] {
        SameBitsApart(init, 23 - p, 3);
        BitZero(23 - p);
      }
      RegisterInjective(init, 0);
    }
    if init == 0 {
      forall p | 0 <= p < 24 ensures RegisterOf(Rbit(init))[p] == Reflect(RegisterOf(init))[p] {
        BitZero(p);
        BitZero(p + 8);
      }
    }
  }

  /** The pair stored for a connect packet agrees exactly for that value. */
  lemma ConnectedPair(le: LeState)
    requires le.crcInit < 0x100_0000 && le.crcInitReversed == Rbit(le.crcInit)
    ensures PairSound(le) <==> le.crcInit == 0
  {
    ConnectPairExactly(le.crcInit);
    if le.crcInit == 0 {
      RbitOfZero();
    }
  }

  lemma RbitOfZero()
    ensures Rbit(0) == 0
  {
    Pow2Values();
    ValueRange(seq(32, k requires 0 <= k < 32 => Bit(0, 31 - k)));
    forall m | 0 <= m < 32 ensures Bit(Rbit(0), m) == Bit(0, m) {
      RbitBit(0, m);
      BitZero(m);
      BitZero(31 - m);
    }
    SameBits(Rbit(0), 0, 32);
  }

  // ----- Runs of the connection-following mode -----

  /** The mode is entered: bt_follow_le up to the receive loop of bt_le_sync. */
  function Entered(s: Link): Link {
    s.(le := ResetOf(s.le).(linkState := Listening), doHop := false)
  }

  /** What a packet makes of the pair, of the check and of the state of the link. */
  lemma PacketStores(s: Link, packet: seq<u8>)
    requires |packet| >= 40
    ensures var le := FollowCallback(s, packet).le;
            if Connects(s.le, packet) then
              && !le.crcVerify && le.linkState == ConnPending
              && le.crcInit == CrcInitOf(packet) && le.crcInitReversed == Rbit(le.crcInit)
            else
              && le.crcVerify == s.le.crcVerify && le.crcInit == s.le.crcInit && le.crcInitReversed == s.le.crcInitReversed
              && le.linkState == if s.le.linkState == ConnPending then Connected else s.le.linkState
  {}

  /** Interrupts, packets and flushes keep the pair sound wherever the CRC is checked, from any state on. */
  lemma EventChecked(h: History, e: Event)
    requires Checked(h.s.le) && (e.Received? ==> |e.packet| >= 40)
    ensures Checked(After(h, e).s.le)
  {
    match e {
      case Interrupt =>
      case Received(packet, clk100ns) => PacketStores(h.s, packet);
      case Flushed(clk100ns) => AdvertisingInitSound(h.s.le);
    }
  }

  lemma {:induction false} FollowChecked(h: History, events: seq<Event>)
    requires Checked(h.s.le) && Legal(events)
    ensures Checked(Follow(h, events).s.le)
    decreases |events|
  {
    if events != [] {
      assert Legal(events[1..]);
      EventChecked(h, events[0]);
      FollowChecked(After(h, events[0]), events[1..]);
    }
  }

  /** So in every state of the mode that has the CRC checked the pair is sound. */
  lemma FollowSound(s: Link, events: seq<Event>)
    requires Legal(events)
    ensures Checked(Follow(Fresh(Entered(s)), events).s.le)
  {
    AdvertisingInitSound(s.le);
    FollowChecked(Fresh(Entered(s)), events);
  }

  /** A step of a run in which the host switches the check on or off at any time. */
  datatype Step = Happens(event: Event) | Override(verify: bool)

  predicate Legally(x: Step) {
    x.Happens? && x.event.Received? ==> |x.event.packet| >= 40
  }

  function Stepped(h: History, x: Step): History
    requires Legally(x)
  {
    match x
    case Happens(event) => After(h, event)
    case Override(verify) => h.(s := h.s.(le := h.s.le.(crcVerify := verify)))
  }

  function Steps(h: History, xs: seq<Step>): History
    requires forall x :: x in xs ==> Legally(x)
    decreases |xs|
  {
    if xs == [] then h else Steps(Stepped(h, xs[0]), xs[1..])
  }

  /** The pair in store: the advertising one until a connect packet, then the one made for that packet. */
  predicate PairInStore(h: History) {
    var le := h.s.le;
    le.crcInit < 0x100_0000 && if Joined(h) then le.crcInitReversed == Rbit(le.crcInit) else PairSound(le)
  }

  lemma StepInStore(h: History, x: Step)
    requires PairInStore(h) && Legally(x)
    ensures PairInStore(Stepped(h, x))
  {
    if x.Happens? {
      EventInStore(h, x.event);
    }
  }

  lemma EventInStore(h: History, e: Event)
    requires PairInStore(h) && (e.Received? ==> |e.packet| >= 40)
    ensures PairInStore(After(h, e))
  {
    match e {
      case Interrupt =>
      case Received(packet, clk100ns) => PacketStores(h.s, packet);
      case Flushed(clk100ns) => AdvertisingInitSound(h.s.le);
    }
  }

  lemma {:induction false} StepsInStore(h: History, xs: seq<Step>)
    requires PairInStore(h) && forall x :: x in xs ==> Legally(x)
    ensures PairInStore(Steps(h, xs))
    decreases |xs|
  {
    if xs != [] {
      StepInStore(h, xs[0]);
      StepsInStore(Stepped(h, xs[0]), xs[1..]);
    }
  }

  /**
   In every state of the mode the pair is sound exactly when no connection has been
   joined, or its initial value is zero; so the state is a bad one exactly when the host
   has switched the check on for any other connection.
  */
  lemma PairExactly(s: Link, xs: seq<Step>)
    requires forall x :: x in xs ==> Legally(x)
    ensures var h := Steps(Fresh(Entered(s)), xs);
            && (PairSound(h.s.le) <==> !Joined(h) || h.s.le.crcInit == 0)
            && (Checked(h.s.le) <==> !(h.s.le.crcVerify && Joined(h) && h.s.le.crcInit != 0))
  {
    AdvertisingInitSound(s.le);
    StepsInStore(Fresh(Entered(s)), xs);
    var h := Steps(Fresh(Entered(s)), xs);
    if Joined(h) {
      ConnectedPair(h.s.le);
    }
  }

  /**
   And in every state in which a connection is followed, whenever the host has switched
   the check on or off: a PDU with the right CRC passes the receiver exactly when the CRC
   is not checked or the connection's initial value is zero.
  */
  lemma OverrideAfterConnect(s: Link, xs: seq<Step>, pdu: seq<u8>)
    requires (forall x :: x in xs ==> Legally(x)) && Joined(Steps(Fresh(Entered(s)), xs))
    requires |pdu| == 44 && Length(pdu) <= 39
    requires CrcGood(Turned(Steps(Fresh(Entered(s)), xs).s.le.crcInit), pdu)
    ensures var le := Steps(Fresh(Entered(s)), xs).s.le;
            Accepts(le.crcVerify, le.crcInitReversed, pdu) <==> !le.crcVerify || le.crcInit == 0
  {
    AdvertisingInitSound(s.le);
    StepsInStore(Fresh(Entered(s)), xs);
    RightCrcPasses(Steps(Fresh(Entered(s)), xs).s.le.crcInit, pdu);
  }

  lemma RightCrcPasses(init: nat, pdu: seq<u8>)
    requires init < 0x100_0000 && |pdu| == 44 && Length(pdu) <= 39 && CrcGood(Turned(init), pdu)
    ensures CrcGood(Rbit(init), pdu) <==> init == 0
  {
    ConnectPairExactly(init);
    var a, b := RegisterOf(Turned(init)), RegisterOf(Rbit(init));
    if a != b {
      RunKeepsApart(a, b, DataBits(pdu[..Length(pdu)]));
    }
  }

  /** No flush of the run finds the link silent for too long. */
  predicate Alive(h: History, xs: seq<Step>)
    requires forall x :: x in xs ==> Legally(x)
    decreases |xs|
  {
    xs != [] ==>
      (xs[0].Happens? && xs[0].event.Flushed? ==> !TimedOut(h.s, xs[0].event.clk100ns))
      && Alive(Stepped(h, xs[0]), xs[1..])
  }

  lemma StepKeepsInit(h: History, x: Step)
    requires Joined(h) && Legally(x) && (x.Happens? && x.event.Flushed? ==> !TimedOut(h.s, x.event.clk100ns))
    ensures Joined(Stepped(h, x)) && Stepped(h, x).s.le.crcInit == h.s.le.crcInit
  {
    if x.Happens? && x.event.Received? {
      PacketStores(h.s, x.event.packet);
    }
  }

  lemma {:induction false} StepsKeepInit(h: History, xs: seq<Step>)
    requires Joined(h) && (forall x :: x in xs ==> Legally(x)) && Alive(h, xs)
    ensures Joined(Steps(h, xs)) && Steps(h, xs).s.le.crcInit == h.s.le.crcInit
    decreases |xs|
  {
    if xs != [] {
      StepKeepsInit(h, xs[0]);
      StepsKeepInit(Stepped(h, xs[0]), xs[1..]);
    }
  }

  /** The initial value in store stays that of the connect packet, its bytes 22 to 24, for as long as the connection lasts. */
  lemma InitOfConnection(h: History, connect: seq<u8>, clk100ns: u32, xs: seq<Step>)
    requires |connect| >= 40 && Connects(h.s.le, connect) && forall x :: x in xs ==> Legally(x)
    requires Alive(After(h, Received(connect, clk100ns)), xs)
    ensures var g := Steps(After(h, Received(connect, clk100ns)), xs);
            && Joined(g) && g.s.le.crcInit < 0x100_0000
            && forall k :: 0 <= k < 24 ==> Bit(g.s.le.crcInit, k) == DataBits(connect[22..25])[k]
  {
    InitBytes(connect);
    StepsKeepInit(After(h, Received(connect, clk100ns)), xs);
  }
}
