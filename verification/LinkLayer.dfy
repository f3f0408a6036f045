/**
 Following a Low Energy connection: the timer interrupt, the packet callback, the
 hop and the flush step of the receive loop (firmware/bluetooth_rxtx/bluetooth_rxtx.c
 and bluetooth_le.c).  The methods of the class are the firmware's; the functions
 say what each does to the whole state.
*/
module LinkLayer {
  import opened Words
  import opened LeChannels
  import opened LeReceive
  import LinkFrame

  datatype HopMode = HopNone | HopSweep | HopBluetooth | HopBtle | HopDirect | HopAfh
  datatype LinkState = Inactive | Listening | ConnPending | Connected

  /** The struct le_state_t. */
  datatype LeState = LeState(
    accessAddress: u32, crcInit: u32, crcInitReversed: u32, crcVerify: bool,
    linkState: LinkState, channelIdx: u8, channelIncrement: u8,
    connEpoch: u32, intervalTimer: u16, connInterval: u16, connCount: u16,
    updatePending: bool, updateInstant: u16, intervalUpdate: u16,
    targetSet: bool, target: seq<u8>, lastPacket: u32)

  /** The struct and the globals the link layer shares with the interrupt. */
  datatype Link = Link(
    clkn: u32, clknOffset: u32, hopMode: HopMode, doHop: bool, lastHop: u32, hopTimeout: u16,
    channel: u16, savedRequest: u16, hopDirectChannel: u16, le: LeState)

  // ----- What each step does -----

  /** The clock after one more interrupt. */
  function NextClkn(s: Link): u32 {
    (s.clkn + s.clknOffset + 1) % 0x1_0000_0000
  }

  /** The interrupt falls on a 1.25 ms boundary of the connection. */
  predicate Anchor(s: Link) {
    (NextClkn(s) - s.le.connEpoch) % 0x1_0000_0000 % 4 == 0
  }

  /** The interrupt ends a connection interval. */
  predicate Raises(s: Link) {
    s.hopMode == HopBtle && s.le.linkState == Connected && Anchor(s) && s.le.intervalTimer == 1
  }

  /** The connection's own timer. */
  function TickLe(s: Link): LeState {
    if s.hopMode != HopBtle || s.le.linkState != Connected || !Anchor(s) then s.le
    else if s.le.intervalTimer == 1 then
      s.le.(connCount := (s.le.connCount + 1) % 0x1_0000, intervalTimer := s.le.connInterval)
    else s.le.(intervalTimer := (s.le.intervalTimer - 1) % 0x1_0000)
  }

  /** The interrupt asks for a hop. */
  predicate TickHops(s: Link) {
    match s.hopMode
    case HopNone => NextClkn(s) % 0x80 == 0
    case HopSweep => NextClkn(s) % 0x80 == 0
    case HopBluetooth => NextClkn(s) % 2 == 0
    case HopBtle => Raises(s)
    case HopAfh => (s.lastHop + s.hopTimeout) % 0x1_0000_0000 == NextClkn(s)
    case HopDirect => false
  }

  /** TIMER0_IRQHandler. */
  function Tick(s: Link): Link {
    s.(clkn := NextClkn(s), clknOffset := 0, doHop := s.doHop || TickHops(s), le := TickLe(s))
  }

  /** reset_le on the struct. */
  function ResetOf(le: LeState): LeState {
    LeState(0x8e89_bed6, 0x55_5555, 0xaa_aaaa, true, Inactive, 0, 0, 0, 0, 0, 0, false, 0, 0, le.targetSet, le.target, 0)
  }

  /** btle_next_hop: where the struct stands after a hop. */
  function Hopped(le: LeState): LeState {
    le.(channelIdx := (le.channelIdx + le.channelIncrement) % 37)
  }

  /** hop: the channel the sweep and basic-rate modes would pick is a parameter. */
  function Hop(s: Link, picked: u16): Link {
    var t := s.(doHop := false, lastHop := s.clkn);
    match s.hopMode
    case HopNone => t
    case HopBtle => t.(channel := IndexToPhys(s.le.channelIdx), le := Hopped(s.le))
    case HopDirect => t.(channel := s.hopDirectChannel)
    case _ => t.(channel := picked)
  }

  /** A stretch of the 100 ns clock, which starts again at 3276800000. */
  function Elapsed(from: u32, now: u32): u32 {
    ((if now < from then (now + 3276800000) % 0x1_0000_0000 else now) - from) % 0x1_0000_0000
  }

  /** The link has been silent for more than five seconds. */
  predicate TimedOut(s: Link, now: u32) {
    (s.le.linkState == Connected || s.le.linkState == ConnPending) && Elapsed(s.le.lastPacket, now) > 50000000
  }

  function TimeOut(s: Link): Link {
    s.(le := ResetOf(s.le).(linkState := Listening), doHop := false,
       channel := if s.savedRequest != 0 then s.savedRequest else 2402)
  }

  /** From rx_flush to the end of the receive loop, in the connection-following mode. */
  function Flush(s: Link, now: u32, picked: u16): Link {
    if TimedOut(s, now) then TimeOut(s) else if s.doHop then Hop(s, picked) else s
  }

  function Word16(low: u8, high: u8): u16 {
    low + 0x100 * high
  }

  /** The four bytes of an access address as a word: aa |= packet[18 + i] << (i * 8). */
  function AddressOf(b0: u8, b1: u8, b2: u8, b3: u8): u32 {
    b0 + 0x100 * b1 + 0x1_0000 * b2 + 0x100_0000 * b3
  }

  /** The address taken from a connect packet is sent and matched as the same four bytes. */
  lemma AddressRoundTrip(b0: u8, b1: u8, b2: u8, b3: u8)
    ensures LinkFrame.AddressBytes(AddressOf(b0, b1, b2, b3)) == [b0, b1, b2, b3]
  {
    var aa, bytes := AddressOf(b0, b1, b2, b3), [b0, b1, b2, b3];
    forall i | 0 <= i < 4 ensures LinkFrame.AddressBytes(aa)[i] == bytes[i] {
      forall k | 0 <= k < 8 ensures Bit(LinkFrame.AddressBytes(aa)[i], k) == Bit(bytes[i], k) {
        AddressBit(b0, b1, b2, b3, 8 * i + k);
      }
      LinkFrame.SameByte(LinkFrame.AddressBytes(aa)[i], bytes[i]);
    }
  }

  lemma AddressBit(b0: u8, b1: u8, b2: u8, b3: u8, m: nat)
    requires m < 32
    ensures Bit(AddressOf(b0, b1, b2, b3), m)
         == if m < 8 then Bit(b0, m) else if m < 16 then Bit(b1, m - 8)
            else if m < 24 then Bit(b2, m - 16) else Bit(b3, m - 24)
  {
    Pow2Values();
    var top := b2 + 0x100 * b3;
    var rest := b1 + 0x100 * top;
    AddLow(rest, b0, 8, m);
    if m >= 8 {
      AddLow(top, b1, 8, m - 8);
    }
    if m >= 16 {
      AddLow(b3, b2, 8, m - 16);
    }
    assert AddressOf(b0, b1, b2, b3) == rest * 0x100 + b0;
  }

  /** The target matches neither the initiator nor the advertiser of a connect packet. */
  predicate OffTarget(le: LeState, packet: seq<u8>)
    requires |packet| >= 40
  {
    le.targetSet && le.target != packet[6..12] && le.target != packet[12..18]
  }

  /** A pending parameter update takes effect with this packet. */
  predicate UpdateDue(le: LeState) {
    le.linkState == Connected && le.updatePending && le.connCount == le.updateInstant
  }

  /** A new connection, or new parameters, start their first interval at this clock. */
  function StartInterval(le: LeState, clkn: u32, interval: u16): LeState {
    le.(connEpoch := clkn, connInterval := interval, intervalTimer := (interval - 1) % 0x1_0000, updatePending := false)
  }

  function ApplyUpdate(le: LeState, clkn: u32): LeState {
    if UpdateDue(le) then StartInterval(le, clkn, le.intervalUpdate) else le
  }

  function NoteUpdate(le: LeState, packet: seq<u8>): LeState
    requires |packet| >= 40
  {
    if Low(packet[4], 2) != 3 || packet[6] != 0 then le
    else
      var instant := Word16(packet[16], packet[17]);
      le.(intervalUpdate := Word16(packet[10], packet[11]), updateInstant := instant,
          updatePending := le.updatePending || instant - le.connCount < 32767)
  }

  function ReverseWord(v: nat): (r: u32)
    ensures r == Rbit(v)
  {
    Pow2Values();
    ValueRange(seq(32, k requires 0 <= k < 32 => Bit(v, 31 - k)));
    Rbit(v)
  }

  /** The CRC initial value of a connect packet. */
  function CrcInitOf(packet: seq<u8>): (init: u32)
    requires |packet| >= 40
    ensures init < 0x100_0000
  {
    LittleEndianRange(packet[22], packet[23], packet[24]);
    LittleEndian(packet[22], packet[23], packet[24])
  }

  /** packet[CHANNEL_INC] & 0x1f. */
  function IncrementOf(packet: seq<u8>): (increment: u8)
    requires |packet| >= 40
    ensures increment < 32
  {
    Pow2Values();
    LowRange(packet[39], 5);
    assert Pow2(5) == 32;
    Low(packet[39], 5)
  }

  function Connect(le: LeState, packet: seq<u8>): LeState
    requires |packet| >= 40
  {
    le.(linkState := ConnPending, crcVerify := false,
        accessAddress := AddressOf(packet[18], packet[19], packet[20], packet[21]),
        crcInit := CrcInitOf(packet), crcInitReversed := ReverseWord(CrcInitOf(packet)),
        connInterval := packet[28], channelIncrement := IncrementOf(packet), channelIdx := IncrementOf(packet))
  }

  /** The packet makes a listening follower wait for the connection. */
  predicate Connects(le: LeState, packet: seq<u8>)
    requires |packet| >= 40
  {
    le.linkState == Listening && Low(packet[4], 4) == 5 && !OffTarget(le, packet)
  }

  /** connection_follow_cb. */
  function FollowCallback(s: Link, packet: seq<u8>): Link
    requires |packet| >= 40
  {
    if s.le.linkState == ConnPending then
      s.(le := StartInterval(s.le, s.clkn, s.le.connInterval).(linkState := Connected, connCount := 0))
    else if s.le.linkState == Connected then s.(le := NoteUpdate(ApplyUpdate(s.le, s.clkn), packet))
    else if Connects(s.le, packet) then s.(le := Connect(s.le, packet), doHop := true)
    else s
  }

  // ----- Which bytes of a packet say what -----

  lemma LowPlaces(b: u8)
    ensures Low(b, 2) == b % 4 && Low(b, 4) == b % 16 && Low(b, 5) == b % 32
  {
    LowIsRest(b, 2);
    LowIsRest(b, 4);
    LowIsRest(b, 5);
    assert Pow2(2) == 4 && Pow2(4) == 16 && Pow2(5) == 32;
  }

  /**
   A listening follower takes a connect request exactly when its type is 5 and no target
   is set or the target is the initiator at byte 6 or the advertiser at byte 12; and
   these are the bytes it takes the connection from.
  */
  lemma ConnectRequest(s: Link, packet: seq<u8>)
    requires |packet| >= 40 && s.le.linkState == Listening
    ensures var u := FollowCallback(s, packet);
            if packet[4] % 16 == 5 && (!s.le.targetSet || s.le.target == packet[6..12] || s.le.target == packet[12..18]) then
              && u.doHop && u.le.linkState == ConnPending && !u.le.crcVerify
              && LinkFrame.AddressBytes(u.le.accessAddress) == packet[18..22]
              && (forall k :: 0 <= k < 24 ==> Bit(u.le.crcInit, k) == DataBits(packet[22..25])[k]) && u.le.crcInit < 0x100_0000
              && (forall k :: 0 <= k < 32 ==> Bit(u.le.crcInitReversed, k) == Bit(u.le.crcInit, 31 - k))
              && u.le.connInterval == packet[28]
              && u.le.channelIncrement == u.le.channelIdx == packet[39] % 32
            else u == s
  {
    LowPlaces(packet[4]);
    LowPlaces(packet[39]);
    AddressRoundTrip(packet[18], packet[19], packet[20], packet[21]);
    assert packet[18..22] == [packet[18], packet[19], packet[20], packet[21]];
    InitBytes(packet);
    forall k | 0 <= k < 32 ensures Bit(ReverseWord(CrcInitOf(packet)), k) == Bit(CrcInitOf(packet), 31 - k) {
      RbitBit(CrcInitOf(packet), k);
    }
  }

  /** The CRC initial value is sent as bytes 22 to 24, lowest bit first. */
  lemma InitBytes(packet: seq<u8>)
    requires |packet| >= 40
    ensures forall k :: 0 <= k < 24 ==> Bit(CrcInitOf(packet), k) == DataBits(packet[22..25])[k]
  {
    forall k | 0 <= k < 24 ensures Bit(CrcInitOf(packet), k) == DataBits(packet[22..25])[k] {
      LittleEndianBit(packet[22], packet[23], packet[24], k);
      DataBitAt(packet[22..25], k / 8, k % 8);
      assert 8 * (k / 8) + k % 8 == k;
    }
  }

  /**
   A connected follower first starts the interval of an update whose instant has come, and
   then notes the update in a control PDU of opcode 0, with the interval at bytes 10 and
   11 and the instant at bytes 16 and 17, to take effect unless the instant is too far
   ahead.
  */
  lemma UpdateRequest(s: Link, packet: seq<u8>)
    requires |packet| >= 40 && s.le.linkState == Connected
    ensures var le := if s.le.updatePending && s.le.connCount == s.le.updateInstant then
                        s.le.(connEpoch := s.clkn, connInterval := s.le.intervalUpdate, updatePending := false,
                              intervalTimer := if s.le.intervalUpdate == 0 then 65535 else s.le.intervalUpdate - 1)
                      else s.le;
            var interval, instant := packet[10] as nat + 256 * packet[11] as nat, packet[16] as nat + 256 * packet[17] as nat;
            FollowCallback(s, packet) == s.(le :=
              if packet[4] % 4 == 3 && packet[6] == 0 then
                le.(intervalUpdate := interval, updateInstant := instant,
                    updatePending := le.updatePending || instant < le.connCount + 32767)
              else le)
  {
    LowPlaces(packet[4]);
  }

  /** The first packet behind a connect request makes the connection, with nothing pending and its first interval begun. */
  lemma FirstPacket(s: Link, packet: seq<u8>)
    requires |packet| >= 40 && s.le.linkState == ConnPending
    ensures FollowCallback(s, packet) == s.(le := s.le.(
              linkState := Connected, connEpoch := s.clkn, connCount := 0, updatePending := false,
              intervalTimer := if s.le.connInterval == 0 then 65535 else s.le.connInterval - 1))
  {}

  // ----- Silence -----

  /** The 100 ns clock starts again here. */
  const ROLLOVER: nat := 3276800000

  /** The stretch of time between two readings, with at most one rollover of the clock between them. */
  function Time(first: u32, second: u32): nat {
    (second - first) % ROLLOVER
  }

  lemma ElapsedIsTime(first: u32, second: u32)
    requires first < ROLLOVER && second < ROLLOVER
    ensures Elapsed(first, second) == Time(first, second) < ROLLOVER
  {}

  /**
   A link is given up exactly when a connection is awaited or going on and the last packet
   is more than five seconds back, across a rollover of the clock; the follower then
   listens on the advertising channel it began on.  Otherwise a hop that waits is made.
  */
  lemma GivenUp(s: Link, now: u32, picked: u16)
    requires s.le.lastPacket < 3276800000 && now < 3276800000
    ensures var u := Flush(s, now, picked);
            var up := s.le.linkState == ConnPending || s.le.linkState == Connected;
            if up && (now - s.le.lastPacket) % 3276800000 > 5 * 10000000 then
              u == s.(doHop := false, channel := if s.savedRequest == 0 then 2402 else s.savedRequest,
                      le := LeState(0x8e89bed6, 0x55_5555, 0xaa_aaaa, true, Listening, 0, 0, 0, 0, 0, 0, false, 0, 0,
                                    s.le.targetSet, s.le.target, 0))
            else if s.doHop then
              && !u.doHop && u.lastHop == s.clkn && u.clkn == s.clkn && u.hopMode == s.hopMode
              && u.le == s.le.(channelIdx := if s.hopMode == HopBtle then (s.le.channelIdx + s.le.channelIncrement) % 37
                                             else s.le.channelIdx)
              && u.channel == (match s.hopMode
                               case HopNone => s.channel
                               case HopBtle => IndexToPhys(s.le.channelIdx)
                               case HopDirect => s.hopDirectChannel
                               case _ => picked)
            else u == s
  {
    ElapsedIsTime(s.le.lastPacket, now);
  }

  // ----- The firmware's form -----

  class Firmware {
    var clkn: u32
    var clknOffset: u32
    var hopMode: HopMode
    var doHop: bool
    var lastHop: u32
    var hopTimeout: u16
    var channel: u16
    var savedRequest: u16
    var hopDirectChannel: u16
    var le: LeState

    ghost function State(): Link
      reads this
    {
      Link(clkn, clknOffset, hopMode, doHop, lastHop, hopTimeout, channel, savedRequest, hopDirectChannel, le)
    }

    method TimerInterrupt()
      modifies this
      ensures State() == Tick(old(State()))
    {
      clkn := (clkn + clknOffset + 1) % 0x1_0000_0000;
      clknOffset := 0;
      var leClk := (clkn - le.connEpoch) % 0x1_0000_0000 % 4;
      if hopMode == HopNone || hopMode == HopSweep {
        if clkn % 0x80 == 0 {
          doHop := true;
        }
      } else if hopMode == HopBluetooth {
        if clkn % 2 == 0 {
          doHop := true;
        }
      } else if hopMode == HopBtle {
        if le.linkState == Connected && leClk == 0 {
          le := le.(intervalTimer := (le.intervalTimer - 1) % 0x1_0000);
          if le.intervalTimer == 0 {
            doHop := true;
            le := le.(connCount := (le.connCount + 1) % 0x1_0000);
            le := le.(intervalTimer := le.connInterval);
          }
        }
      } else if hopMode == HopAfh {
        if (lastHop + hopTimeout) % 0x1_0000_0000 == clkn {
          doHop := true;
        }
      }
    }

    method ResetLe()
      modifies `le, `doHop
      ensures le == ResetOf(old(le)) && !doHop
    {
      le := le.(accessAddress := 0x8e89_bed6, crcInit := 0x55_5555, crcInitReversed := 0xaa_aaaa, crcVerify := true);
      le := le.(lastPacket := 0, linkState := Inactive);
      le := le.(channelIdx := 0, channelIncrement := 0);
      le := le.(connEpoch := 0, intervalTimer := 0, connInterval := 0, connCount := 0);
      le := le.(updatePending := false, updateInstant := 0, intervalUpdate := 0);
      doHop := false;
    }

    method BtleNextHop() returns (phys: u16)
      modifies `le
      ensures phys == IndexToPhys(old(le.channelIdx)) && le == Hopped(old(le))
    {
      phys := IndexToPhys(le.channelIdx);
      le := le.(channelIdx := (le.channelIdx + le.channelIncrement) % 37);
    }

    method DoHop(picked: u16)
      modifies this
      ensures State() == Hop(old(State()), picked)
    {
      doHop := false;
      lastHop := clkn;
      if hopMode == HopNone {
        return;
      } else if hopMode == HopBtle {
        var phys := BtleNextHop();
        channel := phys;
      } else if hopMode == HopDirect {
        channel := hopDirectChannel;
      } else {
        channel := picked;
      }
    }

    method RxFlush(clk100ns: u32, picked: u16)
      modifies this
      ensures State() == Flush(old(State()), clk100ns, picked)
    {
      var now := clk100ns;
      if now < le.lastPacket {
        now := (now + 3276800000) % 0x1_0000_0000;
      }
      if (le.linkState == Connected || le.linkState == ConnPending) && (now - le.lastPacket) % 0x1_0000_0000 > 50000000 {
        ResetLe();
        le := le.(linkState := Listening);
        channel := if savedRequest != 0 then savedRequest else 2402;
      }
      if doHop {
        DoHop(picked);
      }
    }

    method ConnectionFollowCb(packet: seq<u8>)
      requires |packet| >= 40
      modifies this
      ensures State() == FollowCallback(old(State()), packet)
    {
      if le.linkState == ConnPending {
        le := le.(linkState := Connected, connEpoch := clkn);
        le := le.(intervalTimer := (le.connInterval - 1) % 0x1_0000, connCount := 0, updatePending := false);
      } else if le.linkState == Connected {
        var llid := Low(packet[4], 2);
        if le.updatePending && le.connCount == le.updateInstant {
          le := le.(connEpoch := clkn, connInterval := le.intervalUpdate);
          le := le.(intervalTimer := (le.intervalUpdate - 1) % 0x1_0000, updatePending := false);
        }
        if llid == 3 && packet[6] == 0 {
          le := le.(intervalUpdate := Word16(packet[10], packet[11]), updateInstant := Word16(packet[16], packet[17]));
          if le.updateInstant - le.connCount < 32767 {
            le := le.(updatePending := true);
          }
        }
      } else if le.linkState == Listening {
        var pktType := Low(packet[4], 4);
        if pktType == 5 {
          if le.targetSet && le.target != packet[6..12] && le.target != packet[12..18] {
            return;
          }
          le := le.(linkState := ConnPending, crcVerify := false);
          le := le.(accessAddress := AddressOf(packet[18], packet[19], packet[20], packet[21]));
          le := le.(crcInit := CrcInitOf(packet));
          le := le.(crcInitReversed := ReverseWord(le.crcInit));
          le := le.(connInterval := packet[28]);
          le := le.(channelIncrement := IncrementOf(packet));
          le := le.(channelIdx := le.channelIncrement);
          doHop := true;
        }
      }
    }
  }
}
