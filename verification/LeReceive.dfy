/**
 The receiver of link-layer packets that de-whitens a 32-bit word at a time: bt_le_sync
 in firmware/bluetooth_rxtx/bluetooth_rxtx.c.
*/
module LeReceive {
  import opened Words
  import opened Crc24
  import opened CrcTable
  import opened LeChannels
  import opened Whitening
  import opened LinkFrame

  // ----- bt_le_sync: a word at a time -----

  /** Four bytes as a big-endian word: the expression b0 << 24 | b1 << 16 | b2 << 8 | b3. */
  function BigEndian(b0: u8, b1: u8, b2: u8, b3: u8): nat {
    Or(Or(Or(b0 * 0x100_0000, b1 * 0x1_0000), b2 * 0x100), b3)
  }

  /** The instruction rbit: the 32 bits of a word in the opposite order. */
  function Rbit(v: nat): nat {
    Value(seq(32, k requires 0 <= k < 32 => Bit(v, 31 - k)))
  }

  lemma ShiftedByteBit(b: u8, n: nat, p: nat, k: nat)
    requires p == Pow2(n)
    ensures Bit(b * p, k) == (n <= k < n + 8 && Bit(b, k - n))
  {
    BitShl(b, n, k);
    if k >= n + 8 {
      ByteHighClear(b, k - n);
    }
  }

  lemma BigEndianBit(b0: u8, b1: u8, b2: u8, b3: u8, m: nat)
    requires m < 32
    ensures Bit(BigEndian(b0, b1, b2, b3), m)
         == if m < 8 then Bit(b3, m) else if m < 16 then Bit(b2, m - 8)
            else if m < 24 then Bit(b1, m - 16) else Bit(b0, m - 24)
  {
    var w0, w1, w2 := b0 * 0x100_0000, b1 * 0x1_0000, b2 * 0x100;
    BitOr(Or(Or(w0, w1), w2), b3, m);
    BitOr(Or(w0, w1), w2, m);
    BitOr(w0, w1, m);
    Pow2Values();
    ShiftedByteBit(b0, 24, 0x100_0000, m);
    ShiftedByteBit(b1, 16, 0x1_0000, m);
    ShiftedByteBit(b2, 8, 0x100, m);
    if m >= 8 {
      ByteHighClear(b3, m);
    }
  }

  /** Byte b of four, in the order they came in. */
  function Pick(b0: u8, b1: u8, b2: u8, b3: u8, b: nat): u8 {
    match b case 0 => b0 case 1 => b1 case 2 => b2 case _ => b3
  }

  lemma ReversedWordBit(b0: u8, b1: u8, b2: u8, b3: u8, b: nat, k: nat)
    requires b < 4 && k < 8
    ensures Bit(Rbit(BigEndian(b0, b1, b2, b3)), 8 * b + k) == Bit(Pick(b0, b1, b2, b3, b), 7 - k)
  {
    RbitBit(BigEndian(b0, b1, b2, b3), 8 * b + k);
    BigEndianBit(b0, b1, b2, b3, 31 - (8 * b + k));
  }

  /** The words whiten as the sequence does. */
  ghost predicate WhitenAs(whit: seq<nat>, white: nat -> bool) {
    |whit| == 12 && forall w, k :: 0 <= w < 12 && 0 <= k < 32 ==> Bit(whit[w], k) == white(32 * w + k)
  }

  /** Word w + 1 of the packet: rbit(v) ^ whit[w], with v from the four bytes of word w. */
  function PlainWord(air: seq<u8>, whit: seq<nat>, w: nat): nat
    requires |whit| == 12 && w < 11 && |air| >= 44
  {
    Xor(Rbit(BigEndian(air[4 * w], air[4 * w + 1], air[4 * w + 2], air[4 * w + 3])), whit[w])
  }

  function LowByte(s: nat): (b: u8)
    ensures b == Low(s, 8)
  {
    LowByteRange(s);
    Low(s, 8)
  }

  /** The bytes of the packet as the processor sees its words: least significant byte first. */
  function BytesOf(words: seq<nat>): (bytes: seq<u8>)
    ensures |bytes| == 4 * |words|
  {
    seq(4 * |words|, i requires 0 <= i < 4 * |words| => LowByte(Shr(words[i / 4], 8 * (i % 4))))
  }

  lemma RbitBit(v: nat, m: nat)
    requires m < 32
    ensures Bit(Rbit(v), m) == Bit(v, 31 - m)
  {
    BitValue(seq(32, k requires 0 <= k < 32 => Bit(v, 31 - k)), m);
  }

  lemma PlainWordBit(air: seq<u8>, whit: seq<nat>, white: nat -> bool, w: nat, b: nat, k: nat)
    requires WhitenAs(whit, white) && w < 11 && |air| >= 44 && b < 4 && k < 8
    ensures Bit(PlainWord(air, whit, w), 8 * b + k) == (Bit(air[4 * w + b], 7 - k) != white(8 * (4 * w + b) + k))
  {
    var b0, b1, b2, b3 := air[4 * w], air[4 * w + 1], air[4 * w + 2], air[4 * w + 3];
    assert Pick(b0, b1, b2, b3, b) == air[4 * w + b];
    WhitenedWordBit(Rbit(BigEndian(b0, b1, b2, b3)), whit[w], white, w, b, k);
    ReversedWordBit(b0, b1, b2, b3, b, k);
  }

  lemma WhitenedWordBit(v: nat, whit: nat, white: nat -> bool, w: nat, b: nat, k: nat)
    requires b < 4 && k < 8
    requires forall k :: 0 <= k < 32 ==> Bit(whit, k) == white(32 * w + k)
    ensures Bit(Xor(v, whit), 8 * b + k) == (Bit(v, 8 * b + k) != white(8 * (4 * w + b) + k))
  {
    BitXor(v, whit, 8 * b + k);
    assert Bit(whit, 8 * b + k) == white(32 * w + (8 * b + k));
    assert 32 * w + (8 * b + k) == 8 * (4 * w + b) + k;
  }

  lemma ByteOfWordBit(word: nat, b: nat, k: nat)
    requires k < 8
    ensures Bit(Low(Shr(word, 8 * b), 8), k) == Bit(word, 8 * b + k)
  {
    BitLow(Shr(word, 8 * b), 8, k);
    BitShr(word, 8 * b, k);
  }

  lemma PlainWordByteBit(word: nat, a: u8, white: nat -> bool, i: nat, b: nat, k: nat)
    requires k < 8 && Bit(word, 8 * b + k) == (Bit(a, 7 - k) != white(8 * i + k))
    ensures Bit(Low(Shr(word, 8 * b), 8), k) == Bit(Plain(a, white, i), k)
  {
    ByteOfWordBit(word, b, k);
  }

  /** De-whitening a word at a time gives the bytes that de-whitening bit by bit gives. */
  lemma PlainWordIsPlainBytes(air: seq<u8>, whit: seq<nat>, white: nat -> bool, w: nat, b: nat)
    requires WhitenAs(whit, white) && w < 11 && |air| >= 44 && b < 4
    ensures Low(Shr(PlainWord(air, whit, w), 8 * b), 8) == Plain(air[4 * w + b], white, 4 * w + b)
  {
    var byte, plain := Low(Shr(PlainWord(air, whit, w), 8 * b), 8), Plain(air[4 * w + b], white, 4 * w + b);
    LowByteRange(Shr(PlainWord(air, whit, w), 8 * b));
    forall k | 0 <= k < 8 ensures Bit(byte, k) == Bit(plain, k) {
      PlainWordBit(air, whit, white, w, b, k);
      PlainWordByteBit(PlainWord(air, whit, w), air[4 * w + b], white, 4 * w + b, b, k);
    }
    SameByte(byte, plain);
  }

  lemma LowByteRange(s: nat)
    ensures Low(s, 8) < 0x100
  {
    Pow2Values();
    LowRange(s, 8);
  }

  lemma WordsWhiten(channel: nat)
    requires channel < 40
    ensures WhitenAs(WordRow(channel), WhiteningOf(channel))
  {
    var row, white := WordRow(channel), WhiteningOf(channel);
    forall w, k | 0 <= w < 12 && 0 <= k < 32 ensures Bit(row[w], k) == white(32 * w + k) {
      WordBit(channel, w, k);
    }
  }

  // ----- The CRC check -----

  /** The length of the link-layer PDU: header, length byte and payload. */
  function Length(pdu: seq<u8>): nat
    requires |pdu| >= 2
  {
    Low(pdu[1], 6) + 2
  }

  /** Three bytes as a word, least significant first: the expression b2 << 16 | b1 << 8 | b0. */
  function LittleEndian(b0: u8, b1: u8, b2: u8): nat {
    Or(Or(b2 * 0x1_0000, b1 * 0x100), b0)
  }

  lemma LittleEndianBit(b0: u8, b1: u8, b2: u8, k: nat)
    ensures Bit(LittleEndian(b0, b1, b2), k)
         == if k < 8 then Bit(b0, k) else if k < 16 then Bit(b1, k - 8) else k < 24 && Bit(b2, k - 16)
  {
    BitOr(Or(b2 * 0x1_0000, b1 * 0x100), b0, k);
    BitOr(b2 * 0x1_0000, b1 * 0x100, k);
    Pow2Values();
    ShiftedByteBit(b2, 16, 0x1_0000, k);
    ShiftedByteBit(b1, 8, 0x100, k);
    if k >= 8 {
      ByteHighClear(b0, k);
    }
  }

  lemma LittleEndianRange(b0: u8, b1: u8, b2: u8)
    ensures LittleEndian(b0, b1, b2) < 0x100_0000
  {
    Range24(b2 * 0x1_0000, b1 * 0x100);
    Range24(Or(b2 * 0x1_0000, b1 * 0x100), b0);
  }

  /** The CRC at the end of a PDU is the one of its body under an initial value. */
  predicate CrcGood(init: nat, pdu: seq<u8>)
    requires |pdu| >= 2 && |pdu| >= Length(pdu) + 3
  {
    var len := Length(pdu);
    RegisterOf(LittleEndian(pdu[len], pdu[len + 1], pdu[len + 2])) == Crc(init, pdu[..len])
  }

  lemma CrcBitsAt(b0: u8, b1: u8, b2: u8, p: nat)
    requires p < 24
    ensures RegisterOf(LittleEndian(b0, b1, b2))[p] == DataBits([b0, b1, b2])[23 - p]
  {
    LittleEndianBit(b0, b1, b2, 23 - p);
    var i, k := (23 - p) / 8, (23 - p) % 8;
    DataBitAt([b0, b1, b2], i, k);
    assert 8 * i + k == 23 - p;
  }

  /** A PDU passes exactly when the register, run over the body and the CRC, ends at zero. */
  lemma CrcGoodIsResidue(init: nat, pdu: seq<u8>)
    requires |pdu| >= 2 && |pdu| == Length(pdu) + 3
    ensures CrcGood(init, pdu) <==> Run(RegisterOf(init), DataBits(pdu)) == Zeros(24)
  {
    var len := Length(pdu);
    var body, crc := pdu[..len], pdu[len..];
    assert pdu == body + crc && crc == [pdu[len], pdu[len + 1], pdu[len + 2]];
    DataBitsAppend(body, crc);
    RunAppend(RegisterOf(init), DataBits(body), DataBits(crc));
    ReachesZero(Crc(init, body), DataBits(crc));
    WireRegister(Crc(init, body), crc[0], crc[1], crc[2]);
  }

  lemma WireRegister(r: Register, b0: u8, b1: u8, b2: u8)
    ensures Holds(r, DataBits([b0, b1, b2])) <==> r == RegisterOf(LittleEndian(b0, b1, b2))
  {
    var wire := RegisterOf(LittleEndian(b0, b1, b2));
    forall p | 0 <= p < 24 ensures wire[p] == DataBits([b0, b1, b2])[23 - p] {
      CrcBitsAt(b0, b1, b2, p);
    }
    if Holds(r, DataBits([b0, b1, b2])) {
      assert r == wire;
    }
  }

  // ----- The word-wise receiver as a whole -----

  datatype Reception = Dropped | Packet(bytes: seq<u8>)

  /** What bt_le_sync hands on: the length limit of 39 bytes, and the CRC where it is checked. */
  predicate Accepts(crcVerify: bool, init: nat, pdu: seq<u8>)
    requires |pdu| == 44
  {
    Length(pdu) <= 39 && (crcVerify ==> CrcGood(init, pdu))
  }

  /** The check looks at the body and the CRC, and not at what lies behind them in the buffer. */
  lemma CheckedPart(init: nat, pdu: seq<u8>)
    requires |pdu| == 44 && Length(pdu) <= 39
    ensures CrcGood(init, pdu) <==> Run(RegisterOf(init), DataBits(pdu[..Length(pdu) + 3])) == Zeros(24)
  {
    var part, len := pdu[..Length(pdu) + 3], Length(pdu);
    assert part[..len] == pdu[..len] && Length(part) == len;
    CrcGoodIsResidue(init, part);
  }

  /**
   The receiver in terms of the bits of the PDU: the length field is the low six bits of
   the second byte, at most 37 is taken, and where the CRC is checked the register has to
   end at zero behind the two bytes of the header, the payload and the CRC.
  */
  lemma AcceptsExactly(crcVerify: bool, init: nat, pdu: seq<u8>)
    requires |pdu| == 44
    ensures Accepts(crcVerify, init, pdu) <==>
      && pdu[1] % 64 <= 37
      && (crcVerify ==> Run(RegisterOf(init), DataBits(pdu[..2 + pdu[1] % 64 + 3])) == Zeros(24))
  {
    LengthField(pdu);
    if Length(pdu) <= 39 {
      CheckedPart(init, pdu);
    }
  }

  lemma LengthField(pdu: seq<u8>)
    requires |pdu| >= 2
    ensures Length(pdu) == 2 + pdu[1] % 64
  {
    LowIsRest(pdu[1], 6);
    assert Pow2(6) == 64;
  }

  /**
   Whatever was sent, a burst of at most 24 bits of difference on the air is caught: of
   two receive buffers with the same length field that differ in body or CRC by such a
   burst, whatever lies behind the CRC, the receiver takes at most one.
  */
  lemma BurstRejected(init: nat, sent: seq<u8>, heard: seq<u8>, white: nat -> bool, lo: nat, n: nat)
    requires |sent| == |heard| == 44
    requires n == Length(PlainBytes(sent, white)) + 3 == Length(PlainBytes(heard, white)) + 3 <= 42
    requires BurstApart(AirBits(sent[..n]), AirBits(heard[..n]), lo)
    ensures !Accepts(true, init, PlainBytes(sent, white)) || !Accepts(true, init, PlainBytes(heard, white))
  {
    var a, b := PlainBytes(sent[..n], white), PlainBytes(heard[..n], white);
    assert PlainBytes(sent, white)[..n] == a && PlainBytes(heard, white)[..n] == b;
    BurstStaysBurst(sent[..n], heard[..n], white, lo);
    BurstDetected(RegisterOf(init), DataBits(a), DataBits(b), lo);
    CheckedPart(init, PlainBytes(sent, white));
    CheckedPart(init, PlainBytes(heard, white));
  }

  lemma BurstStaysBurst(sent: seq<u8>, heard: seq<u8>, white: nat -> bool, lo: nat)
    requires |sent| == |heard| && BurstApart(AirBits(sent), AirBits(heard), lo)
    ensures BurstApart(DataBits(PlainBytes(sent, white)), DataBits(PlainBytes(heard, white)), lo)
  {
    var a, b := DataBits(PlainBytes(sent, white)), DataBits(PlainBytes(heard, white));
    forall n | 0 <= n < |a|
      ensures a[n] == (AirBits(sent)[n] != white(n)) && b[n] == (AirBits(heard)[n] != white(n))
    {
      PlainBitsAreAirBits(sent, white, n);
      PlainBitsAreAirBits(heard, white, n);
    }
    var n :| 0 <= n < |a| && AirBits(sent)[n] != AirBits(heard)[n];
    assert a[n] != b[n];
  }

  /** The address word and the words de-whitened from the buffer so far. */
  ghost predicate Unpacked(words: seq<nat>, aa: nat, air: seq<u8>, whit: seq<nat>, n: nat)
    requires |words| == 13 && |whit| == 12 && |air| >= 44
  {
    words[0] == aa && forall w :: 0 <= w < n <= 11 ==> words[w + 1] == PlainWord(air, whit, w)
  }

  lemma ByteOfWord(words: seq<nat>, i: nat, w: nat, b: nat)
    requires i == 4 * w + b && b < 4 && w < |words|
    ensures BytesOf(words)[i] == Low(Shr(words[w], 8 * b), 8)
  {
    assert i / 4 == w && i % 4 == b;
  }

  lemma UnpackedByte(words: seq<nat>, aa: nat, air: seq<u8>, whit: seq<nat>, white: nat -> bool, n: nat, i: nat)
    requires |words| == 13 && WhitenAs(whit, white) && |air| >= 44 && n <= 11
    requires Unpacked(words, aa, air, whit, n) && 4 <= i < 4 + 4 * n
    ensures BytesOf(words)[i] == Plain(air[i - 4], white, i - 4)
  {
    var w, b := i / 4 - 1, i % 4;
    ByteOfWord(words, i, w + 1, b);
    PlainWordIsPlainBytes(air, whit, white, w, b);
    assert words[w + 1] == PlainWord(air, whit, w);
  }

  lemma AddressByteOfWord(words: seq<nat>, aa: nat, i: nat)
    requires |words| == 13 && words[0] == aa && i < 4
    ensures BytesOf(words)[i] == AddressBytes(aa)[i]
  {
    AddressByte(aa, i);
    ByteOfWord(words, i, 0, i);
  }

  lemma AllUnpacked(words: seq<nat>, aa: nat, air: seq<u8>, whit: seq<nat>, white: nat -> bool)
    requires |words| == 13 && WhitenAs(whit, white) && |air| == 50 && Unpacked(words, aa, air, whit, 11)
    ensures BytesOf(words)[..48] == AddressBytes(aa) + PlainBytes(air[..44], white)
  {
    var all := AddressBytes(aa) + PlainBytes(air[..44], white);
    forall i | 0 <= i < 48 ensures BytesOf(words)[i] == all[i] {
      if i < 4 {
        AddressByteOfWord(words, aa, i);
      } else {
        UnpackedByte(words, aa, air, whit, white, 11, i);
      }
    }
  }

  /** The CRC step of both receivers: calc_crc == wire_crc over the packet from its fifth byte on. */
  method CheckCrc(init: u32, packet: seq<u8>) returns (good: bool)
    requires |packet| >= 6 && |packet| >= 4 + Length(packet[4..]) + 3
    ensures good == CrcGood(init, packet[4..])
  {
    var len := Length(packet[4..]);
    var calcCrc := CrcgenLut(init, packet[4..4 + len]);
    var wireCrc := LittleEndian(packet[4 + len], packet[4 + len + 1], packet[4 + len + 2]);
    good := calcCrc == wireCrc;
    LittleEndianRange(packet[4 + len], packet[4 + len + 1], packet[4 + len + 2]);
    if RegisterOf(calcCrc) == RegisterOf(wireCrc) {
      RegisterInjective(calcCrc, wireCrc);
    }
    assert packet[4..][..len] == packet[4..4 + len];
  }

  method Receive(whit: seq<nat>, rxbuf1: array<u8>, aa: u32, crcVerify: bool, init: u32, ghost white: nat -> bool)
    returns (r: Reception)
    requires rxbuf1.Length == 50 && WhitenAs(whit, white)
    ensures var pdu := PlainBytes(rxbuf1[..44], white);
            r == if Accepts(crcVerify, init, pdu) then Packet(AddressBytes(aa) + pdu) else Dropped
  {
    ghost var pdu := PlainBytes(rxbuf1[..44], white);
    var packet := new nat[13];
    packet[0] := aa;
    packet[1] := PlainWord(rxbuf1[..], whit, 0);
    UnpackedByte(packet[..], aa, rxbuf1[..], whit, white, 1, 5);
    var len := Low(BytesOf(packet[..])[5], 6) + 2;
    assert len == Length(pdu);
    if len > 39 {
      return Dropped;
    }
    for w := 1 to 11
      invariant Unpacked(packet[..], aa, rxbuf1[..], whit, w)
    {
      packet[w + 1] := PlainWord(rxbuf1[..], whit, w);
    }
    AllUnpacked(packet[..], aa, rxbuf1[..], whit, white);
    var p := BytesOf(packet[..])[..48];
    assert p[4..] == pdu;
    if crcVerify {
      var good := CheckCrc(init, p);
      if !good {
        return Dropped;
      }
    }
    return Packet(p);
  }

  /** bt_le_sync from the received buffer to the packet it hands on. */
  method BtLeSync(rxbuf1: array<u8>, channel: u16, aa: u32, crcVerify: bool, init: u32) returns (r: Reception)
    requires rxbuf1.Length == 50
    ensures var pdu := PlainBytes(rxbuf1[..44], WhiteningOf(IndexOf(channel)));
            r == if Accepts(crcVerify, init, pdu) then Packet(AddressBytes(aa) + pdu) else Dropped
  {
    WordsWhiten(IndexOf(channel));
    r := Receive(WordRow(IndexOf(channel)), rxbuf1, aa, crcVerify, init, WhiteningOf(IndexOf(channel)));
  }

  // ----- There and back -----

  /** Data of at most 44 bytes comes back as it was sent, on every channel. */
  lemma FrameRoundTrip(aa: nat, data: seq<u8>, white: nat -> bool, air: seq<u8>)
    requires |data| <= |air| && Frame(aa, data, white)[4..] == air[..|data|]
    ensures PlainBytes(air, white)[..|data|] == data
  {
    forall i | 0 <= i < |data| ensures PlainBytes(air, white)[i] == data[i] {
      assert air[i] == Frame(aa, data, white)[4..][i] == Air(data[i], white, i);
      PlainUndoesAir(data[i], white, i);
    }
  }

  /** The three bytes that carry a CRC, lowest first. */
  function CrcBytes(crc: nat): seq<u8> {
    [LowByte(crc), LowByte(Shr(crc, 8)), LowByte(Shr(crc, 16))]
  }

  lemma CrcBytesRound(crc: nat)
    requires crc < 0x100_0000
    ensures LittleEndian(LowByte(crc), LowByte(Shr(crc, 8)), LowByte(Shr(crc, 16))) == crc
  {
    var wire := LittleEndian(LowByte(crc), LowByte(Shr(crc, 8)), LowByte(Shr(crc, 16)));
    LittleEndianRange(LowByte(crc), LowByte(Shr(crc, 8)), LowByte(Shr(crc, 16)));
    forall k | 0 <= k < 24 ensures Bit(wire, k) == Bit(crc, k) {
      LittleEndianBit(LowByte(crc), LowByte(Shr(crc, 8)), LowByte(Shr(crc, 16)), k);
      if k < 8 {
        BitLow(crc, 8, k);
      } else if k < 16 {
        BitLow(Shr(crc, 8), 8, k - 8);
        BitShr(crc, 8, k - 8);
      } else {
        BitLow(Shr(crc, 16), 8, k - 16);
        BitShr(crc, 16, k - 16);
      }
    }
    SameBits24(wire, crc);
  }

  /**
   A PDU sent with its CRC by le_transmit is accepted by bt_le_sync, CRC check and
   all, and comes out byte for byte; what lies behind it in the buffer does not matter.
  */
  lemma SentIsAccepted(aa: nat, body: seq<u8>, crc: nat, init: nat, white: nat -> bool, air: seq<u8>)
    requires |body| >= 2 && |body| == Length(body) <= 39
    requires crc < 0x100_0000 && RegisterOf(crc) == Crc(init, body)
    requires |air| == 44 && air[..|body| + 3] == Frame(aa, body + CrcBytes(crc), white)[4..]
    ensures Accepts(true, init, PlainBytes(air, white))
    ensures PlainBytes(air, white)[..|body| + 3] == body + CrcBytes(crc)
  {
    FrameRoundTrip(aa, body + CrcBytes(crc), white, air);
    CarriesGoodCrc(PlainBytes(air, white), body, crc, init);
  }

  /** A PDU that begins with a body and its CRC passes. */
  lemma CarriesGoodCrc(pdu: seq<u8>, body: seq<u8>, crc: nat, init: nat)
    requires |body| >= 2 && |body| == Length(body) && |pdu| >= |body| + 3
    requires crc < 0x100_0000 && RegisterOf(crc) == Crc(init, body)
    requires pdu[..|body| + 3] == body + CrcBytes(crc)
    ensures Length(pdu) == |body| && CrcGood(init, pdu)
  {
    var n, data := |body|, body + CrcBytes(crc);
    assert pdu[1] == pdu[..n + 3][1] == data[1] == body[1];
    assert pdu[..n] == pdu[..n + 3][..n] == data[..n] == body;
    assert pdu[n] == pdu[..n + 3][n] == data[n];
    assert pdu[n + 1] == pdu[..n + 3][n + 1] == data[n + 1];
    assert pdu[n + 2] == pdu[..n + 3][n + 2] == data[n + 2];
    CrcBytesRound(crc);
  }
}
