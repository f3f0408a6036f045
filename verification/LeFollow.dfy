/**
 cb_follow_le: the receiver that finds the access address in a stream of single bits
 and de-whitens bit by bit (firmware/bluetooth_rxtx/bluetooth_rxtx.c), and its
 agreement with the word-wise receiver.
*/
module LeFollow {
  import opened Words
  import opened Crc24
  import opened LeChannels
  import opened Whitening
  import opened LinkFrame
  import opened LeReceive

  // ----- Looking for the access address -----

  /** The stream of unpacked symbols behind 32 zero bits, as the address register sees it. */
  function Padded(unpacked: seq<bool>): seq<bool> {
    Zeros(32) + unpacked
  }

  /** The 32 symbols that end with symbol i, as a word. */
  function AddressAt(unpacked: seq<bool>, i: nat): nat
    requires 31 <= i < |unpacked|
  {
    Value(unpacked[i - 31..i + 1])
  }

  /** The first place from i to limit whose 32 symbols are the address, or limit. */
  function FirstMatch(unpacked: seq<bool>, aa: nat, i: nat, limit: nat): (m: nat)
    requires 31 <= i <= limit <= |unpacked|
    ensures i <= m <= limit
    ensures m < limit ==> AddressAt(unpacked, m) == aa
    ensures forall n :: i <= n < m ==> AddressAt(unpacked, n) != aa
    decreases limit - i
  {
    if i == limit || AddressAt(unpacked, i) == aa then i else FirstMatch(unpacked, aa, i + 1, limit)
  }

  /** access_address >>= 1; access_address |= bit << 31. */
  function ShiftIn(word: nat, bit: bool): nat {
    Or(word / 2, if bit then 0x8000_0000 else 0)
  }

  lemma ShiftInRange(word: nat, bit: bool)
    requires word < 0x1_0000_0000
    ensures ShiftIn(word, bit) < 0x1_0000_0000
  {
    Pow2Values();
    OrRange(word / 2, if bit then 0x8000_0000 else 0, 32);
  }

  lemma TopBit(bit: bool, k: nat)
    requires k < 32
    ensures Bit(if bit then 0x8000_0000 else 0, k) == (k == 31 && bit)
  {
    Pow2Values();
    assert Pow2(31) == 0x8000_0000;
    BitOfPow2(31, k);
    BitZero(k);
  }

  lemma ShiftInIsPush(bits: seq<bool>, bit: bool)
    requires |bits| == 32
    ensures ShiftIn(Value(bits), bit) == Value(bits[1..] + [bit])
  {
    var next := bits[1..] + [bit];
    Pow2Values();
    ValueRange(bits);
    ValueRange(next);
    ShiftInRange(Value(bits), bit);
    forall k | 0 <= k < 32 ensures Bit(ShiftIn(Value(bits), bit), k) == Bit(Value(next), k) {
      BitOr(Value(bits) / 2, if bit then 0x8000_0000 else 0, k);
      TopBit(bit, k);
      assert Bit(Value(bits) / 2, k) == Bit(Value(bits), k + 1);
      BitValue(bits, k + 1);
      BitValue(next, k);
    }
    SameBits(ShiftIn(Value(bits), bit), Value(next), 32);
  }

  lemma PaddedStep(unpacked: seq<bool>, i: nat)
    requires i < |unpacked|
    ensures ShiftIn(Value(Padded(unpacked)[i..i + 32]), unpacked[i]) == Value(Padded(unpacked)[i + 1..i + 33])
  {
    var all := Padded(unpacked);
    ShiftInIsPush(all[i..i + 32], unpacked[i]);
    assert all[i..i + 32][1..] + [unpacked[i]] == all[i + 1..i + 33];
  }

  lemma PaddedWindow(unpacked: seq<bool>, i: nat)
    requires 31 <= i < |unpacked|
    ensures Padded(unpacked)[i + 1..i + 33] == unpacked[i - 31..i + 1]
  {
    var window, stretch := Padded(unpacked)[i + 1..i + 33], unpacked[i - 31..i + 1];
    forall k | 0 <= k < 32 ensures window[k] == stretch[k] {
      assert Padded(unpacked)[i + 1 + k] == unpacked[i - 31 + k];
    }
    assert window == stretch;
  }

  lemma RegisterStep(unpacked: seq<bool>, i: nat, word: nat)
    requires 31 <= i < |unpacked| && word == Value(Padded(unpacked)[i..i + 32])
    ensures ShiftIn(word, unpacked[i]) == Value(Padded(unpacked)[i + 1..i + 33]) == AddressAt(unpacked, i)
  {
    PaddedStep(unpacked, i);
    PaddedWindow(unpacked, i);
  }

  // ----- Taking the bytes out of the stream -----

  /** Byte j of the packet whose first bit is symbol s: the address as it is, the rest de-whitened. */
  function SymbolByte(unpacked: seq<bool>, s: nat, j: nat, white: nat -> bool): u8
    requires s + 8 * j + 8 <= |unpacked|
  {
    ByteOfBits(seq(8, k requires 0 <= k < 8 =>
      unpacked[s + 8 * j + k] != (j >= 4 && white(8 * (j - 4) + k))))
  }

  function SymbolBytes(unpacked: seq<bool>, s: nat, n: nat, white: nat -> bool): (bytes: seq<u8>)
    requires s + 8 * n <= |unpacked|
    ensures |bytes| == n
  {
    seq(n, j requires 0 <= j < n => SymbolByte(unpacked, s, j, white))
  }

  /** The low k bits of a byte are those given, the rest is clear. */
  ghost predicate Filled(byte: nat, bits: seq<bool>, k: nat)
    requires |bits| == 8
  {
    forall m :: 0 <= m < 8 ==> Bit(byte, m) == (m < k && bits[m])
  }

  lemma FillBit(byte: u8, bits: seq<bool>, k: nat, bit: nat)
    requires |bits| == 8 && k < 8 && Filled(byte, bits, k) && bit < 2 && (bit == 1) == bits[k]
    ensures Or(byte, bit * Pow2(k)) < 0x100 && Filled(Or(byte, bit * Pow2(k)), bits, k + 1)
  {
    OrBit(byte, bit, k);
  }

  lemma FillNone(bits: seq<bool>)
    requires |bits| == 8
    ensures Filled(0, bits, 0)
  {
    forall m | 0 <= m < 8 ensures !Bit(0, m) {
      BitZero(m);
    }
  }

  /** The inner loop over the bits of byte j; i is the symbol the address ends with. */
  method TakeByte(table: seq<bool>, unpacked: seq<bool>, i: nat, j: nat, start: nat, idx: nat)
    returns (byte: u8, next: nat)
    requires |table| == 127 && |unpacked| == 800 && 31 <= i < 432 && j < 46 && start < 127
    requires idx == if j < 4 then start else (start + 8 * (j - 4)) % 127
    ensures byte == SymbolByte(unpacked, i - 31, j, From(table, start))
    ensures next == if j < 4 then idx else (start + 8 * (j - 3)) % 127
  {
    ghost var white := From(table, start);
    ghost var bits := seq(8, k requires 0 <= k < 8 =>
      unpacked[i - 31 + 8 * j + k] != (j >= 4 && white(8 * (j - 4) + k)));
    byte := 0;
    next := idx;
    FillNone(bits);
    for k := 0 to 8
      invariant Filled(byte, bits, k)
      invariant next == if j < 4 then idx else (start + (8 * (j - 4) + k)) % 127
    {
      var offset := k + j * 8 + i - 31;
      if offset >= 800 {
        break;
      }
      var bit := unpacked[offset];
      if j >= 4 {
        FromAt(table, start, 8 * (j - 4) + k);
        bit := bit != table[next];
        OnePlaceOn(start, 8 * (j - 4) + k);
        next := (next + 1) % 127;
      }
      assert bit == bits[k];
      FillBit(byte, bits, k, Number(bit));
      byte := Or(byte, Number(bit) * Pow2(k));
    }
    SameByte(byte, SymbolByte(unpacked, i - 31, j, white));
  }

  datatype Sighting = NotSeen | Overrun | BadCrc | Seen(bytes: seq<u8>)

  /**
   The CRC step on the 50-byte buffer.  A length field above 41 makes the source read
   past that buffer, which has an outcome of its own here.
  */
  function Judge(crcVerify: bool, init: nat, bytes: seq<u8>): Sighting
    requires |bytes| == 50
  {
    if !crcVerify then Seen(bytes)
    else if 4 + Length(bytes[4..]) + 3 > 50 then Overrun
    else if CrcGood(init, bytes[4..]) then Seen(bytes)
    else BadCrc
  }

  method TakePacket(table: seq<bool>, unpacked: seq<bool>, idle: array<u8>, i: nat, start: nat)
    requires |table| == 127 && |unpacked| == 800 && 31 <= i < 432 && start < 127 && idle.Length == 50
    modifies idle
    ensures idle[..] == SymbolBytes(unpacked, i - 31, 46, From(table, start)) + old(idle[46..])
  {
    var idx := start;
    for j := 0 to 46
      invariant idx == if j <= 4 then start else (start + 8 * (j - 4)) % 127
      invariant forall m :: 0 <= m < j ==> idle[m] == SymbolByte(unpacked, i - 31, m, From(table, start))
      invariant idle[46..] == old(idle[46..])
    {
      var byte: u8;
      byte, idx := TakeByte(table, unpacked, i, j, start, idx);
      idle[j] := byte;
    }
  }

  /** The search, with the address register shifted in from the top one symbol at a time. */
  method FindAddress(unpacked: seq<bool>, aa: u32) returns (m: nat)
    requires |unpacked| == 800
    ensures m == FirstMatch(unpacked, aa, 31, 432)
  {
    var accessAddress: nat := 0;
    ValueOfZeros(32);
    assert Padded(unpacked)[0..32] == Zeros(32);
    for i := 0 to 31
      invariant accessAddress == Value(Padded(unpacked)[i..i + 32])
    {
      PaddedStep(unpacked, i);
      accessAddress := ShiftIn(accessAddress, unpacked[i]);
    }
    for i := 31 to 432
      invariant accessAddress == Value(Padded(unpacked)[i..i + 32])
      invariant FirstMatch(unpacked, aa, 31, 432) == FirstMatch(unpacked, aa, i, 432)
    {
      RegisterStep(unpacked, i, accessAddress);
      accessAddress := ShiftIn(accessAddress, unpacked[i]);
      if accessAddress == aa {
        return i;
      }
    }
    return 432;
  }

  method Follow(table: seq<bool>, unpacked: seq<bool>, idle: array<u8>, aa: u32, crcVerify: bool, init: u32, start: nat)
    returns (r: Sighting)
    requires |table| == 127 && |unpacked| == 800 && idle.Length == 50 && start < 127
    modifies idle
    ensures var m := FirstMatch(unpacked, aa, 31, 432);
            if m == 432 then r == NotSeen && idle[..] == old(idle[..])
            else && idle[..] == SymbolBytes(unpacked, m - 31, 46, From(table, start)) + old(idle[46..])
                 && r == Judge(crcVerify, init, idle[..])
  {
    var i := FindAddress(unpacked, aa);
    if i == 432 {
      return NotSeen;
    }
    TakePacket(table, unpacked, idle, i, start);
    var packet := idle[..];
    if crcVerify {
      if 4 + Length(packet[4..]) + 3 > 50 {
        return Overrun;
      }
      var good := CheckCrc(init, packet);
      if !good {
        return BadCrc;
      }
    }
    return Seen(packet);
  }

  lemma {:induction false} ValueOfZeros(n: nat)
    ensures Value(Zeros(n)) == 0
  {
    if n > 0 {
      assert Zeros(n)[1..] == Zeros(n - 1);
      ValueOfZeros(n - 1);
    }
  }

  /** cb_follow_le from the unpacked symbols to the packet it hands on. */
  method CbFollowLe(unpacked: seq<bool>, idle: array<u8>, channel: u16, aa: u32, crcVerify: bool, init: u32)
    returns (r: Sighting)
    requires |unpacked| == 800 && idle.Length == 50
    modifies idle
    ensures var m := FirstMatch(unpacked, aa, 31, 432);
            if m == 432 then r == NotSeen && idle[..] == old(idle[..])
            else && idle[..] == SymbolBytes(unpacked, m - 31, 46, WhiteningOf(IndexOf(channel))) + old(idle[46..])
                 && r == Judge(crcVerify, init, idle[..])
  {
    r := Follow(WhiteningTable(), unpacked, idle, aa, crcVerify, init, WhiteningIndex(IndexOf(channel)));
  }

  // ----- Agreement with the word-wise receiver -----

  /** The symbols from s on are the access address and then the bits of the buffer. */
  ghost predicate SameAir(unpacked: seq<bool>, s: nat, aa: nat, air: seq<u8>)
    requires s + 368 <= |unpacked| && |air| >= 42
  {
    && Value(unpacked[s..s + 32]) == aa
    && forall n :: 0 <= n < 336 ==> unpacked[s + 32 + n] == AirBits(air)[n]
  }

  lemma AddressSymbols(unpacked: seq<bool>, s: nat, aa: nat, j: nat, white: nat -> bool)
    requires s + 32 <= |unpacked| && Value(unpacked[s..s + 32]) == aa && j < 4
    ensures SymbolByte(unpacked, s, j, white) == AddressBytes(aa)[j]
  {
    forall k | 0 <= k < 8 ensures Bit(SymbolByte(unpacked, s, j, white), k) == Bit(AddressBytes(aa)[j], k) {
      BitValue(unpacked[s..s + 32], 8 * j + k);
    }
    SameByte(SymbolByte(unpacked, s, j, white), AddressBytes(aa)[j]);
  }

  lemma DataSymbols(unpacked: seq<bool>, s: nat, aa: nat, air: seq<u8>, j: nat, white: nat -> bool)
    requires s + 368 <= |unpacked| && |air| >= 42 && SameAir(unpacked, s, aa, air) && 4 <= j < 46
    ensures SymbolByte(unpacked, s, j, white) == Plain(air[j - 4], white, j - 4)
  {
    var a, b := SymbolByte(unpacked, s, j, white), Plain(air[j - 4], white, j - 4);
    forall k | 0 <= k < 8 ensures Bit(a, k) == Bit(b, k) {
      var n := 8 * (j - 4) + k;
      assert n / 8 == j - 4 && n % 8 == k;
      assert unpacked[s + 32 + n] == AirBits(air)[n];
      assert s + 8 * j + k == s + 32 + n;
    }
    SameByte(a, b);
  }

  /** From the same bits on the air both receivers take the same 46 bytes, on every channel. */
  lemma SameBytes(unpacked: seq<bool>, s: nat, aa: nat, air: seq<u8>, white: nat -> bool)
    requires s + 368 <= |unpacked| && |air| == 44 && SameAir(unpacked, s, aa, air)
    ensures SymbolBytes(unpacked, s, 46, white) == (AddressBytes(aa) + PlainBytes(air, white))[..46]
  {
    forall j | 0 <= j < 46
      ensures SymbolBytes(unpacked, s, 46, white)[j] == (AddressBytes(aa) + PlainBytes(air, white))[j]
    {
      if j < 4 {
        AddressSymbols(unpacked, s, aa, j, white);
      } else {
        DataSymbols(unpacked, s, aa, air, j, white);
      }
    }
  }

  /** Up to the length limit of the word-wise receiver, both receivers accept the same packets. */
  lemma SameVerdict(unpacked: seq<bool>, s: nat, aa: nat, air: seq<u8>, white: nat -> bool, stale: seq<u8>,
                    crcVerify: bool, init: nat)
    requires s + 368 <= |unpacked| && |air| == 44 && SameAir(unpacked, s, aa, air) && |stale| == 4
    requires Length(PlainBytes(air, white)) <= 39
    ensures var bytes := SymbolBytes(unpacked, s, 46, white) + stale;
            Judge(crcVerify, init, bytes) ==
            if Accepts(crcVerify, init, PlainBytes(air, white)) then Seen(bytes) else BadCrc
  {
    SameBytes(unpacked, s, aa, air, white);
    var bytes, pdu := SymbolBytes(unpacked, s, 46, white) + stale, PlainBytes(air, white);
    assert forall i :: 0 <= i < 42 ==> bytes[4..][i] == pdu[i];
    var len := Length(pdu);
    assert bytes[4..][1] == pdu[1];
    assert bytes[4..][..len] == pdu[..len];
    assert bytes[4..][len] == pdu[len] && bytes[4..][len + 1] == pdu[len + 1] && bytes[4..][len + 2] == pdu[len + 2];
  }

  // ----- From the transmitter to the receiver -----

  /** The symbols from s on are these bits. */
  ghost predicate Carries(unpacked: seq<bool>, s: nat, bits: seq<bool>) {
    s + |bits| <= |unpacked| && forall n :: 0 <= n < |bits| ==> unpacked[s + n] == bits[n]
  }

  /** Where a frame begins, the address register of the receiver comes to hold its address. */
  lemma AddressFound(unpacked: seq<bool>, s: nat, aa: u32, data: seq<u8>, white: nat -> bool)
    requires Carries(unpacked, s, AirBits(Frame(aa, data, white)))
    ensures AddressAt(unpacked, s + 31) == aa
  {
    var symbols := unpacked[s..s + 32];
    Pow2Values();
    ValueRange(symbols);
    forall n | 0 <= n < 32 ensures Bit(Value(symbols), n) == Bit(aa, n) {
      BitValue(symbols, n);
      AddressOnAir(aa, data, white, n);
      assert unpacked[s + n] == AirBits(Frame(aa, data, white))[n];
    }
    SameBits(Value(symbols), aa, 32);
  }

  lemma DataFound(unpacked: seq<bool>, s: nat, aa: u32, data: seq<u8>, white: nat -> bool, j: nat)
    requires Carries(unpacked, s, AirBits(Frame(aa, data, white))) && j < |data|
    ensures SymbolByte(unpacked, s, 4 + j, white) == data[j]
  {
    var byte := SymbolByte(unpacked, s, 4 + j, white);
    forall k | 0 <= k < 8 ensures Bit(byte, k) == Bit(data[j], k) {
      DataByteOnAir(aa, data, white, j, k);
      assert unpacked[s + (8 * (4 + j) + k)] == AirBits(Frame(aa, data, white))[8 * (4 + j) + k];
    }
    SameByte(byte, data[j]);
  }

  /** The first match is at a place, if there is none before it. */
  lemma FirstMatchAt(unpacked: seq<bool>, aa: nat, i: nat, limit: nat, m: nat)
    requires 31 <= i <= m < limit <= |unpacked| && AddressAt(unpacked, m) == aa
    requires forall n :: i <= n < m ==> AddressAt(unpacked, n) != aa
    ensures FirstMatch(unpacked, aa, i, limit) == m
  {}

  /** What is taken out of the stream where a frame begins. */
  lemma FrameFound(unpacked: seq<bool>, s: nat, aa: u32, data: seq<u8>, white: nat -> bool)
    requires s + 368 <= |unpacked| && |data| <= 42 && Carries(unpacked, s, AirBits(Frame(aa, data, white)))
    ensures SymbolBytes(unpacked, s, 46, white)[..4 + |data|] == AddressBytes(aa) + data
  {
    AddressFound(unpacked, s, aa, data, white);
    forall j | 0 <= j < 4 + |data|
      ensures SymbolBytes(unpacked, s, 46, white)[j] == (AddressBytes(aa) + data)[j]
    {
      if j < 4 {
        AddressSymbols(unpacked, s, aa, j, white);
      } else {
        DataFound(unpacked, s, aa, data, white, j - 4);
      }
    }
  }

  /**
   What le_transmit sends cb_follow_le receives: wherever in the stream of symbols the
   frame of a PDU with its CRC begins, if the address does not come up before it, it is
   found there, and address, PDU and CRC come out byte for byte and are accepted.
  */
  lemma TransmittedIsFollowed(unpacked: seq<bool>, s: nat, aa: u32, body: seq<u8>, crc: nat, init: nat,
                              white: nat -> bool, stale: seq<u8>, crcVerify: bool)
    requires |unpacked| == 800 && s <= 400 && |stale| == 4
    requires 2 <= |body| <= 39 && body[1] % 64 == |body| - 2
    requires crc < 0x100_0000 && RegisterOf(crc) == Crc(init, body)
    requires Carries(unpacked, s, AirBits(Frame(aa, body + CrcBytes(crc), white)))
    requires forall n :: 31 <= n < s + 31 ==> AddressAt(unpacked, n) != aa
    ensures FirstMatch(unpacked, aa, 31, 432) == s + 31
    ensures var bytes := SymbolBytes(unpacked, s, 46, white) + stale;
            && bytes[..4 + |body| + 3] == AddressBytes(aa) + body + CrcBytes(crc)
            && Judge(crcVerify, init, bytes) == Seen(bytes)
  {
    var data := body + CrcBytes(crc);
    AddressFound(unpacked, s, aa, data, white);
    FirstMatchAt(unpacked, aa, 31, 432, s + 31);
    FrameFound(unpacked, s, aa, data, white);
    LengthField(body);
    FrameJudged(SymbolBytes(unpacked, s, 46, white), aa, body, crc, init, stale, crcVerify);
  }

  lemma FrameJudged(taken: seq<u8>, aa: u32, body: seq<u8>, crc: nat, init: nat, stale: seq<u8>, crcVerify: bool)
    requires |taken| == 46 && |stale| == 4 && 2 <= |body| <= 39 && Length(body) == |body|
    requires crc < 0x100_0000 && RegisterOf(crc) == Crc(init, body)
    requires taken[..4 + |body + CrcBytes(crc)|] == AddressBytes(aa) + (body + CrcBytes(crc))
    ensures (taken + stale)[..4 + |body| + 3] == AddressBytes(aa) + body + CrcBytes(crc)
    ensures Judge(crcVerify, init, taken + stale) == Seen(taken + stale)
  {
    var bytes, data := taken + stale, body + CrcBytes(crc);
    assert bytes[..4 + |data|] == taken[..4 + |data|];
    assert bytes[4..][..|body| + 3] == bytes[..4 + |data|][4..] == data;
    CarriesGoodCrc(bytes[4..], body, crc, init);
  }

  /** A checked packet makes the receiver read past its buffer exactly when its length field is above 41. */
  lemma OverrunExactly(crcVerify: bool, init: nat, bytes: seq<u8>)
    requires |bytes| == 50
    ensures Judge(crcVerify, init, bytes) == Overrun <==> crcVerify && bytes[5] % 64 > 41
  {
    LengthField(bytes[4..]);
  }
}
