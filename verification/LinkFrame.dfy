/**
 Link-layer packets between their bytes and the bits on the air, and the framing
 part of le_transmit (firmware/bluetooth_rxtx/bluetooth_rxtx.c).
*/
module LinkFrame {
  import opened Words
  import opened LeChannels
  import opened Whitening

  // ----- Bytes and bits -----

  lemma SameByte(a: u8, b: u8)
    requires forall k :: 0 <= k < 8 ==> Bit(a, k) == Bit(b, k)
    ensures a == b
  {
    Pow2Values();
    SameBits(a, b, 8);
  }

  lemma ByteOfBitsParts(bits: seq<bool>)
    requires |bits| == 8
    ensures Value(bits) < 0x100
    ensures forall k :: 0 <= k < 8 ==> Bit(Value(bits), k) == bits[k]
  {
    Pow2Values();
    ValueRange(bits);
    forall k | 0 <= k < 8 ensures Bit(Value(bits), k) == bits[k] {
      BitValue(bits, k);
    }
  }

  /** The byte whose bits, least significant first, are given. */
  function ByteOfBits(bits: seq<bool>): (b: u8)
    requires |bits| == 8
    ensures forall k :: 0 <= k < 8 ==> Bit(b, k) == bits[k]
  {
    ByteOfBitsParts(bits);
    Value(bits)
  }

  /** The byte with its bits in the opposite order. */
  function Reversed(b: u8): u8 {
    ByteOfBits(seq(8, k requires 0 <= k < 8 => Bit(b, 7 - k)))
  }

  /** Byte i of a packet as it goes on the air: whitened, and its lowest bit first. */
  function Air(b: u8, white: nat -> bool, i: nat): u8 {
    ByteOfBits(seq(8, k requires 0 <= k < 8 => Bit(b, 7 - k) != white(8 * i + 7 - k)))
  }

  /** Byte i of a packet taken off the air again. */
  function Plain(a: u8, white: nat -> bool, i: nat): u8 {
    ByteOfBits(seq(8, k requires 0 <= k < 8 => Bit(a, 7 - k) != white(8 * i + k)))
  }

  function PlainBytes(air: seq<u8>, white: nat -> bool): (bytes: seq<u8>)
    ensures |bytes| == |air|
  {
    seq(|air|, i requires 0 <= i < |air| => Plain(air[i], white, i))
  }

  /** The bytes of an access address, least significant first. */
  function AddressBytes(aa: nat): (bytes: seq<u8>)
    ensures |bytes| == 4
  {
    seq(4, i requires 0 <= i < 4 => ByteOfBits(seq(8, k requires 0 <= k < 8 => Bit(aa, 8 * i + k))))
  }

  /** A whole packet on the air: the access address as it is, then the whitened data. */
  function Frame(aa: nat, data: seq<u8>, white: nat -> bool): (air: seq<u8>)
    ensures |air| == 4 + |data|
  {
    seq(4, i requires 0 <= i < 4 => Reversed(AddressBytes(aa)[i]))
    + seq(|data|, i requires 0 <= i < |data| => Air(data[i], white, i))
  }

  /** The bits of a buffer in the order the radio handles them: the top bit of each byte first. */
  function AirBits(buffer: seq<u8>): (bits: seq<bool>)
    ensures |bits| == 8 * |buffer|
  {
    seq(8 * |buffer|, n requires 0 <= n < 8 * |buffer| => Bit(buffer[n / 8], 7 - n % 8))
  }

  /** Taking a byte off the air undoes putting it on the air, whatever the whitening. */
  lemma PlainUndoesAir(b: u8, white: nat -> bool, i: nat)
    ensures Plain(Air(b, white, i), white, i) == b
  {
    forall k | 0 <= k < 8 ensures Bit(Plain(Air(b, white, i), white, i), k) == Bit(b, k) {
      assert Bit(Air(b, white, i), 7 - k) == (Bit(b, k) != white(8 * i + k));
    }
    SameByte(Plain(Air(b, white, i), white, i), b);
  }

  /** Bit n of what is taken off the air is bit n on the air, whitened. */
  lemma PlainBitsAreAirBits(air: seq<u8>, white: nat -> bool, n: nat)
    requires n < 8 * |air|
    ensures DataBits(PlainBytes(air, white))[n] == (AirBits(air)[n] != white(n))
  {
    var i, k := n / 8, n % 8;
    DataBitAt(PlainBytes(air, white), i, k);
    assert 8 * i + k == n;
    assert Bit(Plain(air[i], white, i), k) == (Bit(air[i], 7 - k) != white(8 * i + k));
  }

  // ----- The frame on the air -----

  lemma ReversedBit(b: u8, k: nat)
    requires k < 8
    ensures Bit(Reversed(b), 7 - k) == Bit(b, k)
  {}

  lemma AirBitAt(buffer: seq<u8>, i: nat, k: nat)
    requires i < |buffer| && k < 8
    ensures AirBits(buffer)[8 * i + k] == Bit(buffer[i], 7 - k)
  {
    assert (8 * i + k) / 8 == i && (8 * i + k) % 8 == k;
  }

  lemma AirBit(b: u8, white: nat -> bool, i: nat, k: nat)
    requires k < 8
    ensures Bit(Air(b, white, i), 7 - k) == (Bit(b, k) != white(8 * i + k))
  {}

  lemma AddressByteBit(aa: nat, i: nat, k: nat)
    requires i < 4 && k < 8
    ensures Bit(AddressBytes(aa)[i], k) == Bit(aa, 8 * i + k)
  {}

  lemma AddressByteOnAir(aa: nat, data: seq<u8>, white: nat -> bool, i: nat, k: nat)
    requires i < 4 && k < 8
    ensures AirBits(Frame(aa, data, white))[8 * i + k] == Bit(aa, 8 * i + k)
  {
    AirBitAt(Frame(aa, data, white), i, k);
    assert Frame(aa, data, white)[i] == Reversed(AddressBytes(aa)[i]);
    ReversedBit(AddressBytes(aa)[i], k);
    AddressByteBit(aa, i, k);
  }

  /** The access address goes out lowest bit first, and not whitened. */
  lemma AddressOnAir(aa: nat, data: seq<u8>, white: nat -> bool, n: nat)
    requires n < 32
    ensures AirBits(Frame(aa, data, white))[n] == Bit(aa, n)
  {
    AddressByteOnAir(aa, data, white, n / 8, n % 8);
    assert 8 * (n / 8) + n % 8 == n;
  }

  lemma DataByteOnAir(aa: nat, data: seq<u8>, white: nat -> bool, i: nat, k: nat)
    requires i < |data| && k < 8
    ensures AirBits(Frame(aa, data, white))[8 * (4 + i) + k] == (Bit(data[i], k) != white(8 * i + k))
  {
    AirBitAt(Frame(aa, data, white), 4 + i, k);
    assert Frame(aa, data, white)[4 + i] == Air(data[i], white, i);
    AirBit(data[i], white, i, k);
  }

  /** Behind it every byte of the data goes out lowest bit first, each bit whitened. */
  lemma DataOnAir(aa: nat, data: seq<u8>, white: nat -> bool, n: nat)
    requires n < 8 * |data|
    ensures AirBits(Frame(aa, data, white))[32 + n] == (DataBits(data)[n] != white(n))
  {
    var i, k := n / 8, n % 8;
    assert n == 8 * i + k && 32 + n == 8 * (4 + i) + k;
    DataByteOnAir(aa, data, white, i, k);
    DataBitAt(data, i, k);
  }

  // ----- le_transmit -----

  /** Setting one more bit of a byte. */
  lemma OrBit(acc: u8, bit: nat, p: nat)
    requires bit < 2 && p < 8
    ensures Or(acc, bit * Pow2(p)) < 0x100
    ensures forall k :: 0 <= k < 8 ==> Bit(Or(acc, bit * Pow2(p)), k) == (Bit(acc, k) || (k == p && bit == 1))
  {
    Pow2Values();
    Pow2Grows(p, 7);
    OrRange(acc, bit * Pow2(p), 8);
    forall k | 0 <= k < 8 ensures Bit(Or(acc, bit * Pow2(p)), k) == (Bit(acc, k) || (k == p && bit == 1)) {
      BitOr(acc, bit * Pow2(p), k);
      BitOfPow2(p, k);
      BitZero(k);
    }
  }

  /** byte is what is left of b after j bits have been shifted out. */
  ghost predicate Left(byte: nat, b: nat, j: nat) {
    forall k :: 0 <= k < 8 - j ==> Bit(byte, k) == Bit(b, k + j)
  }

  /** The first j bits of b are in place, whitened; the rest of acc is clear. */
  ghost predicate Placed(acc: nat, b: nat, white: nat -> bool, j: nat) {
    forall k :: 0 <= k < 8 ==> Bit(acc, k) == (7 - k < j && Bit(b, 7 - k) != white(7 - k))
  }

  /** The C expression (byte & 1) ^ w. */
  function XorLow(byte: nat, w: bool): (bit: nat)
    ensures bit < 2 && (bit == 1) == (Bit(byte, 0) != w)
  {
    XorParts(Low(byte, 1), Number(w));
    assert Low(byte, 1) == byte % 2;
    Xor(Low(byte, 1), Number(w))
  }

  lemma StartByte(b: nat, white: nat -> bool)
    ensures Left(b, b, 0) && Placed(0, b, white, 0)
  {
    forall k | 0 <= k < 8 ensures !Bit(0, k) {
      BitZero(k);
    }
  }

  /** One turn of the inner loops: bit j is placed, from the top down. */
  lemma PlaceBit(acc: u8, byte: nat, b: nat, white: nat -> bool, j: nat, bit: nat)
    requires j < 8 && bit < 2 && (bit == 1) == (Bit(byte, 0) != white(j))
    requires Left(byte, b, j) && Placed(acc, b, white, j)
    ensures Or(acc, bit * Pow2(7 - j)) < 0x100
    ensures Placed(Or(acc, bit * Pow2(7 - j)), b, white, j + 1)
    ensures Left(byte / 2, b, j + 1)
  {
    assert Bit(byte, 0) == Bit(b, j);
    OrBit(acc, bit, 7 - j);
    assert forall k :: 0 <= k < 7 - j ==> Bit(byte / 2, k) == Bit(byte, k + 1);
  }

  lemma PlacedIsAir(acc: u8, b: u8, white: nat -> bool)
    requires Placed(acc, b, white, 8)
    ensures acc == Air(b, white, 0)
  {
    SameByte(acc, Air(b, white, 0));
  }

  /** The inner loop for a byte of the access address. */
  method PutReversed(txbuf: array<u8>, at: nat, b: u8)
    requires at < txbuf.Length
    modifies txbuf
    ensures txbuf[..] == old(txbuf[..])[at := Reversed(b)]
  {
    txbuf[at] := 0;
    var byte: nat := b;
    ghost var clear := (n: nat) => false;
    StartByte(b, clear);
    for j := 0 to 8
      invariant txbuf[..] == old(txbuf[..])[at := txbuf[at]]
      invariant Left(byte, b, j) && Placed(txbuf[at], b, clear, j)
    {
      assert Low(byte, 1) == byte % 2;
      PlaceBit(txbuf[at], byte, b, clear, j, Low(byte, 1));
      txbuf[at] := Or(txbuf[at], Low(byte, 1) * Pow2(7 - j));
      byte := byte / 2;
    }
    SameByte(txbuf[at], Reversed(b));
  }

  /** The whitening sequence from place idx of a table on. */
  function From(table: seq<bool>, idx: nat): nat -> bool
    requires |table| == 127
  {
    (n: nat) => table[(idx + n) % 127]
  }

  lemma FromAt(table: seq<bool>, idx: nat, j: nat)
    requires |table| == 127
    ensures From(table, idx)(j) == table[(idx + j) % 127]
  {}

  lemma OnePlaceOn(idx: nat, j: nat)
    ensures ((idx + j) % 127 + 1) % 127 == (idx + (j + 1)) % 127
  {}

  /** The inner loop for a byte of data; next is the place in the table after it. */
  method PutWhitened(table: seq<bool>, txbuf: array<u8>, at: nat, b: u8, idx: nat) returns (next: nat)
    requires |table| == 127 && at < txbuf.Length && idx < 127
    modifies txbuf
    ensures txbuf[..] == old(txbuf[..])[at := Air(b, From(table, idx), 0)]
    ensures next == (idx + 8) % 127
  {
    txbuf[at] := 0;
    var byte: nat := b;
    next := idx;
    ghost var white := From(table, idx);
    StartByte(b, white);
    for j := 0 to 8
      invariant txbuf[..] == old(txbuf[..])[at := txbuf[at]]
      invariant Left(byte, b, j) && Placed(txbuf[at], b, white, j)
      invariant next == (idx + j) % 127
    {
      FromAt(table, idx, j);
      var bit := XorLow(byte, table[next]);
      PlaceBit(txbuf[at], byte, b, white, j, bit);
      OnePlaceOn(idx, j);
      next := (next + 1) % 127;
      byte := byte / 2;
      txbuf[at] := Or(txbuf[at], bit * Pow2(7 - j));
    }
    PlacedIsAir(txbuf[at], b, white);
  }

  lemma LaterByte(table: seq<bool>, idx: nat, b: u8, i: nat)
    requires |table| == 127
    ensures Air(b, From(table, (idx + 8 * i) % 127), 0) == Air(b, From(table, idx), i)
  {
    var later, white := From(table, (idx + 8 * i) % 127), From(table, idx);
    forall k | 0 <= k < 8 ensures Bit(Air(b, later, 0), k) == Bit(Air(b, white, i), k) {
      PlaceAfter(idx + 8 * i, 7 - k);
      FromAt(table, (idx + 8 * i) % 127, 7 - k);
      FromAt(table, idx, 8 * i + 7 - k);
    }
    SameByte(Air(b, later, 0), Air(b, white, i));
  }

  lemma PlaceAfter(a: nat, j: nat)
    ensures (a % 127 + j) % 127 == (a + j) % 127
  {}

  lemma NextByte(idx: nat, i: nat)
    ensures ((idx + 8 * i) % 127 + 8) % 127 == (idx + 8 * (i + 1)) % 127
  {}

  /** The loop over the access address. */
  method PutAddress(txbuf: array<u8>, aa: u32)
    requires txbuf.Length == 64
    modifies txbuf
    ensures txbuf[..4] == Frame(aa, [], _ => false) && txbuf[4..] == old(txbuf[4..])
  {
    var rest: nat := aa;
    for i := 0 to 4
      invariant forall m :: 0 <= m < i ==> txbuf[m] == Reversed(AddressBytes(aa)[m])
      invariant txbuf[4..] == old(txbuf[4..])
      invariant rest == Shr(aa, 8 * i)
    {
      AddressByte(aa, i);
      PutReversed(txbuf, i, Low(rest, 8));
      ShrTwice(aa, 8 * i, 8);
      rest := Shr(rest, 8);
    }
  }

  lemma {:induction false} ShrTwice(s: nat, n: nat, m: nat)
    ensures Shr(Shr(s, n), m) == Shr(s, n + m)
    decreases n
  {
    if n > 0 {
      ShrTwice(s / 2, n - 1, m);
    }
  }

  lemma AddressByte(aa: nat, i: nat)
    requires i < 4
    ensures Low(Shr(aa, 8 * i), 8) == AddressBytes(aa)[i]
  {
    Pow2Values();
    LowRange(Shr(aa, 8 * i), 8);
    forall k | 0 <= k < 8 ensures Bit(Low(Shr(aa, 8 * i), 8), k) == Bit(AddressBytes(aa)[i], k) {
      BitLow(Shr(aa, 8 * i), 8, k);
      BitShr(aa, 8 * i, k);
    }
    SameByte(Low(Shr(aa, 8 * i), 8), AddressBytes(aa)[i]);
  }

  /** The loop over the data. */
  method PutData(table: seq<bool>, txbuf: array<u8>, data: seq<u8>, start: nat)
    requires |table| == 127 && txbuf.Length == 64 && |data| <= 60 && start < 127
    modifies txbuf
    ensures txbuf[..4] == old(txbuf[..4])
    ensures txbuf[..4 + |data|] == txbuf[..4] + Frame(0, data, From(table, start))[4..]
  {
    var idx := start;
    for i := 0 to |data|
      invariant txbuf[..4] == old(txbuf[..4])
      invariant forall m :: 0 <= m < i ==> txbuf[m + 4] == Air(data[m], From(table, start), m)
      invariant idx == (start + 8 * i) % 127
    {
      LaterByte(table, start, data[i], i);
      NextByte(start, i);
      idx := PutWhitened(table, txbuf, i + 4, data[i], idx);
    }
    DataPlaced(txbuf[..], data, From(table, start));
    assert txbuf[..][..4 + |data|] == txbuf[..4 + |data|] && txbuf[..][..4] == txbuf[..4];
  }

  lemma DataPlaced(buffer: seq<u8>, data: seq<u8>, white: nat -> bool)
    requires 4 + |data| <= |buffer| && forall m :: 0 <= m < |data| ==> buffer[m + 4] == Air(data[m], white, m)
    ensures buffer[..4 + |data|] == buffer[..4] + Frame(0, data, white)[4..]
  {
    var frame := Frame(0, data, white);
    forall m | 0 <= m < |data| ensures frame[4..][m] == buffer[m + 4] {
      assert frame[4..][m] == Air(data[m], white, m);
    }
  }

  /** The transmit FIFO takes the buffer in pieces of at most 16 bytes. */
  method Send(txbuf: array<u8>, len: nat) returns (fifo: seq<u8>)
    requires len <= txbuf.Length
    ensures fifo == txbuf[..len]
  {
    fifo := [];
    var i := 0;
    while i < len
      invariant 0 <= i && fifo == txbuf[..if i < len then i else len]
    {
      var txLen := len - i;
      if txLen > 16 {
        txLen := 16;
      }
      Chunk(txbuf[..], i, i + txLen);
      fifo := fifo + txbuf[i..i + txLen];
      i := i + 16;
    }
  }

  lemma FrameParts(aa: nat, data: seq<u8>, white: nat -> bool)
    ensures Frame(aa, data, white) == Frame(aa, [], _ => false) + Frame(0, data, white)[4..]
  {}

  method Transmit(table: seq<bool>, aa: u32, data: seq<u8>, start: nat) returns (fifo: seq<u8>)
    requires |table| == 127 && |data| <= 60 && start < 127
    ensures fifo == Frame(aa, data, From(table, start))
  {
    var txbuf := new u8[64];
    PutAddress(txbuf, aa);
    PutData(table, txbuf, data, start);
    FrameParts(aa, data, From(table, start));
    fifo := Send(txbuf, |data| + 4);
  }

  lemma Chunk(s: seq<u8>, i: nat, j: nat)
    requires i <= j <= |s|
    ensures s[..i] + s[i..j] == s[..j]
  {}

  /** whitening[] as a sequence. */
  function WhiteningTable(): (table: seq<bool>)
    ensures |table| == 127
  {
    seq(127, i requires 0 <= i < 127 => WhiteningBit(i))
  }

  /** The whitening of a channel, bit by bit. */
  function WhiteningOf(channel: nat): nat -> bool
    requires channel < 40
  {
    From(WhiteningTable(), WhiteningIndex(channel))
  }

  /** le_transmit up to the radio, with the 64-byte buffer it frames the packet in. */
  method LeTransmit(aa: u32, data: seq<u8>, channel: u16) returns (fifo: seq<u8>)
    requires |data| <= 60
    ensures fifo == Frame(aa, data, WhiteningOf(IndexOf(channel)))
  {
    fifo := Transmit(WhiteningTable(), aa, data, WhiteningIndex(IndexOf(channel)));
  }
}
