/**
 The basic-rate hop selection of the Bluetooth Core Specification, Vol 2 Part B
 section 2.6, as firmware/bluetooth_rxtx/bluetooth.c computes it with adaptive
 frequency hopping off.
*/
module BasicHop {
  import opened Words

  const CHANNELS: nat := 79

  // ----- The five-bit permutation -----

  type Five = z: seq<bool> | |z| == 5 witness seq(5, _ => false)

  function Index1(i: nat): (k: nat)
    requires i < 14
    ensures k < 5
  {
    [0, 2, 1, 3, 0, 1, 0, 3, 1, 0, 2, 1, 0, 1][i]
  }

  function Index2(i: nat): (k: nat)
    requires i < 14
    ensures k < 5
  {
    [1, 3, 2, 4, 4, 3, 2, 4, 4, 3, 4, 3, 3, 2][i]
  }

  function Swapped(z: Five, i: nat): Five
    requires i < 14
  {
    z[Index1(i) := z[Index2(i)]][Index2(i) := z[Index1(i)]]
  }

  /** One butterfly: the two bits change places if the control bit says so. */
  function Butterfly(z: Five, p: seq<bool>, i: nat): Five
    requires i < 14 && |p| == 14
  {
    if p[i] then Swapped(z, i) else z
  }

  /** The butterflies n - 1, n - 2, ..., 0. */
  function Down(z: Five, p: seq<bool>, n: nat): Five
    requires n <= 14 && |p| == 14
    decreases n, |z|
  {
    if n == 0 then z else Down(Butterfly(z, p, n - 1), p, n - 1)
  }

  /** The butterflies 0, 1, ..., n - 1. */
  function Up(z: Five, p: seq<bool>, n: nat): Five
    requires n <= 14 && |p| == 14
    decreases n, |z|
  {
    if n == 0 then z else Butterfly(Up(z, p, n - 1), p, n - 1)
  }

  lemma ButterflyTwice(z: Five, p: seq<bool>, i: nat)
    requires i < 14 && |p| == 14
    ensures Butterfly(Butterfly(z, p, i), p, i) == z
  {}

  /** The permutation is undone by its butterflies in the opposite order, under every control word. */
  lemma {:induction false} UpUndoesDown(z: Five, p: seq<bool>, n: nat)
    requires n <= 14 && |p| == 14
    ensures Up(Down(z, p, n), p, n) == z
    decreases n
  {
    if n > 0 {
      UpUndoesDown(Butterfly(z, p, n - 1), p, n - 1);
      ButterflyTwice(z, p, n - 1);
    }
  }

  lemma {:induction false} DownUndoesUp(z: Five, p: seq<bool>, n: nat)
    requires n <= 14 && |p| == 14
    ensures Down(Up(z, p, n), p, n) == z
    decreases n
  {
    if n > 0 {
      ButterflyTwice(Up(z, p, n - 1), p, n - 1);
      DownUndoesUp(z, p, n - 1);
    }
  }

  /** Two bits that change places if the control bit says so. */
  function Exchanged(z: Five, p: bool, i: nat, k: nat): Five
    requires i < 5 && k < 5
  {
    if p then z[i := z[k]][k := z[i]] else z
  }

  /** The seven stages of two exchanges each that the standard draws. */
  function Network(z: Five, p: seq<bool>): Five
    requires |p| == 14
  {
    var z1 := Exchanged(Exchanged(z, p[13], 1, 2), p[12], 0, 3);
    var z2 := Exchanged(Exchanged(z1, p[11], 1, 3), p[10], 2, 4);
    var z3 := Exchanged(Exchanged(z2, p[9], 0, 3), p[8], 1, 4);
    var z4 := Exchanged(Exchanged(z3, p[7], 3, 4), p[6], 0, 2);
    var z5 := Exchanged(Exchanged(z4, p[5], 1, 3), p[4], 0, 4);
    var z6 := Exchanged(Exchanged(z5, p[3], 3, 4), p[2], 1, 2);
    Exchanged(Exchanged(z6, p[1], 2, 3), p[0], 0, 1)
  }

  lemma Positions()
    ensures Index1(13) == 1 && Index2(13) == 2 && Index1(12) == 0 && Index2(12) == 3
    ensures Index1(11) == 1 && Index2(11) == 3 && Index1(10) == 2 && Index2(10) == 4
    ensures Index1(9) == 0 && Index2(9) == 3 && Index1(8) == 1 && Index2(8) == 4
    ensures Index1(7) == 3 && Index2(7) == 4 && Index1(6) == 0 && Index2(6) == 2
    ensures Index1(5) == 1 && Index2(5) == 3 && Index1(4) == 0 && Index2(4) == 4
    ensures Index1(3) == 3 && Index2(3) == 4 && Index1(2) == 1 && Index2(2) == 2
    ensures Index1(1) == 2 && Index2(1) == 3 && Index1(0) == 0 && Index2(0) == 1
  {}

  lemma DownStage(z: Five, p: seq<bool>, n: nat, i: nat, k: nat, j: nat, l: nat)
    requires 2 <= n <= 14 && |p| == 14 && i < 5 && k < 5 && j < 5 && l < 5
    requires Index1(n - 1) == i && Index2(n - 1) == k && Index1(n - 2) == j && Index2(n - 2) == l
    ensures Down(z, p, n) == Down(Exchanged(Exchanged(z, p[n - 1], i, k), p[n - 2], j, l), p, n - 2)
  {
    assert Butterfly(z, p, n - 1) == Exchanged(z, p[n - 1], i, k);
    var y := Exchanged(z, p[n - 1], i, k);
    assert Butterfly(y, p, n - 2) == Exchanged(y, p[n - 2], j, l);
    assert Down(y, p, n - 1) == Down(Butterfly(y, p, n - 2), p, n - 2);
  }

  /** The loop over the index tables is the network of the standard, for every input and every control word. */
  lemma DownIsNetwork(z: Five, p: seq<bool>)
    requires |p| == 14
    ensures Down(z, p, 14) == Network(z, p)
  {
    Positions();
    DownStage(z, p, 14, 1, 2, 0, 3);
    var z1 := Exchanged(Exchanged(z, p[13], 1, 2), p[12], 0, 3);
    DownStage(z1, p, 12, 1, 3, 2, 4);
    var z2 := Exchanged(Exchanged(z1, p[11], 1, 3), p[10], 2, 4);
    DownStage(z2, p, 10, 0, 3, 1, 4);
    var z3 := Exchanged(Exchanged(z2, p[9], 0, 3), p[8], 1, 4);
    DownStage(z3, p, 8, 3, 4, 0, 2);
    var z4 := Exchanged(Exchanged(z3, p[7], 3, 4), p[6], 0, 2);
    DownStage(z4, p, 6, 1, 3, 0, 4);
    var z5 := Exchanged(Exchanged(z4, p[5], 1, 3), p[4], 0, 4);
    DownStage(z5, p, 4, 3, 4, 1, 2);
    var z6 := Exchanged(Exchanged(z5, p[3], 3, 4), p[2], 1, 2);
    DownStage(z6, p, 2, 2, 3, 0, 1);
  }

  /** The control bits: nine from p_low, five from p_high. */
  function Controls(pHigh: nat, pLow: nat): (p: seq<bool>)
    ensures |p| == 14
  {
    LowBits(pLow, 9) + LowBits(pHigh, 5)
  }

  /** perm5 as a number. */
  function Permuted(z: nat, pHigh: nat, pLow: nat): (out: nat)
    ensures out < 32
  {
    FiveRange(Down(LowBits(z, 5), Controls(pHigh, pLow), 14));
    Value(Down(LowBits(z, 5), Controls(pHigh, pLow), 14))
  }

  lemma FiveRange(z: Five)
    ensures Value(z) < 32
  {
    ValueRange(z);
    assert Pow2(5) == 32;
  }

  lemma LowBitsOfValue(z: Five)
    ensures LowBits(Value(z), 5) == z
  {
    forall k | 0 <= k < 5 ensures LowBits(Value(z), 5)[k] == z[k] {
      BitValue(z, k);
    }
  }

  lemma ValueOfLowBits(s: nat)
    requires s < 32
    ensures Value(LowBits(s, 5)) == s
  {
    FiveRange(LowBits(s, 5));
    assert Pow2(5) == 32;
    forall k | 0 <= k < 5 ensures Bit(Value(LowBits(s, 5)), k) == Bit(s, k) {
      BitValue(LowBits(s, 5), k);
    }
    SameBits(Value(LowBits(s, 5)), s, 5);
  }

  /** For every control word perm5 is one-to-one on the numbers below 32. */
  lemma PermutedInjective(z: nat, w: nat, pHigh: nat, pLow: nat)
    requires z < 32 && w < 32 && Permuted(z, pHigh, pLow) == Permuted(w, pHigh, pLow)
    ensures z == w
  {
    var p := Controls(pHigh, pLow);
    LowBitsOfValue(Down(LowBits(z, 5), p, 14));
    LowBitsOfValue(Down(LowBits(w, 5), p, 14));
    UpUndoesDown(LowBits(z, 5), p, 14);
    UpUndoesDown(LowBits(w, 5), p, 14);
    ValueOfLowBits(z);
    ValueOfLowBits(w);
  }

  /** And onto them. */
  lemma PermutedOnto(out: nat, pHigh: nat, pLow: nat) returns (z: nat)
    requires out < 32
    ensures z < 32 && Permuted(z, pHigh, pLow) == out
  {
    var p := Controls(pHigh, pLow);
    var source := Up(LowBits(out, 5), p, 14);
    z := Value(source);
    FiveRange(source);
    LowBitsOfValue(source);
    DownUndoesUp(LowBits(out, 5), p, 14);
    ValueOfLowBits(out);
  }

  /** The loops that take a number apart into an array of bits. */
  method TakeApart(bits: array<bool>, from: nat, n: nat, s: nat)
    requires from + n <= bits.Length
    modifies bits
    ensures bits[..] == old(bits[..from]) + LowBits(s, n) + old(bits[from + n..])
  {
    for i := 0 to n
      invariant forall k :: from <= k < from + i ==> bits[k] == Bit(s, k - from)
      invariant bits[..from] == old(bits[..from]) && bits[from + n..] == old(bits[from + n..])
    {
      bits[from + i] := Bit(s, i);
    }
    assert bits[from..from + n] == LowBits(s, n);
    assert bits[..] == bits[..from] + bits[from..from + n] + bits[from + n..];
  }

  /** The butterflies, on the bits in place. */
  method Butterflies(zBit: array<bool>, p: seq<bool>)
    requires zBit.Length == 5 && |p| == 14
    modifies zBit
    ensures zBit[..] == Down(old(zBit[..]), p, 14)
  {
    var i := 14;
    while i > 0
      invariant 0 <= i <= 14
      invariant Down(zBit[..], p, i) == Down(old(zBit[..]), p, 14)
    {
      i := i - 1;
      ghost var before := zBit[..];
      if p[i] {
        var tmp := zBit[Index1(i)];
        zBit[Index1(i)] := zBit[Index2(i)];
        zBit[Index2(i)] := tmp;
      }
      assert zBit[..] == Butterfly(before, p, i);
    }
  }

  method Perm5(zIn: u8, pHighIn: u8, pLowIn: u16) returns (output: u8)
    ensures output == Permuted(zIn, pHighIn, pLowIn)
  {
    MaskedBits(zIn, 5);
    MaskedBits(pHighIn, 5);
    MaskedBits(pLowIn, 9);
    var p := new bool[14];
    TakeApart(p, 0, 9, Low(pLowIn, 9));
    TakeApart(p, 9, 5, Low(pHighIn, 5));
    assert p[..] == Controls(pHighIn, pLowIn);
    var zBit := new bool[5];
    TakeApart(zBit, 0, 5, Low(zIn, 5));
    assert zBit[..] == LowBits(zIn, 5);
    Butterflies(zBit, p[..]);
    output := FiveBits(zBit);
  }

  lemma MaskedBits(s: nat, n: nat)
    ensures LowBits(Low(s, n), n) == LowBits(s, n)
  {
    forall k | 0 <= k < n ensures Bit(Low(s, n), k) == Bit(s, k) {
      BitLow(s, n, k);
    }
  }

  /** The loop that puts the five bits together again. */
  method FiveBits(zBit: array<bool>) returns (output: u8)
    requires zBit.Length == 5
    ensures output == Value(zBit[..])
  {
    output := 0;
    assert zBit[..0] == [];
    for i := 0 to 5
      invariant output == Value(zBit[..i]) < Pow2(i)
    {
      ValueAppend(zBit[..i], zBit[i]);
      assert zBit[..i + 1] == zBit[..i] + [zBit[i]];
      assert Pow2(i + 1) == 2 * Pow2(i);
      assert Pow2(5) == 32;
      Pow2Grows(i, 4);
      output := output + (if zBit[i] then 1 else 0) * Pow2(i);
    }
    assert zBit[..5] == zBit[..];
  }

  lemma {:induction false} ValueAppend(bits: seq<bool>, b: bool)
    ensures Value(bits + [b]) == Value(bits) + (if b then 1 else 0) * Pow2(|bits|)
  {
    if bits != [] {
      assert (bits + [b])[1..] == bits[1..] + [b];
      ValueAppend(bits[1..], b);
    } else {
      assert (bits + [b])[1..] == [];
    }
  }

  // ----- Precalculation -----

  /** The values that depend on the address alone. */
  datatype Params = Params(a1: u8, b: u8, c1: u8, d1: u16, e: u8)

  /** Bit k of the address at another place of a number. */
  function Moved(address: u32, k: nat, place: nat): nat {
    if Bit(address, k) then Pow2(place) else 0
  }

  lemma FieldRange(s: nat, n: nat)
    requires n <= 9
    ensures Low(s, n) < 512
    ensures n <= 5 ==> Low(s, n) < 32
  {
    LowRange(s, n);
    Pow2Grows(n, 9);
    assert Pow2(5) == 32 && Pow2(9) == 512;
    if n <= 5 {
      Pow2Grows(n, 5);
    }
  }

  function ParamsOf(address: u32): (h: Params)
    ensures h.b < 32
  {
    FieldRange(Shr(address, 23), 5);
    FieldRange(Shr(address, 19), 4);
    FieldRange(Shr(address, 10), 9);
    assert Pow2(1) == 2 && Pow2(2) == 4 && Pow2(3) == 8 && Pow2(4) == 16 && Pow2(5) == 32 && Pow2(6) == 64;
    Params(Low(Shr(address, 23), 5), Low(Shr(address, 19), 4),
           Moved(address, 8, 4) + Moved(address, 6, 3) + Moved(address, 4, 2) + Moved(address, 2, 1) + Moved(address, 0, 0),
           Low(Shr(address, 10), 9),
           Moved(address, 13, 6) + Moved(address, 11, 5) + Moved(address, 9, 4) + Moved(address, 7, 3)
           + Moved(address, 5, 2) + Moved(address, 3, 1) + Moved(address, 1, 0))
  }

  /** Entry i of the frequency register bank. */
  function Bank(i: nat): (channel: nat)
    ensures channel < CHANNELS
  {
    (i * 2) % CHANNELS
  }

  lemma BankInjective(i: nat, j: nat)
    requires i < CHANNELS && j < CHANNELS && Bank(i) == Bank(j)
    ensures i == j
  {}

  lemma BankOnto(channel: nat) returns (i: nat)
    requires channel < CHANNELS
    ensures i < CHANNELS && Bank(i) == channel
  {
    i := if channel % 2 == 0 then channel / 2 else (channel + CHANNELS) / 2;
  }

  // ----- The hop selection -----

  function X(clock: u32): nat {
    Low(Shr(clock, 2), 5)
  }

  function Y1(clock: u32): nat {
    Low(Shr(clock, 1), 1)
  }

  /** The inputs of the hop that depend on bits 27 to 7 of the clock alone. */
  datatype Segment = Segment(a: nat, c: nat, d: nat, f: nat)

  function SegmentOf(h: Params, clock: u32): Segment {
    Segment(Low(Xor(h.a1, Shr(clock, 21)), 5), Low(Xor(h.c1, Shr(clock, 16)), 5), Low(Xor(h.d1, Shr(clock, 7)), 9),
            And(Shr(clock, 3), 0x1ff_fff0) % CHANNELS)
  }

  function Perm(h: Params, g: Segment, x: nat, y1: nat): (perm: nat)
    ensures perm < 32
  {
    Permuted(Xor((x + g.a) % 32, h.b), Xor(y1 * 0x1f, g.c), g.d)
  }

  /** Where in the register bank the hop of a slot is. */
  function Place(h: Params, g: Segment, x: nat, y1: nat): nat {
    (Perm(h, g, x, y1) + h.e + g.f + 32 * y1) % CHANNELS
  }

  /** next_hop. */
  function HopAt(h: Params, clock: u32): (frequency: nat)
    ensures 2402 <= frequency <= 2480
  {
    2402 + Bank(Place(h, SegmentOf(h, clock), X(clock), Y1(clock)))
  }

  /** Two clocks agree on bits 27 to 7. */
  ghost predicate SameSegment(c: nat, d: nat) {
    forall k :: 7 <= k < 28 ==> Bit(c, k) == Bit(d, k)
  }

  /** Two clocks agree on bits 6 to 1. */
  ghost predicate SameSlot(c: nat, d: nat) {
    forall k :: 1 <= k < 7 ==> Bit(c, k) == Bit(d, k)
  }

  lemma SameField(m: nat, c: nat, d: nat, n: nat, w: nat)
    requires forall k :: n <= k < n + w ==> Bit(c, k) == Bit(d, k)
    ensures Low(Xor(m, Shr(c, n)), w) == Low(Xor(m, Shr(d, n)), w)
  {
    var u, v := Low(Xor(m, Shr(c, n)), w), Low(Xor(m, Shr(d, n)), w);
    LowRange(Xor(m, Shr(c, n)), w);
    LowRange(Xor(m, Shr(d, n)), w);
    forall k | 0 <= k < w ensures Bit(u, k) == Bit(v, k) {
      FieldBit(m, c, n, w, k);
      FieldBit(m, d, n, w, k);
    }
    SameBits(u, v, w);
  }

  lemma FieldBit(m: nat, c: nat, n: nat, w: nat, k: nat)
    requires k < w
    ensures Bit(Low(Xor(m, Shr(c, n)), w), k) == (Bit(m, k) != Bit(c, n + k))
  {
    BitLow(Xor(m, Shr(c, n)), w, k);
    BitXor(m, Shr(c, n), k);
    BitShr(c, n, k);
  }

  /** The bits of 2^n - 1. */
  lemma {:induction false} OnesBit(n: nat, k: nat)
    ensures Bit(Pow2(n) - 1, k) == (k < n)
    decreases k
  {
    if n == 0 {
      BitZero(k);
    } else if k > 0 {
      assert (Pow2(n) - 1) / 2 == Pow2(n - 1) - 1;
      OnesBit(n - 1, k - 1);
    }
  }

  lemma ClockMaskBit(k: nat)
    ensures Bit(0x1ff_fff0, k) == (4 <= k < 25)
  {
    Pow2Values();
    assert Pow2(21) == 0x20_0000 && Pow2(4) == 16;
    BitShl(0x1f_ffff, 4, k);
    if k >= 4 {
      OnesBit(21, k - 4);
    }
  }

  lemma SameBase(c: nat, d: nat)
    requires SameSegment(c, d)
    ensures And(Shr(c, 3), 0x1ff_fff0) == And(Shr(d, 3), 0x1ff_fff0)
  {
    var u, v := And(Shr(c, 3), 0x1ff_fff0), And(Shr(d, 3), 0x1ff_fff0);
    AndRange(Shr(c, 3), 0x1ff_fff0);
    AndRange(Shr(d, 3), 0x1ff_fff0);
    Pow2Values();
    forall k | 0 <= k < 32 ensures Bit(u, k) == Bit(v, k) {
      BitAnd(Shr(c, 3), 0x1ff_fff0, k);
      BitAnd(Shr(d, 3), 0x1ff_fff0, k);
      ClockMaskBit(k);
      BitShr(c, 3, k);
      BitShr(d, 3, k);
      assert 4 <= k < 25 ==> Bit(c, k + 3) == Bit(d, k + 3);
    }
    SameBits(u, v, 32);
  }

  lemma SameSegmentValues(h: Params, c: u32, d: u32)
    requires SameSegment(c, d)
    ensures SegmentOf(h, c) == SegmentOf(h, d)
  {
    SameField(h.a1, c, d, 21, 5);
    SameField(h.c1, c, d, 16, 5);
    SameField(h.d1, c, d, 7, 9);
    SameBase(c, d);
  }

  lemma XorInjective(u: nat, v: nat, b: nat)
    requires u < 32 && v < 32 && b < 32 && Xor(u, b) == Xor(v, b)
    ensures u == v
  {}

  lemma XorBelow32(u: nat, b: nat)
    requires u < 32 && b < 32
    ensures Xor(u, b) < 32
  {
    assert Pow2(5) == 32;
    XorRange(u, b, 5);
  }

  lemma PermInjective(h: Params, g: Segment, x: nat, x': nat, y1: nat)
    requires h.b < 32 && x < 32 && x' < 32 && Perm(h, g, x, y1) == Perm(h, g, x', y1)
    ensures x == x'
  {
    var u, v := (x + g.a) % 32, (x' + g.a) % 32;
    XorBelow32(u, h.b);
    XorBelow32(v, h.b);
    PermutedInjective(Xor(u, h.b), Xor(v, h.b), Xor(y1 * 0x1f, g.c), g.d);
    XorInjective(u, v, h.b);
    SameSum(x, x', g.a);
  }

  lemma SameSum(x: nat, y: nat, a: nat)
    requires x < 32 && y < 32 && (x + a) % 32 == (y + a) % 32
    ensures x == y
  {}

  lemma PlaceInjective(h: Params, g: Segment, x: nat, y1: nat, x': nat, y1': nat)
    requires h.b < 32 && x < 32 && x' < 32 && y1 < 2 && y1' < 2
    requires Place(h, g, x, y1) == Place(h, g, x', y1')
    ensures x == x' && y1 == y1'
  {
    var p, p' := Perm(h, g, x, y1), Perm(h, g, x', y1');
    SamePlace(p + 32 * y1, p' + 32 * y1', h.e + g.f);
    PermInjective(h, g, x, x', y1);
  }

  lemma SamePlace(u: nat, v: nat, m: nat)
    requires u < 64 && v < 64 && (u + m) % CHANNELS == (v + m) % CHANNELS
    ensures u == v
  {}

  lemma SlotFields(c: u32, d: u32)
    ensures X(c) < 32 && Y1(c) < 2
    ensures X(c) == X(d) && Y1(c) == Y1(d) <==> SameSlot(c, d)
  {
    FieldRange(Shr(c, 2), 5);
    LowRange(Shr(c, 1), 1);
    forall k | 0 <= k < 5 ensures Bit(X(c), k) == Bit(c, 2 + k) && Bit(X(d), k) == Bit(d, 2 + k) {
      BitLow(Shr(c, 2), 5, k);
      BitLow(Shr(d, 2), 5, k);
      BitShr(c, 2, k);
      BitShr(d, 2, k);
    }
    TakenBit(c, 1);
    TakenBit(d, 1);
    if X(c) == X(d) && Y1(c) == Y1(d) {
      forall k | 1 <= k < 7 ensures Bit(c, k) == Bit(d, k) {
        assert k >= 2 ==> Bit(X(c), k - 2) == Bit(X(d), k - 2);
      }
    }
    if SameSlot(c, d) {
      FieldRange(Shr(d, 2), 5);
      assert Pow2(5) == 32;
      forall k | 0 <= k < 5 ensures Bit(X(c), k) == Bit(X(d), k) {
        assert Bit(c, 2 + k) == Bit(d, 2 + k);
      }
      SameBits(X(c), X(d), 5);
    }
  }

  /**
   Within a segment of 64 slots, for every address, two clocks hop to the same
   frequency exactly when they are in the same slot.
  */
  lemma SegmentHops(address: u32, c: u32, d: u32)
    requires SameSegment(c, d)
    ensures HopAt(ParamsOf(address), c) == HopAt(ParamsOf(address), d) <==> SameSlot(c, d)
  {
    var h := ParamsOf(address);
    SameSegmentValues(h, c, d);
    SlotFields(c, d);
    SlotFields(d, c);
    var g := SegmentOf(h, c);
    if HopAt(h, c) == HopAt(h, d) {
      BankInjective(Place(h, g, X(c), Y1(c)), Place(h, g, X(d), Y1(d)));
      PlaceInjective(h, g, X(c), Y1(c), X(d), Y1(d));
    }
  }

  // ----- The 64 slots of a segment -----

  /** The clock of slot n of a segment. */
  function SlotClock(segment: nat, n: nat): nat {
    128 * segment + 2 * n
  }

  lemma SlotClockBit(segment: nat, n: nat, k: nat)
    requires n < 64
    ensures Bit(SlotClock(segment, n), k) == if k == 0 then false else if k < 7 then Bit(n, k - 1) else Bit(segment, k - 7)
  {
    assert Pow2(6) == 64;
    if k > 0 {
      assert SlotClock(segment, n) / 2 == segment * 64 + n;
      AddLow(segment, n, 6, k - 1);
    }
  }

  /** The 64 slots of a segment use 64 different channels. */
  lemma SegmentChannels(address: u32, segment: nat, n: nat, m: nat)
    requires segment < 0x200_0000 && n < m < 64
    ensures HopAt(ParamsOf(address), SlotClock(segment, n)) != HopAt(ParamsOf(address), SlotClock(segment, m))
  {
    var c, d := SlotClock(segment, n), SlotClock(segment, m);
    forall k | 7 <= k < 28 ensures Bit(c, k) == Bit(d, k) {
      SlotClockBit(segment, n, k);
      SlotClockBit(segment, m, k);
    }
    SegmentHops(address, c, d);
    if SameSlot(c, d) {
      SlotOnce(segment, n, m);
    }
  }

  lemma SlotOnce(segment: nat, n: nat, m: nat)
    requires n < 64 && m < 64 && SameSlot(SlotClock(segment, n), SlotClock(segment, m))
    ensures n == m
  {
    assert Pow2(6) == 64;
    forall k | 0 <= k < 6 ensures Bit(n, k) == Bit(m, k) {
      SlotClockBit(segment, n, k + 1);
      SlotClockBit(segment, m, k + 1);
      assert Bit(SlotClock(segment, n), k + 1) == Bit(SlotClock(segment, m), k + 1);
    }
    SameBits(n, m, 6);
  }

  // ----- The hop selection of the standard -----

  /** The inputs of the selection kernel as the standard names them: bits of the address and of the clock. */
  function InputA(address: u32, clock: u32): seq<bool> {
    seq(5, k requires 0 <= k < 5 => Bit(address, 23 + k) != Bit(clock, 21 + k))
  }

  function InputB(address: u32): seq<bool> {
    seq(4, k requires 0 <= k < 4 => Bit(address, 19 + k))
  }

  function InputC(address: u32, clock: u32): seq<bool> {
    seq(5, k requires 0 <= k < 5 => Bit(address, 2 * k) != Bit(clock, 16 + k))
  }

  function InputD(address: u32, clock: u32): seq<bool> {
    seq(9, k requires 0 <= k < 9 => Bit(address, 10 + k) != Bit(clock, 7 + k))
  }

  function InputE(address: u32): seq<bool> {
    seq(7, k requires 0 <= k < 7 => Bit(address, 2 * k + 1))
  }

  function InputF(clock: u32): nat {
    16 * (clock / 128 % 0x20_0000) % 79
  }

  /** The sum of X and A, exclusive-or B, is what the network permutes. */
  function Permutee(address: u32, clock: u32): Five {
    var sum := (clock / 4 % 32 + Value(InputA(address, clock))) % 32;
    seq(5, k requires 0 <= k < 5 => Bit(sum, k) != (k < 4 && InputB(address)[k]))
  }

  /** Its control word: D, and behind it C, inverted in the second half of a slot pair. */
  function Control(address: u32, clock: u32): (p: seq<bool>)
    ensures |p| == 14
  {
    InputD(address, clock) + seq(5, k requires 0 <= k < 5 => (clock / 2 % 2 == 1) != InputC(address, clock)[k])
  }

  /** Where in the register bank the hop is, and its frequency in MHz. */
  function FrequencyOf(perm: nat, e: nat, f: nat, y1: nat): nat {
    2402 + 2 * ((perm + e + f + 32 * y1) % 79) % 79
  }

  function StandardHop(address: u32, clock: u32): nat {
    FrequencyOf(Value(Network(Permutee(address, clock), Control(address, clock))), Value(InputE(address)), InputF(clock),
                clock / 2 % 2)
  }

  lemma WordOfBits(s: nat, bits: seq<bool>)
    requires s < Pow2(|bits|) && forall k :: 0 <= k < |bits| ==> Bit(s, k) == bits[k]
    ensures s == Value(bits)
  {
    ValueRange(bits);
    forall k | 0 <= k < |bits| ensures Bit(s, k) == Bit(Value(bits), k) {
      BitValue(bits, k);
    }
    SameBits(s, Value(bits), |bits|);
  }

  /** A field of the address exclusive-or a field of the clock. */
  lemma FieldIsBits(address: u32, m: nat, n: nat, clock: u32, c: nat, w: nat, bits: seq<bool>)
    requires |bits| == w && forall k :: 0 <= k < w ==> Bit(m, k) == Bit(address, n + k)
    requires forall k :: 0 <= k < w ==> bits[k] == (Bit(address, n + k) != Bit(clock, c + k))
    ensures Low(Xor(m, Shr(clock, c)), w) == Value(bits)
  {
    LowRange(Xor(m, Shr(clock, c)), w);
    forall k | 0 <= k < w ensures Bit(Low(Xor(m, Shr(clock, c)), w), k) == bits[k] {
      FieldBit(m, clock, c, w, k);
    }
    WordOfBits(Low(Xor(m, Shr(clock, c)), w), bits);
  }

  lemma LowShrBit(s: nat, n: nat, w: nat, k: nat)
    requires k < w
    ensures Bit(Low(Shr(s, n), w), k) == Bit(s, n + k)
  {
    BitLow(Shr(s, n), w, k);
    BitShr(s, n, k);
  }

  lemma SumOfFive(b: seq<bool>)
    requires |b| == 5
    ensures Value(b) == N(b[0]) + 2 * N(b[1]) + 4 * N(b[2]) + 8 * N(b[3]) + 16 * N(b[4])
  {
    assert b[3..][1..] == b[4..] && b[4..][1..] == [];
    assert Value(b[4..]) == N(b[4]) && Value(b[3..]) == N(b[3]) + 2 * Value(b[4..]);
    assert b[1..][1..] == b[2..] && b[2..][1..] == b[3..];
    assert Value(b[2..]) == N(b[2]) + 2 * Value(b[3..]) && Value(b[1..]) == N(b[1]) + 2 * Value(b[2..]);
  }

  lemma SumOfSeven(b: seq<bool>)
    requires |b| == 7
    ensures Value(b) == N(b[0]) + 2 * N(b[1]) + 4 * N(b[2]) + 8 * N(b[3]) + 16 * N(b[4]) + 32 * N(b[5]) + 64 * N(b[6])
  {
    ValueAppend(b[..6], b[6]);
    ValueAppend(b[..5], b[5]);
    SumOfFive(b[..5]);
    SmallPowers();
    assert b == b[..6] + [b[6]] && b[..6] == b[..5] + [b[5]];
  }

  function N(b: bool): nat {
    if b then 1 else 0
  }

  /** The sums of precalc put bits of the address side by side. */
  lemma SumsAreBits(address: u32)
    ensures ParamsOf(address).c1 == Value(seq(5, k requires 0 <= k < 5 => Bit(address, 2 * k)))
    ensures ParamsOf(address).e == Value(InputE(address))
  {
    SmallPowers();
    SumOfFive(seq(5, k requires 0 <= k < 5 => Bit(address, 2 * k)));
    SumOfSeven(InputE(address));
  }

  lemma FieldA(address: u32, clock: u32)
    ensures SegmentOf(ParamsOf(address), clock).a == Value(InputA(address, clock))
  {
    forall k | 0 <= k < 5 ensures Bit(Low(Shr(address, 23), 5), k) == Bit(address, 23 + k) {
      LowShrBit(address, 23, 5, k);
    }
    FieldIsBits(address, Low(Shr(address, 23), 5), 23, clock, 21, 5, InputA(address, clock));
  }

  lemma FieldC(address: u32, clock: u32)
    ensures SegmentOf(ParamsOf(address), clock).c == Value(InputC(address, clock))
  {
    var c1, bits := ParamsOf(address).c1, seq(5, k requires 0 <= k < 5 => Bit(address, 2 * k));
    SumsAreBits(address);
    LowRange(Xor(c1, Shr(clock, 16)), 5);
    forall k | 0 <= k < 5 ensures Bit(Low(Xor(c1, Shr(clock, 16)), 5), k) == InputC(address, clock)[k] {
      BitValue(bits, k);
      FieldBit(c1, clock, 16, 5, k);
    }
    WordOfBits(Low(Xor(c1, Shr(clock, 16)), 5), InputC(address, clock));
  }

  lemma FieldD(address: u32, clock: u32)
    ensures SegmentOf(ParamsOf(address), clock).d == Value(InputD(address, clock))
  {
    forall k | 0 <= k < 9 ensures Bit(Low(Shr(address, 10), 9), k) == Bit(address, 10 + k) {
      LowShrBit(address, 10, 9, k);
    }
    FieldIsBits(address, Low(Shr(address, 10), 9), 10, clock, 7, 9, InputD(address, clock));
  }

  lemma {:induction false} ShrIsQuotient(s: nat, n: nat)
    ensures Shr(s, n) == s / Pow2(n)
    decreases n
  {
    if n > 0 {
      ShrIsQuotient(s / 2, n - 1);
      HalfQuotient(s, Pow2(n - 1));
    }
  }

  lemma HalfQuotient(s: nat, p: nat)
    requires p > 0
    ensures s / (2 * p) == s / 2 / p
  {
    var q, r := s / 2 / p, s / 2 % p;
    assert s / 2 == p * q + r;
    assert s == (2 * p) * q + (2 * r + s % 2);
    QuotientUnique(s, 2 * p, q, 2 * r + s % 2);
  }

  lemma QuotientUnique(a: nat, n: nat, q: nat, r: nat)
    requires r < n && a == n * q + r
    ensures a / n == q
  {
    assert a == n * (a / n) + a % n;
    assert n * (a / n - q) == r - a % n;
    FarApart(n, a / n - q);
  }

  /** The masked clock is sixteen times its bits 27 to 7. */
  lemma BaseIsBits(clock: u32)
    ensures And(Shr(clock, 3), 0x1ff_fff0) == 16 * (clock / 128 % 0x20_0000)
  {
    var m, base := Low(Shr(clock, 7), 21), And(Shr(clock, 3), 0x1ff_fff0);
    LowIsRest(Shr(clock, 7), 21);
    ShrIsQuotient(clock, 7);
    Pow2Values();
    assert Pow2(21) == 0x20_0000 && Pow2(4) == 16;
    AndRange(Shr(clock, 3), 0x1ff_fff0);
    forall k | 0 <= k < 32 ensures Bit(base, k) == Bit(m * Pow2(4), k) {
      BitAnd(Shr(clock, 3), 0x1ff_fff0, k);
      ClockMaskBit(k);
      BitShr(clock, 3, k);
      BitShl(m, 4, k);
      if k >= 4 {
        BitLow(Shr(clock, 7), 21, k - 4);
        BitShr(clock, 7, k - 4);
      }
    }
    SameBits(base, m * Pow2(4), 32);
  }

  lemma SlotFieldsOfClock(clock: u32)
    ensures X(clock) == clock / 4 % 32 && Y1(clock) == clock / 2 % 2
  {
    SmallPowers();
    LowIsRest(Shr(clock, 2), 5);
    LowIsRest(Shr(clock, 1), 1);
    ShrIsQuotient(clock, 2);
    ShrIsQuotient(clock, 1);
  }

  lemma PermuteeBits(address: u32, clock: u32, sum: nat)
    requires sum == (clock / 4 % 32 + Value(InputA(address, clock))) % 32
    ensures LowBits(Xor(sum, ParamsOf(address).b), 5) == Permutee(address, clock)
  {
    var b := ParamsOf(address).b;
    forall k | 0 <= k < 5 ensures Bit(Xor(sum, b), k) == Permutee(address, clock)[k] {
      BitXor(sum, b, k);
      BitLow(Shr(address, 19), 4, k);
      BitShr(address, 19, k);
    }
  }

  lemma ControlBits(address: u32, clock: u32, y1: nat, c: nat, d: nat)
    requires y1 == clock / 2 % 2 && c == Value(InputC(address, clock)) && d == Value(InputD(address, clock))
    ensures Controls(Xor(y1 * 0x1f, c), d) == Control(address, clock)
  {
    SmallPowers();
    forall k | 0 <= k < 9 ensures Bit(d, k) == InputD(address, clock)[k] {
      BitValue(InputD(address, clock), k);
    }
    assert LowBits(d, 9) == InputD(address, clock);
    forall k | 0 <= k < 5 ensures Bit(Xor(y1 * 0x1f, c), k) == ((y1 == 1) != InputC(address, clock)[k]) {
      BitXor(y1 * 0x1f, c, k);
      BitValue(InputC(address, clock), k);
      BitZero(k);
      OnesBit(5, k);
    }
  }

  lemma PermOf(h: Params, g: Segment, x: nat, y1: nat, z: Five, p: seq<bool>, w: Five)
    requires |p| == 14 && LowBits(Xor((x + g.a) % 32, h.b), 5) == z && Controls(Xor(y1 * 0x1f, g.c), g.d) == p
    requires Down(z, p, 14) == w
    ensures Perm(h, g, x, y1) == Value(w)
  {}

  lemma PermIsStandard(address: u32, clock: u32, g: Segment, x: nat, y1: nat)
    requires x == clock / 4 % 32 && y1 == clock / 2 % 2
    requires g.a == Value(InputA(address, clock)) && g.c == Value(InputC(address, clock)) && g.d == Value(InputD(address, clock))
    ensures Perm(ParamsOf(address), g, x, y1) == Value(Down(Permutee(address, clock), Control(address, clock), 14))
  {
    PermuteeBits(address, clock, (x + g.a) % 32);
    ControlBits(address, clock, y1, g.c, g.d);
    PermOf(ParamsOf(address), g, x, y1, Permutee(address, clock), Control(address, clock),
           Down(Permutee(address, clock), Control(address, clock), 14));
  }

  lemma HopOf(h: Params, clock: u32, perm: nat, e: nat, f: nat, y1: nat)
    requires Perm(h, SegmentOf(h, clock), X(clock), Y1(clock)) == perm
    requires h.e == e && SegmentOf(h, clock).f == f && Y1(clock) == y1
    ensures HopAt(h, clock) == FrequencyOf(perm, e, f, y1)
  {}

  /** The hop of the firmware is the hop of the standard, for every address and every clock. */
  lemma HopIsStandard(address: u32, clock: u32)
    ensures HopAt(ParamsOf(address), clock) == StandardHop(address, clock)
  {
    FieldA(address, clock);
    FieldC(address, clock);
    FieldD(address, clock);
    BaseIsBits(clock);
    SlotFieldsOfClock(clock);
    SumsAreBits(address);
    var z, p := Permutee(address, clock), Control(address, clock);
    PermIsStandard(address, clock, SegmentOf(ParamsOf(address), clock), X(clock), Y1(clock));
    DownIsNetwork(z, p);
    HopOf(ParamsOf(address), clock, Value(Down(z, p, 14)), Value(InputE(address)), InputF(clock), clock / 2 % 2);
  }

  // ----- The firmware's form -----

  /** A mask of a single one. */
  lemma {:induction false} MaskIsBit(s: nat, k: nat)
    ensures And(s, Pow2(k)) == if Bit(s, k) then Pow2(k) else 0
    decreases k
  {
    AndParts(s, Pow2(k));
    if k > 0 {
      assert Pow2(k) / 2 == Pow2(k - 1);
      MaskIsBit(s / 2, k - 1);
    } else {
      assert And(s / 2, 0) == 0;
    }
  }

  lemma MaskIsMoved(address: u32, shift: nat, place: nat, mask: nat)
    requires mask == Pow2(place)
    ensures And(Shr(address, shift), mask) == Moved(address, shift + place, place) <= mask
  {
    MaskIsBit(Shr(address, shift), place);
    BitShr(address, shift, place);
  }

  lemma SmallPowers()
    ensures Pow2(0) == 1 && Pow2(1) == 2 && Pow2(2) == 4 && Pow2(3) == 8 && Pow2(4) == 16
    ensures Pow2(5) == 32 && Pow2(6) == 64 && Pow2(9) == 512
  {}

  /** The shifts and masks of precalc. */
  lemma AddressFields(address: u32)
    ensures And(Shr(address, 23), 0x1f) == Low(Shr(address, 23), 5) == ParamsOf(address).a1
    ensures And(Shr(address, 19), 0x0f) == Low(Shr(address, 19), 4) == ParamsOf(address).b
    ensures And(Shr(address, 10), 0x1ff) == Low(Shr(address, 10), 9) == ParamsOf(address).d1
    ensures And(Shr(address, 4), 0x10) + And(Shr(address, 3), 0x08) + And(Shr(address, 2), 0x04)
            + And(Shr(address, 1), 0x02) + And(address, 0x01) == ParamsOf(address).c1
    ensures And(Shr(address, 7), 0x40) + And(Shr(address, 6), 0x20) + And(Shr(address, 5), 0x10) + And(Shr(address, 4), 0x08)
            + And(Shr(address, 3), 0x04) + And(Shr(address, 2), 0x02) + And(Shr(address, 1), 0x01) == ParamsOf(address).e
  {
    SmallPowers();
    MaskIsLow(Shr(address, 23), 5, 0x1f);
    MaskIsLow(Shr(address, 19), 4, 0x0f);
    MaskIsLow(Shr(address, 10), 9, 0x1ff);
    EvenFields(address);
    OddFields(address);
  }

  lemma EvenFields(address: u32)
    ensures And(Shr(address, 4), 0x10) == Moved(address, 8, 4) && And(Shr(address, 3), 0x08) == Moved(address, 6, 3)
    ensures And(Shr(address, 2), 0x04) == Moved(address, 4, 2) && And(Shr(address, 1), 0x02) == Moved(address, 2, 1)
    ensures And(address, 0x01) == Moved(address, 0, 0)
  {
    SmallPowers();
    MaskIsMoved(address, 4, 4, 0x10);
    MaskIsMoved(address, 3, 3, 0x08);
    MaskIsMoved(address, 2, 2, 0x04);
    MaskIsMoved(address, 1, 1, 0x02);
    MaskIsMoved(address, 0, 0, 0x01);
  }

  lemma OddFields(address: u32)
    ensures And(Shr(address, 7), 0x40) == Moved(address, 13, 6) && And(Shr(address, 6), 0x20) == Moved(address, 11, 5)
    ensures And(Shr(address, 5), 0x10) == Moved(address, 9, 4) && And(Shr(address, 4), 0x08) == Moved(address, 7, 3)
    ensures And(Shr(address, 3), 0x04) == Moved(address, 5, 2) && And(Shr(address, 2), 0x02) == Moved(address, 3, 1)
    ensures And(Shr(address, 1), 0x01) == Moved(address, 1, 0)
  {
    SmallPowers();
    MaskIsMoved(address, 7, 6, 0x40);
    MaskIsMoved(address, 6, 5, 0x20);
    MaskIsMoved(address, 5, 4, 0x10);
    MaskIsMoved(address, 4, 3, 0x08);
    MaskIsMoved(address, 3, 2, 0x04);
    MaskIsMoved(address, 2, 1, 0x02);
    MaskIsMoved(address, 1, 0, 0x01);
  }

  class Hopping {
    const bank: array<nat>
    var a1: u8
    var b: u8
    var c1: u8
    var d1: u16
    var e: u8

    ghost function Values(): Params
      reads this
    {
      Params(a1, b, c1, d1, e)
    }

    ghost predicate BankFilled()
      reads this, bank
    {
      bank.Length == CHANNELS && forall i :: 0 <= i < CHANNELS ==> bank[i] == Bank(i)
    }

    constructor ()
      ensures bank.Length == CHANNELS && fresh(bank)
    {
      bank := new nat[CHANNELS](_ => 0);
    }

    method Precalc(address: u32)
      requires bank.Length == CHANNELS
      modifies this, bank
      ensures BankFilled() && Values() == ParamsOf(address)
    {
      for i := 0 to CHANNELS
        invariant forall k :: 0 <= k < i ==> bank[k] == Bank(k)
      {
        bank[i] := (i * 2) % CHANNELS;
      }
      AddressFields(address);
      a1 := And(Shr(address, 23), 0x1f);
      b := And(Shr(address, 19), 0x0f);
      c1 := And(Shr(address, 4), 0x10) + And(Shr(address, 3), 0x08) + And(Shr(address, 2), 0x04)
            + And(Shr(address, 1), 0x02) + And(address, 0x01);
      d1 := And(Shr(address, 10), 0x1ff);
      e := And(Shr(address, 7), 0x40) + And(Shr(address, 6), 0x20) + And(Shr(address, 5), 0x10) + And(Shr(address, 4), 0x08)
           + And(Shr(address, 3), 0x04) + And(Shr(address, 2), 0x02) + And(Shr(address, 1), 0x01);
    }

    method NextHop(clock: u32) returns (frequency: nat)
      requires BankFilled() && b < 32
      ensures frequency == HopAt(Values(), clock)
    {
      var place := Kernel(Params(a1, b, c1, d1, e), clock);
      var nextChannel := bank[place];
      frequency := 2402 + nextChannel;
    }
  }

  /** The shifts and masks of next_hop. */
  lemma ClockFields(h: Params, clock: u32)
    ensures And(Shr(clock, 2), 0x1f) == X(clock) && And(Shr(clock, 1), 0x01) == Y1(clock)
    ensures And(Xor(h.a1, Shr(clock, 21)), 0x1f) == SegmentOf(h, clock).a
    ensures And(Xor(h.c1, Shr(clock, 16)), 0x1f) == SegmentOf(h, clock).c
    ensures And(Xor(h.d1, Shr(clock, 7)), 0x1ff) == SegmentOf(h, clock).d
  {
    SmallPowers();
    MaskIsLow(Shr(clock, 2), 5, 0x1f);
    MaskIsLow(Shr(clock, 1), 1, 0x01);
    MaskIsLow(Xor(h.a1, Shr(clock, 21)), 5, 0x1f);
    MaskIsLow(Xor(h.c1, Shr(clock, 16)), 5, 0x1f);
    MaskIsLow(Xor(h.d1, Shr(clock, 7)), 9, 0x1ff);
  }

  /** The inputs of the selection, cut out of the clock. */
  method Inputs(h: Params, clock: u32) returns (x: nat, y1: nat, g: Segment)
    ensures x == X(clock) && y1 == Y1(clock) && g == SegmentOf(h, clock)
  {
    ClockFields(h, clock);
    x := And(Shr(clock, 2), 0x1f);
    y1 := And(Shr(clock, 1), 0x01);
    var a := And(Xor(h.a1, Shr(clock, 21)), 0x1f);
    var c := And(Xor(h.c1, Shr(clock, 16)), 0x1f);
    var d := And(Xor(h.d1, Shr(clock, 7)), 0x1ff);
    var f := And(Shr(clock, 3), 0x1ff_fff0) % 79;
    g := Segment(a, c, d, f);
  }

  /** The body of next_hop up to the look-up in the register bank. */
  method Kernel(h: Params, clock: u32) returns (place: nat)
    requires h.b < 32
    ensures place == Place(h, SegmentOf(h, clock), X(clock), Y1(clock)) < CHANNELS
  {
    var x, y1, g := Inputs(h, clock);
    var y2 := y1 * 32;
    ArgumentRanges(h, clock);
    var perm := Perm5(Xor((x + g.a) % 32, h.b), Xor(y1 * 0x1f, g.c), g.d);
    place := (perm + h.e + g.f + y2) % CHANNELS;
  }

  lemma ArgumentRanges(h: Params, clock: u32)
    requires h.b < 32
    ensures var g := SegmentOf(h, clock);
            Xor((X(clock) + g.a) % 32, h.b) < 32 && Xor(Y1(clock) * 0x1f, g.c) < 32 && g.d < 512
  {
    var g := SegmentOf(h, clock);
    XorBelow32((X(clock) + g.a) % 32, h.b);
    LowRange(Shr(clock, 1), 1);
    FieldRange(Xor(h.c1, Shr(clock, 16)), 5);
    XorBelow32(Y1(clock) * 0x1f, g.c);
    FieldRange(Xor(h.d1, Shr(clock, 7)), 9);
  }
}
