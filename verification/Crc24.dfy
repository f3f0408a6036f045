/**
 The link-layer CRC of firmware/bluetooth_rxtx/bluetooth_le.c.  The reference is
 the 24-cell linear feedback shift register of the Bluetooth Core Specification,
 Vol 6 Part B section 3.1.1; the firmware keeps that register in a u32 with
 position p of the register in bit 23 - p of the word.
*/
module Crc24 {
  import opened Words

  // ----- The shift register of the standard -----

  type Register = r: seq<bool> | |r| == 24 witness seq(24, _ => false)

  /** The positions the feedback is added to: x^24 + x^10 + x^9 + x^6 + x^4 + x^3 + x + 1. */
  predicate Tap(p: nat) {
    p == 0 || p == 1 || p == 3 || p == 4 || p == 6 || p == 9 || p == 10
  }

  function Shift(r: Register, b: bool): Register {
    var feedback := r[23] != b;
    seq(24, p requires 0 <= p < 24 => (p > 0 && r[p - 1]) != (Tap(p) && feedback))
  }

  function Run(r: Register, bits: seq<bool>): Register
    decreases |bits|
  {
    if bits == [] then r else Run(Shift(r, bits[0]), bits[1..])
  }

  /** The register a word of the firmware stands for. */
  function RegisterOf(s: nat): Register {
    seq(24, p requires 0 <= p < 24 => Bit(s, 23 - p))
  }

  /** The CRC of a byte string under an initial value (both in the firmware's bit order). */
  function Crc(init: nat, data: seq<u8>): Register {
    Run(RegisterOf(init), DataBits(data))
  }

  function Zeros(n: nat): seq<bool> {
    seq(n, _ => false)
  }

  function XorBits(a: seq<bool>, b: seq<bool>): (c: seq<bool>)
    requires |a| == |b|
    ensures |c| == |a|
  {
    seq(|a|, i requires 0 <= i < |a| => a[i] != b[i])
  }

  lemma {:induction false} RunAppend(r: Register, a: seq<bool>, b: seq<bool>)
    ensures Run(r, a + b) == Run(Run(r, a), b)
    decreases |a|
  {
    if a == [] {
      assert a + b == b;
    } else {
      assert (a + b)[1..] == a[1..] + b;
      RunAppend(Shift(r, a[0]), a[1..], b);
    }
  }

  /** Words below 2^24 that stand for the same register are equal. */
  lemma RegisterInjective(s: nat, t: nat)
    requires s < 0x100_0000 && t < 0x100_0000 && RegisterOf(s) == RegisterOf(t)
    ensures s == t
  {
    forall k | 0 <= k < 24 ensures Bit(s, k) == Bit(t, k) {
      assert RegisterOf(s)[23 - k] == RegisterOf(t)[23 - k];
    }
    SameBits24(s, t);
  }

  lemma RegisterXor(s: nat, t: nat)
    ensures RegisterOf(Xor(s, t)) == XorBits(RegisterOf(s), RegisterOf(t))
  {
    forall p | 0 <= p < 24 ensures RegisterOf(Xor(s, t))[p] == XorBits(RegisterOf(s), RegisterOf(t))[p] {
      BitXor(s, t, 23 - p);
    }
  }

  // ----- One step of the firmware's register -----

  /** The body of the inner loop of btle_calc_crc. */
  function StepWord(state: nat, b: bool): nat {
    if (state % 2 == 1) != b then Xor(Or(state / 2, 0x80_0000), 0x5a_6000) else state / 2
  }

  lemma {:induction false} MaskHalves(k: nat)
    requires k < 24
    ensures Shr(0x5a_6000, k) == match k
      case 0 => 0x5a6000
      case 1 => 0x2d3000
      case 2 => 0x169800
      case 3 => 0xb4c00
      case 4 => 0x5a600
      case 5 => 0x2d300
      case 6 => 0x16980
      case 7 => 0xb4c0
      case 8 => 0x5a60
      case 9 => 0x2d30
      case 10 => 0x1698
      case 11 => 0xb4c
      case 12 => 0x5a6
      case 13 => 0x2d3
      case 14 => 0x169
      case 15 => 0xb4
      case 16 => 0x5a
      case 17 => 0x2d
      case 18 => 0x16
      case 19 => 0xb
      case 20 => 0x5
      case 21 => 0x2
      case 22 => 0x1
      case _ => 0
  {
    if k > 0 {
      MaskHalves(k - 1);
      ShrNext(0x5a_6000, k - 1);
    }
  }

  lemma MaskBits(p: nat)
    requires p < 24
    ensures Bit(0x5a_6000, 23 - p) == (p != 0 && Tap(p))
  {
    BitIsShr(0x5a_6000, 23 - p);
    MaskHalves(23 - p);
  }

  lemma TopCellBit(p: nat)
    requires p < 24
    ensures Bit(0x80_0000, 23 - p) == (p == 0)
  {
    Pow2Values();
    BitOfPow2(23, 23 - p);
  }

  lemma StepRange(state: nat, b: bool)
    requires state < 0x100_0000
    ensures StepWord(state, b) < 0x100_0000
  {
    Range24(state / 2, 0x80_0000);
    Range24(Or(state / 2, 0x80_0000), 0x5a_6000);
  }

  lemma StepBit(state: nat, b: bool, p: nat)
    requires state < 0x100_0000 && p < 24
    ensures Bit(StepWord(state, b), 23 - p)
         == ((p > 0 && Bit(state, 24 - p)) != (Tap(p) && Bit(state, 0) != b))
  {
    BitXor(Or(state / 2, 0x80_0000), 0x5a_6000, 23 - p);
    BitOr(state / 2, 0x80_0000, 23 - p);
    MaskBits(p);
    TopCellBit(p);
    assert Bit(state / 2, 23 - p) == Bit(state, 24 - p);
    Word24HighClear(state, 24);
  }

  /** The firmware's step is the standard's shift. */
  lemma StepIsShift(state: nat, b: bool)
    requires state < 0x100_0000
    ensures RegisterOf(StepWord(state, b)) == Shift(RegisterOf(state), b)
  {
    forall p | 0 <= p < 24 ensures RegisterOf(StepWord(state, b))[p] == Shift(RegisterOf(state), b)[p] {
      StepBit(state, b, p);
    }
  }

  // ----- The bit-serial form -----

  lemma FirstBitRun(state: nat, cur: nat, n: nat)
    requires state < 0x100_0000 && n > 0
    ensures Run(RegisterOf(state), LowBits(cur, n))
         == Run(RegisterOf(StepWord(state, cur % 2 == 1)), LowBits(cur / 2, n - 1))
  {
    StepIsShift(state, cur % 2 == 1);
    assert LowBits(cur, n)[0] == (cur % 2 == 1);
    assert LowBits(cur, n)[1..] == LowBits(cur / 2, n - 1);
  }

  lemma FirstByteRun(r: Register, data: seq<u8>)
    requires data != []
    ensures Run(r, DataBits(data)) == Run(Run(r, LowBits(data[0], 8)), DataBits(data[1..]))
  {
    RunAppend(r, LowBits(data[0], 8), DataBits(data[1..]));
  }

  /** crc_init & 0xffffff. */
  lemma LowWordRegister(s: nat)
    ensures Low(s, 24) < 0x100_0000
    ensures RegisterOf(Low(s, 24)) == RegisterOf(s)
  {
    LowRange24(s);
    forall p | 0 <= p < 24 ensures RegisterOf(Low(s, 24))[p] == RegisterOf(s)[p] {
      BitLow(s, 24, 23 - p);
    }
  }

  /** The inner loop: eight turns, one for each bit of the byte. */
  method CalcByte(before: u32, b: u8) returns (state: u32)
    requires before < 0x100_0000
    ensures state < 0x100_0000
    ensures RegisterOf(state) == Run(RegisterOf(before), LowBits(b, 8))
  {
    state := before;
    var cur := b;
    for j := 0 to 8
      invariant state < 0x100_0000
      invariant Run(RegisterOf(state), LowBits(cur, 8 - j)) == Run(RegisterOf(before), LowBits(b, 8))
    {
      FirstBitRun(state, cur, 8 - j);
      StepRange(state, cur % 2 == 1);
      XorParity(state, cur);
      var nextBit := Low(Xor(state, cur), 1);
      cur := cur / 2;
      if nextBit != 0 {
        state := Xor(Or(state / 2, 0x80_0000), 0x5a_6000);
      } else {
        state := state / 2;
      }
    }
  }

  method CalcCrc(crcInit: u32, data: seq<u8>) returns (state: u32)
    ensures state < 0x100_0000
    ensures RegisterOf(state) == Crc(crcInit, data)
  {
    LowWordRegister(crcInit);
    state := Low(crcInit, 24);
    for i := 0 to |data|
      invariant state < 0x100_0000
      invariant Run(RegisterOf(state), DataBits(data[i..])) == Crc(crcInit, data)
    {
      FirstByteRun(RegisterOf(state), data[i..]);
      assert data[i..][1..] == data[i + 1..];
      state := CalcByte(state, data[i]);
    }
  }

  lemma XorParity(a: nat, b: nat)
    ensures Low(Xor(a, b), 1) == (if a % 2 == b % 2 then 0 else 1)
  {
    XorParts(a, b);
    assert Low(Xor(a, b), 1) == Xor(a, b) % 2;
  }

  // ----- Linearity -----

  lemma {:induction false} RunLinear(r: Register, q: Register, a: seq<bool>, b: seq<bool>)
    requires |a| == |b|
    ensures Run(XorBits(r, q), XorBits(a, b)) == XorBits(Run(r, a), Run(q, b))
    decreases |a|
  {
    if a != [] {
      assert Shift(XorBits(r, q), XorBits(a, b)[0]) == XorBits(Shift(r, a[0]), Shift(q, b[0]));
      assert XorBits(a, b)[1..] == XorBits(a[1..], b[1..]);
      RunLinear(Shift(r, a[0]), Shift(q, b[0]), a[1..], b[1..]);
    }
  }

  function XorBytes(a: seq<u8>, b: seq<u8>): (c: seq<u8>)
    requires |a| == |b|
    ensures |c| == |a|
  {
    seq(|a|, i requires 0 <= i < |a| => XorByte(a[i], b[i]))
  }

  function XorByte(a: u8, b: u8): u8 {
    Pow2Values();
    XorRange(a, b, 8);
    Xor(a, b)
  }

  lemma {:induction false} XorBytesBits(a: seq<u8>, b: seq<u8>)
    requires |a| == |b|
    ensures DataBits(XorBytes(a, b)) == XorBits(DataBits(a), DataBits(b))
  {
    if a != [] {
      assert XorBytes(a, b)[1..] == XorBytes(a[1..], b[1..]);
      XorBytesBits(a[1..], b[1..]);
      forall k | 0 <= k < 8 ensures LowBits(XorByte(a[0], b[0]), 8)[k] == XorBits(LowBits(a[0], 8), LowBits(b[0], 8))[k] {
        BitXor(a[0], b[0], k);
      }
    }
  }

  /** The CRC of a sum is the sum of the CRCs, for initial values and messages together. */
  lemma CrcLinear(s: nat, t: nat, a: seq<u8>, b: seq<u8>)
    requires |a| == |b|
    ensures Crc(Xor(s, t), XorBytes(a, b)) == XorBits(Crc(s, a), Crc(t, b))
  {
    RegisterXor(s, t);
    XorBytesBits(a, b);
    RunLinear(RegisterOf(s), RegisterOf(t), DataBits(a), DataBits(b));
  }

  // ----- Burst errors -----

  lemma ShiftKeepsApart(r: Register, q: Register, b: bool)
    requires r != q
    ensures Shift(r, b) != Shift(q, b)
  {
    var s, t := Shift(r, b), Shift(q, b);
    if r[23] != q[23] {
      assert s[0] != t[0];
    } else {
      var p :| 0 <= p < 24 && r[p] != q[p];
      assert s[p + 1] != t[p + 1];
    }
  }

  /** Different registers stay different under the same bits. */
  lemma {:induction false} RunKeepsApart(r: Register, q: Register, bits: seq<bool>)
    requires r != q
    ensures Run(r, bits) != Run(q, bits)
    decreases |bits|
  {
    if bits != [] {
      ShiftKeepsApart(r, q, bits[0]);
      RunKeepsApart(Shift(r, bits[0]), Shift(q, bits[0]), bits[1..]);
    }
  }

  lemma {:induction false} RunZeros(n: nat)
    ensures Run(Zeros(24), Zeros(n)) == Zeros(24)
  {
    if n > 0 {
      assert Zeros(n)[1..] == Zeros(n - 1);
      assert Shift(Zeros(24), false) == Zeros(24);
      RunZeros(n - 1);
    }
  }

  /** The register holds the given bits, first one in position 23, and zeros behind them. */
  ghost predicate Holds(r: Register, bits: seq<bool>) {
    forall p :: 0 <= p < 24 ==> r[p] == (23 - p < |bits| && bits[23 - p])
  }

  /** At most 24 bits bring the register to zero exactly when it already holds those bits. */
  lemma {:induction false} ReachesZero(r: Register, bits: seq<bool>)
    requires |bits| <= 24
    ensures Run(r, bits) == Zeros(24) <==> Holds(r, bits)
    decreases |bits|
  {
    if bits == [] {
      assert Holds(r, bits) ==> r == Zeros(24);
    } else {
      var n, rest := Shift(r, bits[0]), bits[1..];
      ReachesZero(n, rest);
      if Holds(n, rest) {
        assert !n[0];
        assert r[23] == bits[0];
        forall p | 0 <= p < 24 ensures r[p] == (23 - p < |bits| && bits[23 - p]) {
          if p < 23 {
            assert n[p + 1] == r[p];
          }
        }
      }
      if Holds(r, bits) {
        assert r[23] == bits[0];
        forall p | 0 <= p < 24 ensures n[p] == (23 - p < |rest| && rest[23 - p]) {
          if p > 0 {
            assert n[p] == r[p - 1];
          }
        }
      }
    }
  }

  /** The two messages differ, and only at positions lo..lo + 24. */
  ghost predicate BurstApart(a: seq<bool>, b: seq<bool>, lo: nat)
    requires |a| == |b|
  {
    a != b && forall i :: 0 <= i < |a| && (i < lo || i >= lo + 24) ==> a[i] == b[i]
  }

  /** A nonzero burst at the front takes the zero register away from zero, for good. */
  lemma FrontBurstChangesZero(burst: seq<bool>, n: nat, i: nat)
    requires i < |burst| <= 24 && burst[i]
    ensures Run(Zeros(24), burst + Zeros(n)) != Zeros(24)
  {
    RunAppend(Zeros(24), burst, Zeros(n));
    ReachesZero(Zeros(24), burst);
    assert burst[i] != Zeros(24)[23 - i];
    RunKeepsApart(Run(Zeros(24), burst), Zeros(24), Zeros(n));
    RunZeros(n);
  }

  lemma {:induction false} BurstChangesZero(d: seq<bool>, lo: nat, i: nat)
    requires lo <= i < |d| && i < lo + 24 && d[i]
    requires forall k :: 0 <= k < |d| && (k < lo || k >= lo + 24) ==> !d[k]
    ensures Run(Zeros(24), d) != Zeros(24)
    decreases lo
  {
    if lo == 0 {
      var hi := if 24 <= |d| then 24 else |d|;
      assert d == d[..hi] + Zeros(|d| - hi);
      FrontBurstChangesZero(d[..hi], |d| - hi, i);
    } else {
      assert !d[0];
      assert Shift(Zeros(24), false) == Zeros(24);
      BurstChangesZero(d[1..], lo - 1, i - 1);
    }
  }

  /** Every burst of at most 24 bits changes the CRC, whatever the initial value. */
  lemma BurstDetected(r: Register, a: seq<bool>, b: seq<bool>, lo: nat)
    requires |a| == |b| && BurstApart(a, b, lo)
    ensures Run(r, a) != Run(r, b)
  {
    var d := XorBits(a, b);
    RunLinear(r, r, a, b);
    assert XorBits(r, r) == Zeros(24);
    var i :| 0 <= i < |a| && a[i] != b[i];
    BurstChangesZero(d, lo, i);
    assert XorBits(Run(r, a), Run(r, a)) == Zeros(24);
  }

  // ----- The CRC run backwards -----

  function Reflect(r: Register): Register {
    seq(24, p requires 0 <= p < 24 => r[23 - p])
  }

  /** The body of the inner loop of btle_reverse_crc. */
  function UnstepWord(state: nat, b: bool): nat {
    var top := Shr(state, 23);
    var shifted := Or(Low(2 * state, 24), Xor(top, if b then 1 else 0));
    if top != 0 then Xor(shifted, 0xb4_c000) else shifted
  }

  lemma TopBitOf24(state: nat)
    requires state < 0x100_0000
    ensures Shr(state, 23) == (if Bit(state, 23) then 1 else 0)
  {
    Pow2Values();
    ShrRange(state, 23, 1);
    BitIsShr(state, 23);
  }

  lemma XorSingle(a: nat, b: nat)
    requires a < 2 && b < 2
    ensures Xor(a, b) == if a == b then 0 else 1
  {}

  lemma SingleBit(b: nat, k: nat)
    requires b < 2
    ensures Bit(b, k) == (k == 0 && b == 1)
  {}

  lemma UnstepRange(state: nat, b: bool)
    requires state < 0x100_0000
    ensures UnstepWord(state, b) < 0x100_0000
  {
    TopBitOf24(state);
    var low := Xor(Shr(state, 23), if b then 1 else 0);
    XorSingle(Shr(state, 23), if b then 1 else 0);
    LowRange24(2 * state);
    Range24(Low(2 * state, 24), low);
    Range24(Or(Low(2 * state, 24), low), 0xb4_c000);
  }

  lemma ShiftedInBit(state: nat, low: nat, k: nat)
    requires low < 2 && k < 24
    ensures Bit(Or(Low(2 * state, 24), low), k) == if k == 0 then low == 1 else Bit(state, k - 1)
  {
    SingleBit(low, k);
    BitOr(Low(2 * state, 24), low, k);
    BitLow(2 * state, 24, k);
  }

  lemma UnstepBit(state: nat, b: bool, k: nat)
    requires state < 0x100_0000 && k < 24
    ensures Bit(UnstepWord(state, b), k)
         == if k == 0 then Bit(state, 23) != b
            else Bit(state, k - 1) != (Bit(state, 23) && Bit(0x5a_6000, k - 1))
  {
    var low: nat := if Bit(state, 23) == b then 0 else 1;
    TopBitOf24(state);
    XorSingle(Shr(state, 23), if b then 1 else 0);
    ShiftedInBit(state, low, k);
    BitXor(Or(Low(2 * state, 24), low), 0xb4_c000, k);
    ReverseMaskBit(k);
  }

  /** The mask of the backward step is the mask of the forward step one bit further up. */
  lemma ReverseMaskBit(k: nat)
    ensures Bit(0xb4_c000, k) == (k > 0 && Bit(0x5a_6000, k - 1))
  {}

  /** A step backwards is undone by the standard's shift of the same bit. */
  lemma UnstepUndoes(state: nat, b: bool)
    requires state < 0x100_0000
    ensures Shift(RegisterOf(UnstepWord(state, b)), b) == RegisterOf(state)
  {
    var t := RegisterOf(UnstepWord(state, b));
    UnstepBit(state, b, 0);
    assert t[23] == (RegisterOf(state)[0] != b);
    forall p | 0 < p < 24 ensures t[p - 1] == (RegisterOf(state)[p] != (RegisterOf(state)[0] && Tap(p))) {
      UnstepBit(state, b, 24 - p);
      MaskBits(p);
    }
  }

  /** One bit back: the run over one more bit from the state before it. */
  lemma OneBitBack(state: nat, bits: seq<bool>, n: nat)
    requires state < 0x100_0000 && n < |bits|
    ensures UnstepWord(state, bits[n]) < 0x100_0000
    ensures Run(RegisterOf(UnstepWord(state, bits[n])), bits[n..]) == Run(RegisterOf(state), bits[n + 1..])
  {
    UnstepRange(state, bits[n]);
    UnstepUndoes(state, bits[n]);
    assert bits[n..][1..] == bits[n + 1..];
  }

  /** The inner loop of btle_reverse_crc: the state before a byte from the state after it. */
  method UnstepByte(after: u32, cur: u8) returns (state: u32)
    requires after < 0x100_0000
    ensures state < 0x100_0000
    ensures Run(RegisterOf(state), LowBits(cur, 8)) == RegisterOf(after)
  {
    state := after;
    ghost var bits := LowBits(cur, 8);
    for j := 0 to 8
      invariant state < 0x100_0000
      invariant Run(RegisterOf(state), bits[8 - j..]) == RegisterOf(after)
    {
      OneBitBack(state, bits, 7 - j);
      TakenBit(cur, 7 - j);
      state := UnstepWord(state, Low(Shr(cur, 7 - j), 1) == 1);
    }
  }

  lemma InitialValueUnique(r: Register, data: seq<u8>, crc: Register)
    requires Run(r, DataBits(data)) == crc
    ensures forall init: nat :: Crc(init, data) == crc ==> RegisterOf(init) == r
  {
    forall init: nat | RegisterOf(init) != r ensures Crc(init, data) != crc {
      RunKeepsApart(RegisterOf(init), r, DataBits(data));
    }
  }

  /**
   Runs the CRC in reverse: from the CRC of data back to the initial value it was
   computed from, which comes out bit-reversed.
  */
  method ReverseCrc(crc: u32, data: seq<u8>) returns (ret: u32)
    requires crc < 0x100_0000
    ensures ret < 0x100_0000
    ensures Run(Reflect(RegisterOf(ret)), DataBits(data)) == RegisterOf(crc)
    ensures forall init: nat :: Crc(init, data) == RegisterOf(crc) ==> RegisterOf(ret) == Reflect(RegisterOf(init))
  {
    var state: u32 := crc;
    var i := |data|;
    assert data[i..] == [];
    while i > 0
      invariant 0 <= i <= |data|
      invariant state < 0x100_0000
      invariant Run(RegisterOf(state), DataBits(data[i..])) == RegisterOf(crc)
    {
      i := i - 1;
      state := UnstepByte(state, data[i]);
      FirstByteRun(RegisterOf(state), data[i..]);
      assert data[i..][1..] == data[i + 1..];
    }
    assert data[0..] == data;
    ret := Reverse24(state);
    assert Reflect(Reflect(RegisterOf(state))) == RegisterOf(state);
    InitialValueUnique(RegisterOf(state), data, RegisterOf(crc));
  }

  /** One round of the reversing loop: bit i of the word goes to place 23 - i. */
  lemma ReverseRound(acc: nat, state: nat, i: nat)
    requires acc < 0x100_0000 && i < 24
    requires forall k: nat :: k < 24 ==> Bit(acc, k) == (k > 23 - i && Bit(state, 23 - k))
    ensures Or(acc, Low(Shr(state, i), 1) * Pow2(23 - i)) < 0x100_0000
    ensures var next := Or(acc, Low(Shr(state, i), 1) * Pow2(23 - i));
            forall k: nat :: k < 24 ==> Bit(next, k) == (k > 22 - i && Bit(state, 23 - k))
  {
    TakenBit(state, i);
    var moved := Low(Shr(state, i), 1) * Pow2(23 - i);
    PlaceRange(Low(Shr(state, i), 1), 23 - i);
    Range24(acc, moved);
    forall k: nat | k < 24 ensures Bit(Or(acc, moved), k) == (k > 22 - i && Bit(state, 23 - k)) {
      BitOr(acc, moved, k);
      BitOfPow2(23 - i, k);
      BitZero(k);
    }
  }

  lemma PlaceRange(b: nat, n: nat)
    requires b < 2 && n < 24
    ensures b * Pow2(n) < 0x100_0000
  {
    Pow2Grows(n, 23);
    Pow2Values();
  }

  /** The loop that turns 24 bits around, at the end of btle_reverse_crc and in promisc_follow_cb. */
  method Reverse24(state: u32) returns (ret: u32)
    ensures ret < 0x100_0000
    ensures RegisterOf(ret) == Reflect(RegisterOf(state))
  {
    ret := 0;
    forall k: nat ensures !Bit(0, k) { BitZero(k); }
    for i := 0 to 24
      invariant ret < 0x100_0000
      invariant forall k: nat :: k < 24 ==> Bit(ret, k) == (k > 23 - i && Bit(state, 23 - k))
    {
      ReverseRound(ret, state, i);
      ret := Or(ret, Low(Shr(state, i), 1) * Pow2(23 - i));
    }
  }
}
