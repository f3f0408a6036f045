/**
 The table-driven CRC of firmware/bluetooth_rxtx/bluetooth_le.c and its table.
 The table is the one place where words are bit vectors: its 256 entries are
 compared with eight steps of the shift register on bit vectors, and the result
 is carried over bit by bit to the registers of the other modules.
*/
module CrcTable {
  import opened Words
  import opened Crc24

  // ----- The table -----

  /** Entries 8 * row .. 8 * row + 8 of btle_crc_lut. */
  function TableRow(row: bv8): (entries: seq<bv24>)
    ensures |entries| == 8
  {
    match row
    case 0 => [0x000000, 0x01b4c0, 0x036980, 0x02dd40, 0x06d300, 0x0767c0, 0x05ba80, 0x040e40]
    case 1 => [0x0da600, 0x0c12c0, 0x0ecf80, 0x0f7b40, 0x0b7500, 0x0ac1c0, 0x081c80, 0x09a840]
    case 2 => [0x1b4c00, 0x1af8c0, 0x182580, 0x199140, 0x1d9f00, 0x1c2bc0, 0x1ef680, 0x1f4240]
    case 3 => [0x16ea00, 0x175ec0, 0x158380, 0x143740, 0x103900, 0x118dc0, 0x135080, 0x12e440]
    case 4 => [0x369800, 0x372cc0, 0x35f180, 0x344540, 0x304b00, 0x31ffc0, 0x332280, 0x329640]
    case 5 => [0x3b3e00, 0x3a8ac0, 0x385780, 0x39e340, 0x3ded00, 0x3c59c0, 0x3e8480, 0x3f3040]
    case 6 => [0x2dd400, 0x2c60c0, 0x2ebd80, 0x2f0940, 0x2b0700, 0x2ab3c0, 0x286e80, 0x29da40]
    case 7 => [0x207200, 0x21c6c0, 0x231b80, 0x22af40, 0x26a100, 0x2715c0, 0x25c880, 0x247c40]
    case 8 => [0x6d3000, 0x6c84c0, 0x6e5980, 0x6fed40, 0x6be300, 0x6a57c0, 0x688a80, 0x693e40]
    case 9 => [0x609600, 0x6122c0, 0x63ff80, 0x624b40, 0x664500, 0x67f1c0, 0x652c80, 0x649840]
    case 10 => [0x767c00, 0x77c8c0, 0x751580, 0x74a140, 0x70af00, 0x711bc0, 0x73c680, 0x727240]
    case 11 => [0x7bda00, 0x7a6ec0, 0x78b380, 0x790740, 0x7d0900, 0x7cbdc0, 0x7e6080, 0x7fd440]
    case 12 => [0x5ba800, 0x5a1cc0, 0x58c180, 0x597540, 0x5d7b00, 0x5ccfc0, 0x5e1280, 0x5fa640]
    case 13 => [0x560e00, 0x57bac0, 0x556780, 0x54d340, 0x50dd00, 0x5169c0, 0x53b480, 0x520040]
    case 14 => [0x40e400, 0x4150c0, 0x438d80, 0x423940, 0x463700, 0x4783c0, 0x455e80, 0x44ea40]
    case 15 => [0x4d4200, 0x4cf6c0, 0x4e2b80, 0x4f9f40, 0x4b9100, 0x4a25c0, 0x48f880, 0x494c40]
    case 16 => [0xda6000, 0xdbd4c0, 0xd90980, 0xd8bd40, 0xdcb300, 0xdd07c0, 0xdfda80, 0xde6e40]
    case 17 => [0xd7c600, 0xd672c0, 0xd4af80, 0xd51b40, 0xd11500, 0xd0a1c0, 0xd27c80, 0xd3c840]
    case 18 => [0xc12c00, 0xc098c0, 0xc24580, 0xc3f140, 0xc7ff00, 0xc64bc0, 0xc49680, 0xc52240]
    case 19 => [0xcc8a00, 0xcd3ec0, 0xcfe380, 0xce5740, 0xca5900, 0xcbedc0, 0xc93080, 0xc88440]
    case 20 => [0xecf800, 0xed4cc0, 0xef9180, 0xee2540, 0xea2b00, 0xeb9fc0, 0xe94280, 0xe8f640]
    case 21 => [0xe15e00, 0xe0eac0, 0xe23780, 0xe38340, 0xe78d00, 0xe639c0, 0xe4e480, 0xe55040]
    case 22 => [0xf7b400, 0xf600c0, 0xf4dd80, 0xf56940, 0xf16700, 0xf0d3c0, 0xf20e80, 0xf3ba40]
    case 23 => [0xfa1200, 0xfba6c0, 0xf97b80, 0xf8cf40, 0xfcc100, 0xfd75c0, 0xffa880, 0xfe1c40]
    case 24 => [0xb75000, 0xb6e4c0, 0xb43980, 0xb58d40, 0xb18300, 0xb037c0, 0xb2ea80, 0xb35e40]
    case 25 => [0xbaf600, 0xbb42c0, 0xb99f80, 0xb82b40, 0xbc2500, 0xbd91c0, 0xbf4c80, 0xbef840]
    case 26 => [0xac1c00, 0xada8c0, 0xaf7580, 0xaec140, 0xaacf00, 0xab7bc0, 0xa9a680, 0xa81240]
    case 27 => [0xa1ba00, 0xa00ec0, 0xa2d380, 0xa36740, 0xa76900, 0xa6ddc0, 0xa40080, 0xa5b440]
    case 28 => [0x81c800, 0x807cc0, 0x82a180, 0x831540, 0x871b00, 0x86afc0, 0x847280, 0x85c640]
    case 29 => [0x8c6e00, 0x8ddac0, 0x8f0780, 0x8eb340, 0x8abd00, 0x8b09c0, 0x89d480, 0x886040]
    case 30 => [0x9a8400, 0x9b30c0, 0x99ed80, 0x985940, 0x9c5700, 0x9de3c0, 0x9f3e80, 0x9e8a40]
    case _ => [0x972200, 0x9696c0, 0x944b80, 0x95ff40, 0x91f100, 0x9045c0, 0x929880, 0x932c40]
  }

  function TableWord(key: bv8): bv24 {
    TableRow(key >> 3)[(key & 7) as int]
  }

  /** The register of the firmware shifted once with a zero bit. */
  function StepVector(s: bv24): bv24 {
    if s & 1 == 1 then (s >> 1) ^ 0xda6000 else s >> 1
  }

  function EightSteps(s: bv24): bv24 {
    StepVector(StepVector(StepVector(StepVector(StepVector(StepVector(StepVector(StepVector(s))))))))
  }

  lemma TablePart0(key: bv8)
    requires 0 <= key < 32
    ensures TableWord(key) == EightSteps(key as bv24)
  {}

  lemma TablePart1(key: bv8)
    requires 32 <= key < 64
    ensures TableWord(key) == EightSteps(key as bv24)
  {}

  lemma TablePart2(key: bv8)
    requires 64 <= key < 96
    ensures TableWord(key) == EightSteps(key as bv24)
  {}

  lemma TablePart3(key: bv8)
    requires 96 <= key < 128
    ensures TableWord(key) == EightSteps(key as bv24)
  {}

  lemma TablePart4(key: bv8)
    requires 128 <= key < 160
    ensures TableWord(key) == EightSteps(key as bv24)
  {}

  lemma TablePart5(key: bv8)
    requires 160 <= key < 192
    ensures TableWord(key) == EightSteps(key as bv24)
  {}

  lemma TablePart6(key: bv8)
    requires 192 <= key < 224
    ensures TableWord(key) == EightSteps(key as bv24)
  {}

  lemma TablePart7(key: bv8)
    requires 224 <= key
    ensures TableWord(key) == EightSteps(key as bv24)
  {}

  lemma TableIsEightSteps(key: bv8)
    ensures TableWord(key) == EightSteps(key as bv24)
  {
    if
    case key < 32 => TablePart0(key);
    case 32 <= key < 64 => TablePart1(key);
    case 64 <= key < 96 => TablePart2(key);
    case 96 <= key < 128 => TablePart3(key);
    case 128 <= key < 160 => TablePart4(key);
    case 160 <= key < 192 => TablePart5(key);
    case 192 <= key < 224 => TablePart6(key);
    case 224 <= key => TablePart7(key);
  }

  // ----- The bits of a bit vector -----

  function Half(s: bv24): bv24 {
    s >> 1
  }

  function Sum(s: bv24, t: bv24): bv24 {
    s ^ t
  }

  predicate LowBit(s: bv24) {
    s & 1 == 1
  }

  /** Bit k of a value of any type with a halving and a lowest bit. */
  predicate BitOf<T>(half: T -> T, low: T -> bool, s: T, k: nat)
    decreases k
  {
    if k == 0 then low(s) else BitOf(half, low, half(s), k - 1)
  }

  lemma {:induction false} BitOfSum<T(!new)>(half: T -> T, low: T -> bool, sum: (T, T) -> T, s: T, t: T, k: nat)
    requires forall a, b :: half(sum(a, b)) == sum(half(a), half(b))
    requires forall a, b :: low(sum(a, b)) == (low(a) != low(b))
    ensures BitOf(half, low, sum(s, t), k) == (BitOf(half, low, s, k) != BitOf(half, low, t, k))
    decreases k
  {
    if k > 0 {
      BitOfSum(half, low, sum, half(s), half(t), k - 1);
    }
  }

  predicate VectorBit(s: bv24, k: nat) {
    BitOf(Half, LowBit, s, k)
  }

  function VectorRegister(s: bv24): Register {
    seq(24, p requires 0 <= p < 24 => VectorBit(s, 23 - p))
  }

  lemma HalfSum(s: bv24, t: bv24)
    ensures Half(Sum(s, t)) == Sum(Half(s), Half(t))
  {}

  lemma LowSum(s: bv24, t: bv24)
    ensures LowBit(Sum(s, t)) == (LowBit(s) != LowBit(t))
  {}

  lemma VectorSum(s: bv24, t: bv24, k: nat)
    ensures VectorBit(Sum(s, t), k) == (VectorBit(s, k) != VectorBit(t, k))
  {
    forall a, b ensures Half(Sum(a, b)) == Sum(Half(a), Half(b)) {
      HalfSum(a, b);
    }
    forall a, b ensures LowBit(Sum(a, b)) == (LowBit(a) != LowBit(b)) {
      LowSum(a, b);
    }
    BitOfSum(Half, LowBit, Sum, s, t, k);
  }

  /** The feedback word 0xda6000 shifted right k times. */
  function Feedback(k: nat): bv24 {
    match k
    case 0 => 0xda6000
    case 1 => 0x6d3000
    case 2 => 0x369800
    case 3 => 0x1b4c00
    case 4 => 0x0da600
    case 5 => 0x06d300
    case 6 => 0x036980
    case 7 => 0x01b4c0
    case 8 => 0x00da60
    case 9 => 0x006d30
    case 10 => 0x003698
    case 11 => 0x001b4c
    case 12 => 0x000da6
    case 13 => 0x0006d3
    case 14 => 0x000369
    case 15 => 0x0001b4
    case 16 => 0x0000da
    case 17 => 0x00006d
    case 18 => 0x000036
    case 19 => 0x00001b
    case 20 => 0x00000d
    case 21 => 0x000006
    case 22 => 0x000003
    case 23 => 0x000001
    case _ => 0
  }

  lemma FeedbackHalves(k: nat)
    ensures Half(Feedback(k)) == Feedback(k + 1)
    ensures LowBit(Feedback(k)) == (k < 24 && Tap(23 - k))
  {}

  lemma {:induction false} FeedbackBit(k: nat, j: nat)
    ensures VectorBit(Feedback(j), k) == (k + j < 24 && Tap(23 - k - j))
    decreases k
  {
    FeedbackHalves(j);
    if k > 0 {
      FeedbackBit(k - 1, j + 1);
    }
  }

  /** The vector of k ones. */
  function Ones(k: nat): bv24 {
    match k
    case 0 => 0x000000
    case 1 => 0x000001
    case 2 => 0x000003
    case 3 => 0x000007
    case 4 => 0x00000f
    case 5 => 0x00001f
    case 6 => 0x00003f
    case 7 => 0x00007f
    case 8 => 0x0000ff
    case 9 => 0x0001ff
    case 10 => 0x0003ff
    case 11 => 0x0007ff
    case 12 => 0x000fff
    case 13 => 0x001fff
    case 14 => 0x003fff
    case 15 => 0x007fff
    case 16 => 0x00ffff
    case 17 => 0x01ffff
    case 18 => 0x03ffff
    case 19 => 0x07ffff
    case 20 => 0x0fffff
    case 21 => 0x1fffff
    case 22 => 0x3fffff
    case 23 => 0x7fffff
    case _ => 0xffffff
  }

  lemma OnesHalves(k: nat)
    requires 0 < k <= 24
    ensures Half(Ones(k)) == Ones(k - 1)
  {}

  predicate AtMost(s: bv24, t: bv24) {
    s <= t
  }

  lemma HalfMonotone(s: bv24, t: bv24)
    requires AtMost(s, t)
    ensures AtMost(Half(s), Half(t))
  {}

  lemma {:induction false} HighBitClear(s: bv24, k: nat)
    requires k <= 24 && AtMost(s, Ones(k))
    ensures !VectorBit(s, k)
    decreases k
  {
    if k == 0 {
      assert s == 0;
    } else {
      OnesHalves(k);
      HalfMonotone(s, Ones(k));
      HighBitClear(Half(s), k - 1);
    }
  }

  // ----- Eight steps of the standard's register -----

  lemma StepOfParts(s: bv24)
    ensures StepVector(s) == if LowBit(s) then Sum(Half(s), Feedback(0)) else Half(s)
  {}

  lemma StepCell(s: bv24, p: nat)
    requires p < 24
    ensures VectorBit(StepVector(s), 23 - p)
         == ((p > 0 && VectorBit(s, 24 - p)) != (Tap(p) && VectorBit(s, 0)))
  {
    StepOfParts(s);
    VectorSum(Half(s), Feedback(0), 23 - p);
    FeedbackBit(23 - p, 0);
    assert VectorBit(Half(s), 23 - p) == VectorBit(s, 24 - p);
    if p == 0 {
      HighBitClear(s, 24);
    }
  }

  lemma StepIsZeroShift(s: bv24)
    ensures VectorRegister(StepVector(s)) == Shift(VectorRegister(s), false)
  {
    forall p | 0 <= p < 24 ensures VectorRegister(StepVector(s))[p] == Shift(VectorRegister(s), false)[p] {
      StepCell(s, p);
    }
  }

  lemma {:induction false} ZeroRunEnd(r: Register, n: nat)
    ensures Run(r, Zeros(n + 1)) == Shift(Run(r, Zeros(n)), false)
    decreases n
  {
    assert Zeros(n + 1)[1..] == Zeros(n);
    if n > 0 {
      assert Zeros(n)[1..] == Zeros(n - 1);
      ZeroRunEnd(Shift(r, false), n - 1);
    }
  }

  lemma OneMoreZero(r: Register, s: bv24, n: nat)
    requires Run(r, Zeros(n)) == VectorRegister(s)
    ensures Run(r, Zeros(n + 1)) == VectorRegister(StepVector(s))
  {
    ZeroRunEnd(r, n);
    StepIsZeroShift(s);
  }

  lemma EightStepsAreZeroRun(s: bv24)
    ensures VectorRegister(EightSteps(s)) == Run(VectorRegister(s), Zeros(8))
  {
    var r := VectorRegister(s);
    var s1 := StepVector(s);
    var s2 := StepVector(s1);
    var s3 := StepVector(s2);
    var s4 := StepVector(s3);
    var s5 := StepVector(s4);
    var s6 := StepVector(s5);
    var s7 := StepVector(s6);
    assert Run(r, Zeros(0)) == r;
    OneMoreZero(r, s, 0);
    OneMoreZero(r, s1, 1);
    OneMoreZero(r, s2, 2);
    OneMoreZero(r, s3, 3);
    OneMoreZero(r, s4, 4);
    OneMoreZero(r, s5, 5);
    OneMoreZero(r, s6, 6);
    OneMoreZero(r, s7, 7);
  }

  // ----- From words to bit vectors and back -----

  function HalfByte(x: bv8): bv8 {
    x >> 1
  }

  function Extend(x: bv8): bv24 {
    x as bv24
  }

  lemma ExtendHalf(x: bv8)
    ensures Half(Extend(x)) == Extend(HalfByte(x))
  {}

  function Pack(b0: bool, b1: bool, b2: bool, b3: bool, b4: bool, b5: bool, b6: bool, b7: bool): bv8 {
    (if b0 then 1 else 0) | (if b1 then 2 else 0) | (if b2 then 4 else 0) | (if b3 then 8 else 0)
    | (if b4 then 16 else 0) | (if b5 then 32 else 0) | (if b6 then 64 else 0) | (if b7 then 128 else 0)
  }

  lemma PackParts(b0: bool, b1: bool, b2: bool, b3: bool, b4: bool, b5: bool, b6: bool, b7: bool)
    ensures LowBit(Extend(Pack(b0, b1, b2, b3, b4, b5, b6, b7))) == b0
    ensures HalfByte(Pack(b0, b1, b2, b3, b4, b5, b6, b7)) == Pack(b1, b2, b3, b4, b5, b6, b7, false)
  {}

  lemma {:induction false} PackBit(b0: bool, b1: bool, b2: bool, b3: bool, b4: bool, b5: bool, b6: bool, b7: bool, k: nat)
    ensures VectorBit(Extend(Pack(b0, b1, b2, b3, b4, b5, b6, b7)), k)
         == match k case 0 => b0 case 1 => b1 case 2 => b2 case 3 => b3
                    case 4 => b4 case 5 => b5 case 6 => b6 case 7 => b7 case _ => false
    decreases k
  {
    PackParts(b0, b1, b2, b3, b4, b5, b6, b7);
    if k > 0 {
      ExtendHalf(Pack(b0, b1, b2, b3, b4, b5, b6, b7));
      PackBit(b1, b2, b3, b4, b5, b6, b7, false, k - 1);
    }
  }

  function ByteOf(key: u8): bv8 {
    var b := LowBits(key, 8);
    Pack(b[0], b[1], b[2], b[3], b[4], b[5], b[6], b[7])
  }

  lemma ByteOfBit(key: u8, b: seq<bool>, k: nat)
    requires b == LowBits(key, 8)
    ensures VectorBit(Extend(ByteOf(key)), k) == (k < 8 && b[k])
  {
    PackBit(b[0], b[1], b[2], b[3], b[4], b[5], b[6], b[7], k);
  }

  lemma KeyRegister(key: u8)
    ensures VectorRegister(Extend(ByteOf(key))) == RegisterOf(key)
  {
    forall p | 0 <= p < 24 ensures VectorRegister(Extend(ByteOf(key)))[p] == RegisterOf(key)[p] {
      ByteOfBit(key, LowBits(key, 8), 23 - p);
      if p < 16 {
        ByteHighClear(key, 23 - p);
      }
    }
  }

  function WordOf(s: bv24): nat {
    Value(seq(24, k requires 0 <= k < 24 => VectorBit(s, k)))
  }

  lemma WordOfRegister(s: bv24)
    ensures WordOf(s) < 0x100_0000
    ensures RegisterOf(WordOf(s)) == VectorRegister(s)
  {
    var bits := seq(24, k requires 0 <= k < 24 => VectorBit(s, k));
    ValueRange24(bits);
    forall p | 0 <= p < 24 ensures RegisterOf(WordOf(s))[p] == VectorRegister(s)[p] {
      BitValue(bits, 23 - p);
    }
  }

  /** btle_crc_lut[key] as a word. */
  function Lut(key: u8): nat {
    WordOf(TableWord(ByteOf(key)))
  }

  /** Every table entry is the register after its key has been shifted out over zeros. */
  lemma LutIsZeroRun(key: u8)
    ensures Lut(key) < 0x100_0000
    ensures RegisterOf(Lut(key)) == Run(RegisterOf(key), Zeros(8))
  {
    TableIsEightSteps(ByteOf(key));
    WordOfRegister(TableWord(ByteOf(key)));
    KeyRegister(key);
    EightStepsAreZeroRun(Extend(ByteOf(key)));
  }

  // ----- A byte at a time -----

  /**
   The register running over bits and the key running over zeros take the same
   feedback as long as the bits are what tells their last cells apart.
  */
  lemma {:induction false} SameFeedback(r: Register, q: Register, bits: seq<bool>)
    requires |bits| <= 24
    requires forall j :: 0 <= j < |bits| ==> bits[j] == (r[23 - j] != q[23 - j])
    ensures forall p :: 0 <= p < 24 ==>
              (Run(r, bits)[p] != Run(q, Zeros(|bits|))[p])
              == (p >= |bits| && r[p - |bits|] != q[p - |bits|])
    decreases |bits|
  {
    if bits != [] {
      var r', q', rest := Shift(r, bits[0]), Shift(q, false), bits[1..];
      assert Zeros(|bits|)[1..] == Zeros(|rest|);
      forall p | 0 <= p < 24 ensures (r'[p] != q'[p]) == (p > 0 && r[p - 1] != q[p - 1]) {}
      forall j | 0 <= j < |rest| ensures rest[j] == (r'[23 - j] != q'[23 - j]) {
        assert rest[j] == bits[j + 1];
      }
      SameFeedback(r', q', rest);
    }
  }

  lemma KeyRange(state: nat, b: u8)
    ensures Xor(b, Low(state, 8)) < 0x100
  {
    Pow2Values();
    LowRange(state, 8);
    XorRange(b, Low(state, 8), 8);
  }

  /** The index into the table: data[i] ^ (state & 0xff). */
  function Key(state: nat, b: u8): u8 {
    KeyRange(state, b);
    Xor(b, Low(state, 8))
  }

  lemma KeyBit(state: nat, b: u8, k: nat)
    ensures Bit(Key(state, b), k) == (k < 8 && Bit(b, k) != Bit(state, k))
  {
    BitXor(b, Low(state, 8), k);
    BitLow(state, 8, k);
    if k >= 8 {
      ByteHighClear(b, k);
    }
  }

  lemma LookupBit(state: nat, w: nat, p: nat)
    requires state < 0x100_0000 && p < 24
    ensures RegisterOf(Xor(Shr(state, 8), w))[p] == ((p >= 8 && RegisterOf(state)[p - 8]) != RegisterOf(w)[p])
  {
    BitXor(Shr(state, 8), w, 23 - p);
    BitShr(state, 8, 23 - p);
    if p < 8 {
      Word24HighClear(state, 31 - p);
    }
  }

  lemma KeyIsDifference(state: nat, b: u8, p: nat)
    requires p < 24
    ensures RegisterOf(Key(state, b))[p] == (p >= 16 && LowBits(b, 8)[23 - p] != RegisterOf(state)[p])
  {
    KeyBit(state, b, 23 - p);
  }

  /** One look-up of the right entry w is eight shifts of the standard's register. */
  lemma LookupIsEightShifts(state: nat, b: u8, w: nat)
    requires state < 0x100_0000
    requires RegisterOf(w) == Run(RegisterOf(Key(state, b)), Zeros(8))
    ensures RegisterOf(Xor(Shr(state, 8), w)) == Run(RegisterOf(state), LowBits(b, 8))
  {
    var r, q, bits := RegisterOf(state), RegisterOf(Key(state, b)), LowBits(b, 8);
    forall p | 0 <= p < 24 ensures q[p] == (p >= 16 && bits[23 - p] != r[p]) {
      KeyIsDifference(state, b, p);
    }
    SameFeedback(r, q, bits);
    forall p | 0 <= p < 24 ensures RegisterOf(Xor(Shr(state, 8), w))[p] == Run(r, bits)[p] {
      LookupBit(state, w, p);
    }
  }

  lemma LookupRange(state: nat, w: nat)
    requires state < 0x100_0000 && w < 0x100_0000
    ensures Xor(Shr(state, 8), w) < 0x100_0000
  {
    ShrShrinks(state, 8);
    Range24(Shr(state, 8), w);
  }

  lemma LookupByte(state: nat, data: seq<u8>)
    requires state < 0x100_0000 && data != []
    ensures Xor(Shr(state, 8), Lut(Key(state, data[0]))) < 0x100_0000
    ensures Run(RegisterOf(Xor(Shr(state, 8), Lut(Key(state, data[0])))), DataBits(data[1..]))
         == Run(RegisterOf(state), DataBits(data))
  {
    FirstByteRun(RegisterOf(state), data);
    var key := Key(state, data[0]);
    LutIsZeroRun(key);
    LookupIsEightShifts(state, data[0], Lut(key));
    LookupRange(state, Lut(key));
  }

  method CrcgenLut(crcInit: u32, data: seq<u8>) returns (state: u32)
    ensures state < 0x100_0000
    ensures RegisterOf(state) == Crc(crcInit, data)
  {
    LowWordRegister(crcInit);
    state := Low(crcInit, 24);
    for i := 0 to |data|
      invariant state < 0x100_0000
      invariant Run(RegisterOf(state), DataBits(data[i..])) == Crc(crcInit, data)
    {
      LookupByte(state, data[i..]);
      assert data[i..][1..] == data[i + 1..];
      var key := Key(state, data[i]);
      state := Xor(Shr(state, 8), Lut(key));
    }
  }
}
