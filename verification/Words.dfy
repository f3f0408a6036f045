/**
 The firmware's unsigned words as natural numbers with an explicit range, the C
 operators on them, and their single bits.
*/
module Words {
  type u8 = n: nat | n < 0x100
  type u16 = n: nat | n < 0x1_0000
  type u32 = n: nat | n < 0x1_0000_0000

  function Pow2(n: nat): (p: nat)
    ensures p > 0
  {
    if n == 0 then 1 else 2 * Pow2(n - 1)
  }

  /** Bit k of a word: the C expression (s >> k) & 1. */
  predicate Bit(s: nat, k: nat) {
    if k == 0 then s % 2 == 1 else Bit(s / 2, k - 1)
  }

  /** The C expression s >> n. */
  function Shr(s: nat, n: nat): nat
    decreases n, s
  {
    if n == 0 then s else Shr(s / 2, n - 1)
  }

  /** The C expression s & (2^n - 1). */
  function Low(s: nat, n: nat): nat
    decreases n, s
  {
    if n == 0 then 0 else 2 * Low(s / 2, n - 1) + s % 2
  }

  /** The C operator ^. */
  function Xor(a: nat, b: nat): nat {
    if a == 0 && b == 0 then 0
    else 2 * Xor(a / 2, b / 2) + (if a % 2 == b % 2 then 0 else 1)
  }

  /** The C operator |. */
  function Or(a: nat, b: nat): nat {
    if a == 0 && b == 0 then 0
    else 2 * Or(a / 2, b / 2) + (if a % 2 == 0 && b % 2 == 0 then 0 else 1)
  }

  /** The C operator &. */
  function And(a: nat, b: nat): nat {
    if a == 0 || b == 0 then 0 else 2 * And(a / 2, b / 2) + (if a % 2 == 1 && b % 2 == 1 then 1 else 0)
  }

  /** The number whose bits, least significant first, are given. */
  function Value(bits: seq<bool>): nat {
    if bits == [] then 0 else 2 * Value(bits[1..]) + (if bits[0] then 1 else 0)
  }

  /** The low n bits of a word, least significant first. */
  function LowBits(s: nat, n: nat): (bits: seq<bool>)
    ensures |bits| == n
  {
    seq(n, k requires 0 <= k < n => Bit(s, k))
  }

  /** The bits of a byte string in the order the radio sends them. */
  function DataBits(data: seq<u8>): (bits: seq<bool>)
    ensures |bits| == 8 * |data|
  {
    if data == [] then [] else LowBits(data[0], 8) + DataBits(data[1..])
  }

  lemma Pow2Values()
    ensures Pow2(7) == 0x80 && Pow2(8) == 0x100 && Pow2(16) == 0x1_0000
    ensures Pow2(23) == 0x80_0000 && Pow2(24) == 0x100_0000 && Pow2(32) == 0x1_0000_0000
  {}

  lemma {:induction false} Pow2Grows(n: nat, m: nat)
    requires n <= m
    ensures Pow2(n) <= Pow2(m)
    decreases m
  {
    if n < m {
      Pow2Grows(n, m - 1);
    }
  }

  lemma {:induction false} BitOfPow2(n: nat, k: nat)
    ensures Bit(Pow2(n), k) == (n == k)
    decreases k
  {
    if k == 0 {
      assert n > 0 ==> Pow2(n) % 2 == 0;
    } else if n == 0 {
      BitZero(k - 1);
    } else {
      BitOfPow2(n - 1, k - 1);
    }
  }

  // ----- Bits of the C operators -----

  lemma XorParts(a: nat, b: nat)
    ensures Xor(a, b) / 2 == Xor(a / 2, b / 2)
    ensures Xor(a, b) % 2 == (if a % 2 == b % 2 then 0 else 1)
  {}

  lemma {:induction false} BitXor(a: nat, b: nat, k: nat)
    ensures Bit(Xor(a, b), k) == (Bit(a, k) != Bit(b, k))
    decreases k
  {
    XorParts(a, b);
    if k > 0 {
      BitXor(a / 2, b / 2, k - 1);
    }
  }

  lemma OrParts(a: nat, b: nat)
    ensures Or(a, b) / 2 == Or(a / 2, b / 2)
    ensures Or(a, b) % 2 == (if a % 2 == 0 && b % 2 == 0 then 0 else 1)
  {}

  lemma {:induction false} BitOr(a: nat, b: nat, k: nat)
    ensures Bit(Or(a, b), k) == (Bit(a, k) || Bit(b, k))
    decreases k
  {
    OrParts(a, b);
    if k > 0 {
      BitOr(a / 2, b / 2, k - 1);
    }
  }

  lemma {:induction false} BitAnd(a: nat, b: nat, k: nat)
    ensures Bit(And(a, b), k) == (Bit(a, k) && Bit(b, k))
    decreases k
  {
    AndParts(a, b);
    if k > 0 {
      BitAnd(a / 2, b / 2, k - 1);
    }
  }

  lemma AndParts(a: nat, b: nat)
    ensures And(a, b) / 2 == And(a / 2, b / 2)
    ensures And(a, b) % 2 == (if a % 2 == 1 && b % 2 == 1 then 1 else 0)
  {}

  lemma {:induction false} AndRange(a: nat, b: nat)
    ensures And(a, b) <= b
    decreases b
  {
    if a != 0 && b != 0 {
      AndRange(a / 2, b / 2);
    }
  }

  lemma {:induction false} BitZero(k: nat)
    ensures !Bit(0, k)
  {
    if k > 0 {
      BitZero(k - 1);
    }
  }

  lemma {:induction false} BitShr(s: nat, n: nat, k: nat)
    ensures Bit(Shr(s, n), k) == Bit(s, n + k)
    decreases n
  {
    if n > 0 {
      BitShr(s / 2, n - 1, k);
    }
  }

  lemma {:induction false} BitShl(s: nat, n: nat, k: nat)
    ensures Bit(s * Pow2(n), k) == (k >= n && Bit(s, k - n))
    decreases n
  {
    if n > 0 {
      assert s * Pow2(n) == 2 * (s * Pow2(n - 1));
      if k == 0 {
        BitZero(0);
      } else {
        BitShl(s, n - 1, k - 1);
      }
    }
  }

  /** A number put together from a high and a low part. */
  lemma {:induction false} AddLow(q: nat, s: nat, n: nat, k: nat)
    requires s < Pow2(n)
    ensures Bit(q * Pow2(n) + s, k) == if k < n then Bit(s, k) else Bit(q, k - n)
    decreases n
  {
    if n > 0 {
      assert q * Pow2(n) == 2 * (q * Pow2(n - 1));
      assert (q * Pow2(n) + s) / 2 == q * Pow2(n - 1) + s / 2;
      if k > 0 {
        AddLow(q, s / 2, n - 1, k - 1);
      }
    }
  }

  lemma BitIsShr(s: nat, k: nat)
    ensures Bit(s, k) == (Shr(s, k) % 2 == 1)
  {}

  lemma {:induction false} ShrNext(s: nat, k: nat)
    ensures Shr(s, k + 1) == Shr(s, k) / 2
    decreases k
  {
    if k > 0 {
      ShrNext(s / 2, k - 1);
    }
  }

  lemma {:induction false} BitLow(s: nat, n: nat, k: nat)
    ensures Bit(Low(s, n), k) == (k < n && Bit(s, k))
    decreases n
  {
    if n == 0 {
      BitZero(k);
    } else if k > 0 {
      BitLow(s / 2, n - 1, k - 1);
      assert Low(s, n) / 2 == Low(s / 2, n - 1);
    }
  }

  lemma {:induction false} LowRange(s: nat, n: nat)
    ensures Low(s, n) < Pow2(n)
    decreases n
  {
    if n > 0 {
      LowRange(s / 2, n - 1);
    }
  }

  lemma HalfRest(s: nat, p: nat)
    requires p > 0
    ensures s % (2 * p) == 2 * (s / 2 % p) + s % 2
  {
    var q, r := s / 2 / p, s / 2 % p;
    assert s / 2 == p * q + r;
    assert s == (2 * p) * q + (2 * r + s % 2);
    RestUnique(s, 2 * p, q, 2 * r + s % 2);
  }

  lemma RestUnique(a: nat, n: nat, q: nat, r: nat)
    requires r < n && a == n * q + r
    ensures a % n == r
  {
    assert a == n * (a / n) + a % n;
    assert n * (a / n - q) == r - a % n;
    FarApart(n, a / n - q);
  }

  lemma FarApart(n: nat, d: int)
    ensures d >= 1 ==> n * d >= n
    ensures d <= -1 ==> n * d <= 0 - n
  {}

  /** The low n bits are the rest modulo 2^n. */
  lemma {:induction false} LowIsRest(s: nat, n: nat)
    ensures Low(s, n) == s % Pow2(n)
    decreases n
  {
    if n > 0 {
      LowIsRest(s / 2, n - 1);
      HalfRest(s, Pow2(n - 1));
    }
  }

  /** A mask of n ones. */
  lemma {:induction false} MaskIsLow(s: nat, n: nat, mask: nat)
    requires mask == Pow2(n) - 1
    ensures And(s, mask) == Low(s, n)
    decreases n
  {
    if n > 0 {
      AndParts(s, mask);
      assert mask / 2 == Pow2(n - 1) - 1;
      MaskIsLow(s / 2, n - 1, mask / 2);
    }
  }

  lemma {:induction false} ShrShrinks(s: nat, n: nat)
    ensures Shr(s, n) <= s
    decreases n
  {
    if n > 0 {
      ShrShrinks(s / 2, n - 1);
    }
  }

  lemma {:induction false} ShrRange(s: nat, n: nat, m: nat)
    requires s < Pow2(n + m)
    ensures Shr(s, n) < Pow2(m)
    decreases n
  {
    if n > 0 {
      ShrRange(s / 2, n - 1, m);
    }
  }

  lemma {:induction false} BitValue(bits: seq<bool>, k: nat)
    ensures Bit(Value(bits), k) == (k < |bits| && bits[k])
    decreases k
  {
    if bits == [] {
      BitZero(k);
    } else if k > 0 {
      BitValue(bits[1..], k - 1);
      assert Value(bits) / 2 == Value(bits[1..]);
    }
  }

  lemma {:induction false} ValueRange(bits: seq<bool>)
    ensures Value(bits) < Pow2(|bits|)
  {
    if bits != [] {
      ValueRange(bits[1..]);
    }
  }

  lemma {:induction false} XorRange(a: nat, b: nat, n: nat)
    requires a < Pow2(n) && b < Pow2(n)
    ensures Xor(a, b) < Pow2(n)
    decreases n
  {
    if n > 0 {
      XorRange(a / 2, b / 2, n - 1);
    }
  }

  lemma {:induction false} OrRange(a: nat, b: nat, n: nat)
    requires a < Pow2(n) && b < Pow2(n)
    ensures Or(a, b) < Pow2(n)
    decreases n
  {
    if n > 0 {
      OrRange(a / 2, b / 2, n - 1);
    }
  }

  lemma {:induction false} HighBitsClear(s: nat, n: nat, k: nat)
    requires s < Pow2(n) && n <= k
    ensures !Bit(s, k)
    decreases n
  {
    if n == 0 {
      BitZero(k);
    } else {
      HighBitsClear(s / 2, n - 1, k - 1);
    }
  }

  /** Words of 24 bits stay words of 24 bits. */
  lemma Range24(a: nat, b: nat)
    requires a < 0x100_0000 && b < 0x100_0000
    ensures Xor(a, b) < 0x100_0000 && Or(a, b) < 0x100_0000
  {
    Pow2Values();
    XorRange(a, b, 24);
    OrRange(a, b, 24);
  }

  lemma LowRange24(s: nat)
    ensures Low(s, 24) < 0x100_0000
  {
    Pow2Values();
    LowRange(s, 24);
  }

  lemma SameBits24(a: nat, b: nat)
    requires a < 0x100_0000 && b < 0x100_0000
    requires forall k :: 0 <= k < 24 ==> Bit(a, k) == Bit(b, k)
    ensures a == b
  {
    Pow2Values();
    SameBits(a, b, 24);
  }

  lemma ValueRange24(bits: seq<bool>)
    requires |bits| == 24
    ensures Value(bits) < 0x100_0000
  {
    Pow2Values();
    ValueRange(bits);
  }

  /** A single bit of a word, taken out by a shift and a mask. */
  lemma TakenBit(s: nat, k: nat)
    ensures Low(Shr(s, k), 1) == if Bit(s, k) then 1 else 0
  {}

  lemma ByteHighClear(b: u8, k: nat)
    requires k >= 8
    ensures !Bit(b, k)
  {
    Pow2Values();
    HighBitsClear(b, 8, k);
  }

  lemma Word24HighClear(s: nat, k: nat)
    requires s < 0x100_0000 && k >= 24
    ensures !Bit(s, k)
  {
    Pow2Values();
    HighBitsClear(s, 24, k);
  }

  /** Words below 2^n with the same n low bits are equal. */
  lemma {:induction false} SameBits(a: nat, b: nat, n: nat)
    requires a < Pow2(n) && b < Pow2(n)
    requires forall k :: 0 <= k < n ==> Bit(a, k) == Bit(b, k)
    ensures a == b
    decreases n
  {
    if n > 0 {
      forall k | 0 <= k < n - 1 ensures Bit(a / 2, k) == Bit(b / 2, k) {
        assert Bit(a, k + 1) == Bit(b, k + 1);
      }
      SameBits(a / 2, b / 2, n - 1);
      assert Bit(a, 0) == Bit(b, 0);
    }
  }

  lemma {:induction false} DataBitsAppend(a: seq<u8>, b: seq<u8>)
    ensures DataBits(a + b) == DataBits(a) + DataBits(b)
  {
    if a == [] {
      assert a + b == b;
    } else {
      assert (a + b)[1..] == a[1..] + b;
      DataBitsAppend(a[1..], b);
      assert DataBits(a + b) == LowBits(a[0], 8) + (DataBits(a[1..]) + DataBits(b));
    }
  }

  lemma {:induction false} DataBitAt(data: seq<u8>, i: nat, k: nat)
    requires i < |data| && k < 8
    ensures DataBits(data)[8 * i + k] == Bit(data[i], k)
  {
    if i > 0 {
      DataBitAt(data[1..], i - 1, k);
      assert DataBits(data)[8 * i + k] == DataBits(data[1..])[8 * (i - 1) + k];
    }
  }
}
