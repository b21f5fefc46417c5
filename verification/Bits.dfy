/** The bitwise expressions of the allocator, over natural numbers in a 64-bit word. */
module Bits {

  function Pow2(k: nat): (p: nat)
    ensures p >= 1
  {
    if k == 0 then 1 else 2 * Pow2(k - 1)
  }

  const HALF: nat := 0x8000_0000_0000_0000
  const WORD: nat := 0x1_0000_0000_0000_0000

  lemma WordIsPow2()
    ensures HALF == Pow2(63) && WORD == Pow2(64)
  {
    assert Pow2(4) == 16;
    SquareOf(4, 16);
    SquareOf(8, 0x100);
    SquareOf(16, 0x1_0000);
    SquareOf(32, 0x1_0000_0000);
  }

  lemma SquareOf(k: nat, p: nat)
    requires Pow2(k) == p
    ensures Pow2(k + k) == p * p
  {
    Pow2Sum(k, k);
  }

  lemma {:induction false} Pow2Sum(j: nat, k: nat)
    ensures Pow2(j + k) == Pow2(j) * Pow2(k)
  {
    if k > 0 {
      Pow2Sum(j, k - 1);
      assert 2 * (Pow2(j) * Pow2(k - 1)) == Pow2(j) * (2 * Pow2(k - 1));
    }
  }

  /** Bitwise conjunction. */
  function And(x: nat, y: nat): (r: nat)
    ensures r <= x && r <= y
  {
    if x == 0 || y == 0 then 0
    else 2 * And(x / 2, y / 2) + (if x % 2 == 1 && y % 2 == 1 then 1 else 0)
  }

  /** Bitwise complement of x in a w-bit word. */
  function Not(x: nat, w: nat): (r: nat)
    requires x < Pow2(w)
    ensures r < Pow2(w)
  {
    Pow2(w) - 1 - x
  }

  /** Bitwise complement in a machine word. */
  function Complement(x: nat): nat
    requires x < WORD
  {
    WORD - 1 - x
  }

  ghost predicate IsPow2(a: nat) {
    exists k: nat :: a == Pow2(k)
  }

  /** The least multiple of a not below h. */
  function AlignUp(h: nat, a: nat): nat
    requires a > 0
  {
    (h + a - 1) / a * a
  }

  lemma {:induction false} Pow2Monotone(j: nat, k: nat)
    requires j <= k
    ensures Pow2(j) <= Pow2(k)
    decreases k - j
  {
    if j < k { Pow2Monotone(j, k - 1); }
  }

  /** 2^k is a multiple of 2^j when j <= k. */
  lemma {:induction false} Pow2Divides(j: nat, k: nat)
    requires j <= k
    ensures Pow2(k) % Pow2(j) == 0
    decreases k
  {
    if j == 0 {
      assert Pow2(j) == 1;
    } else {
      Pow2Divides(j - 1, k - 1);
      var q := Pow2(k - 1) / Pow2(j - 1);
      assert Pow2(k - 1) == q * Pow2(j - 1);
      assert Pow2(k) == q * Pow2(j);
      MultipleModZero(q, Pow2(j));
    }
  }

  lemma MultipleModZero(q: nat, d: nat)
    requires d > 0
    ensures (q * d) % d == 0 && (q * d) / d == q
  {
    DivUnique(q * d, d, q, 0);
  }

  /** Quotient and remainder are unique. */
  lemma DivUnique(x: nat, d: nat, q: nat, r: nat)
    requires d > 0 && x == q * d + r && r < d
    ensures x / d == q && x % d == r
  {
    var q', r' := x / d, x % d;
    assert x == q' * d + r';
    assert (q - q') * d == r' - r;
    assert (q' - q) * d == r - r';
    if q' < q {
      MulMono(1, q - q', d);
    } else if q' > q {
      MulMono(1, q' - q, d);
    }
  }

  lemma MulMono(a: nat, b: nat, d: nat)
    requires a <= b
    ensures a * d <= b * d
  {
    assert (b - a) * d >= 0;
    assert b * d == a * d + (b - a) * d;
  }

  /** x with its low k bits cleared. */
  function Cleared(x: nat, k: nat): nat {
    if k == 0 then x else 2 * Cleared(x / 2, k - 1)
  }

  lemma {:induction false} ClearedIsMultiple(x: nat, k: nat)
    ensures Cleared(x, k) == x / Pow2(k) * Pow2(k)
  {
    if k > 0 {
      ClearedIsMultiple(x / 2, k - 1);
      HalveQuotient(x, Pow2(k - 1));
      DoubleProduct(x / 2 / Pow2(k - 1), Pow2(k - 1));
    }
  }

  /** Masking with the complement of 2^k - 1 does that. */
  lemma {:induction false} MaskClearsLowBits(x: nat, k: nat, w: nat)
    requires k <= w && x < Pow2(w)
    ensures Pow2(k) - 1 < Pow2(w)
    ensures And(x, Not(Pow2(k) - 1, w)) == Cleared(x, k)
    decreases w
  {
    Pow2Monotone(k, w);
    if k == 0 {
      AllOnesMask(x, w);
    } else {
      MaskClearsLowBits(x / 2, k - 1, w - 1);
      NotDoubles(k, w);
      MaskStep(x, Not(Pow2(k) - 1, w), Not(Pow2(k - 1) - 1, w - 1), k);
    }
  }

  lemma MaskStep(x: nat, y: nat, z: nat, k: nat)
    requires k > 0 && y == 2 * z && And(x / 2, z) == Cleared(x / 2, k - 1)
    ensures And(x, y) == Cleared(x, k)
  {
    AndDouble(x, y, z);
  }

  lemma NotDoubles(k: nat, w: nat)
    requires 0 < k <= w && Pow2(k) <= Pow2(w) && Pow2(k - 1) <= Pow2(w - 1)
    ensures Not(Pow2(k) - 1, w) == 2 * Not(Pow2(k - 1) - 1, w - 1)
  {
  }

  lemma AndDouble(x: nat, y: nat, z: nat)
    requires y == 2 * z
    ensures And(x, y) == 2 * And(x / 2, z)
  {
    assert y / 2 == z && y % 2 == 0;
  }

  lemma DoubleProduct(q: nat, d: nat)
    ensures 2 * (q * d) == q * (2 * d)
  {
  }

  lemma {:induction false} AllOnesMask(x: nat, w: nat)
    requires x < Pow2(w)
    ensures And(x, Pow2(w) - 1) == x
    decreases w
  {
    if w > 0 {
      var y := Pow2(w) - 1;
      AllOnesMask(x / 2, w - 1);
      assert y / 2 == Pow2(w - 1) - 1 && y % 2 == 1;
    }
  }

  lemma HalveQuotient(x: nat, d: nat)
    requires d > 0
    ensures x / 2 / d == x / (2 * d)
  {
    var q, r := x / 2 / d, x / 2 % d;
    assert x / 2 == q * d + r;
    assert x == 2 * (q * d + r) + x % 2;
    assert 2 * (q * d) == q * (2 * d);
    DivUnique(x, 2 * d, q, 2 * r + x % 2);
  }

  lemma AlignUpBounds(h: nat, a: nat)
    requires a > 0
    ensures AlignUp(h, a) % a == 0
    ensures h <= AlignUp(h, a) < h + a
  {
    var q, r := (h + a - 1) / a, (h + a - 1) % a;
    assert h + a - 1 == q * a + r;
    MultipleModZero(q, a);
  }

  lemma AlignUpZero(a: nat)
    requires a > 0
    ensures AlignUp(0, a) == 0
  {
    DivUnique(a - 1, a, 0, a - 1);
  }

  /** AlignUp is a multiple of a, not below h, and no smaller multiple is. */
  lemma AlignUpIsLeast(h: nat, a: nat, m: nat)
    requires a > 0 && m % a == 0 && h <= m
    ensures AlignUp(h, a) % a == 0
    ensures h <= AlignUp(h, a) <= m
  {
    AlignUpBounds(h, a);
    var q, p := (h + a - 1) / a, m / a;
    assert m == p * a;
    assert (p + 1) * a == p * a + a;
    if p < q {
      MulMono(p + 1, q, a);
    } else {
      MulMono(q, p, a);
    }
  }

  /** The allocator's expression (head + align - 1) & ~(align - 1) is AlignUp,
      for every power of two that fits a word and every sum that does not wrap. */
  lemma MaskIsAlignUp(h: nat, k: nat)
    requires k <= 63 && h + Pow2(k) - 1 < WORD
    ensures Pow2(k) - 1 < WORD
    ensures And(h + Pow2(k) - 1, Complement(Pow2(k) - 1)) == AlignUp(h, Pow2(k))
  {
    WordIsPow2();
    MaskClearsLowBits(h + Pow2(k) - 1, k, 64);
    ClearedIsMultiple(h + Pow2(k) - 1, k);
  }

  /** Rounding up to a power of two never passes 2^63 from at most 2^63. */
  lemma AlignUpBounded(h: nat, k: nat)
    requires k <= 63 && h <= HALF
    ensures AlignUp(h, Pow2(k)) <= HALF
  {
    WordIsPow2();
    Pow2Divides(k, 63);
    AlignUpIsLeast(h, Pow2(k), HALF);
  }

  /** The allocator's test (align & (align - 1)) == 0 accepts exactly the powers of two. */
  lemma {:induction false} PowerOfTwoTest(a: nat)
    requires a > 0
    ensures And(a, a - 1) == 0 <==> IsPow2(a)
  {
    if a == 1 {
      assert a == Pow2(0);
    } else if a % 2 == 0 {
      PowerOfTwoTest(a / 2);
      HalfIsPow2(a);
      AndBelowEven(a);
    } else {
      AndBelowOdd(a);
      OddIsNoPow2(a);
    }
  }

  lemma AndBelowEven(a: nat)
    requires a > 0 && a % 2 == 0
    ensures And(a, a - 1) == 2 * And(a / 2, a / 2 - 1)
  {
    assert (a - 1) / 2 == a / 2 - 1;
  }

  lemma OddIsNoPow2(a: nat)
    requires a > 1 && a % 2 == 1
    ensures !IsPow2(a)
  {
    assert forall k: nat :: Pow2(k) % 2 == 0 || Pow2(k) == 1;
  }

  lemma HalfIsPow2(a: nat)
    requires a > 0 && a % 2 == 0
    ensures IsPow2(a) <==> IsPow2(a / 2)
  {
    if IsPow2(a / 2) {
      var k: nat :| a / 2 == Pow2(k);
      assert a == Pow2(k + 1);
    }
    if IsPow2(a) {
      var k: nat :| a == Pow2(k);
      assert a / 2 == Pow2(k - 1);
    }
  }

  lemma AndBelowOdd(a: nat)
    requires a % 2 == 1
    ensures And(a, a - 1) == 2 * (a / 2)
  {
    assert (a - 1) / 2 == a / 2 && (a - 1) % 2 == 0;
    AndSelf(a / 2);
  }

  lemma {:induction false} AndSelf(x: nat)
    ensures And(x, x) == x
  {
    if x > 0 { AndSelf(x / 2); }
  }

  /** A power of two that fits a word has an exponent of at most 63. */
  lemma ExponentOf(a: nat) returns (k: nat)
    requires 0 < a < WORD && And(a, a - 1) == 0
    ensures k <= 63 && a == Pow2(k)
  {
    PowerOfTwoTest(a);
    k :| a == Pow2(k);
    WordIsPow2();
    if k >= 64 { Pow2Monotone(64, k); }
  }
}
