/** Unsigned words bit by bit: what the bit operators and shifts of the expression language compute. */
module Bits {
  import opened Basics

  const WORD_BITS: nat := 64

  function Pow2(n: nat): (p: nat)
    ensures p > 0
  {
    if n == 0 then 1 else 2 * Pow2(n - 1)
  }

  lemma {:induction false} Pow2Add(m: nat, n: nat)
    ensures Pow2(m + n) == Pow2(m) * Pow2(n)
    decreases m
  {
    if m > 0 {
      Pow2Add(m - 1, n);
    }
  }

  lemma Pow2Word()
    ensures Pow2(WORD_BITS) == TWO_TO_THE_64
  {
    assert Pow2(4) == 2 * 2 * 2 * 2 == 16;
    Pow2Add(4, 4);
    assert Pow2(8) == 0x100;
    Pow2Add(8, 8);
    assert Pow2(16) == 0x1_0000;
    Pow2Add(16, 16);
    assert Pow2(32) == 0x1_0000_0000;
    Pow2Add(32, 32);
  }

  predicate Bit(w: nat, i: nat)
    decreases i
  {
    if i == 0 then w % 2 == 1 else Bit(w / 2, i - 1)
  }

  function Digit(b: bool): nat {
    if b then 1 else 0
  }

  predicate Both(p: bool, q: bool) {
    p && q
  }

  predicate Either(p: bool, q: bool) {
    p || q
  }

  predicate Differ(p: bool, q: bool) {
    p != q
  }

  /** The lowest `n` bits of both, combined one by one. */
  function Combined(f: (bool, bool) -> bool, l: nat, r: nat, n: nat): (w: nat)
    ensures w < Pow2(n)
    decreases n
  {
    if n == 0 then 0 else Digit(f(l % 2 == 1, r % 2 == 1)) + 2 * Combined(f, l / 2, r / 2, n - 1)
  }

  lemma {:induction false} CombinedBits(f: (bool, bool) -> bool, l: nat, r: nat, n: nat, i: nat)
    requires i < n
    ensures Bit(Combined(f, l, r, n), i) == f(Bit(l, i), Bit(r, i))
    decreases n
  {
    if i > 0 {
      CombinedBits(f, l / 2, r / 2, n - 1, i - 1);
    }
  }

  /** A number is its bits. */
  lemma {:induction false} SameBits(a: nat, b: nat, n: nat)
    requires a < Pow2(n) && b < Pow2(n) && forall i: nat :: i < n ==> Bit(a, i) == Bit(b, i)
    ensures a == b
    decreases n
  {
    if n > 0 {
      assert Bit(a, 0) == Bit(b, 0);
      forall i: nat | i < n - 1 ensures Bit(a / 2, i) == Bit(b / 2, i) {
        assert Bit(a, i + 1) == Bit(b, i + 1);
      }
      SameBits(a / 2, b / 2, n - 1);
    }
  }

  lemma {:induction false} NotBits(w: nat, n: nat, i: nat)
    requires w < Pow2(n) && i < n
    ensures Bit(Pow2(n) - 1 - w, i) == !Bit(w, i)
    decreases n
  {
    if i > 0 {
      assert (Pow2(n) - 1 - w) / 2 == Pow2(n - 1) - 1 - w / 2;
      NotBits(w / 2, n - 1, i - 1);
    }
  }

  function ShiftLeft(w: Word, k: nat): Word {
    if k == 0 then w else Wrap(2 * ShiftLeft(w, k - 1))
  }

  function ShiftRight(w: Word, k: nat): Word {
    if k == 0 then w else ShiftRight(w, k - 1) / 2
  }

  /** A left shift multiplies by a power of two, and drops what does not fit. */
  lemma {:induction false} ShiftLeftIs(w: Word, k: nat)
    ensures ShiftLeft(w, k) == Wrap(w * Pow2(k))
  {
    if k > 0 {
      ShiftLeftIs(w, k - 1);
      DoubleWrapped(w * Pow2(k - 1));
      assert 2 * (w * Pow2(k - 1)) == w * Pow2(k);
    }
  }

  lemma DoubleWrapped(n: nat)
    ensures Wrap(2 * Wrap(n)) == Wrap(2 * n)
  {
  }

  /** A right shift divides by it. */
  lemma {:induction false} ShiftRightIs(w: Word, k: nat)
    ensures ShiftRight(w, k) == w / Pow2(k)
  {
    if k > 0 {
      ShiftRightIs(w, k - 1);
      HalfOfQuotient(w, Pow2(k - 1));
    }
  }

  lemma HalfOfQuotient(n: nat, p: nat)
    requires p > 0
    ensures n / p / 2 == n / (2 * p)
  {
    var q := n / p / 2;
    assert n == p * (n / p) + n % p;
    assert n / p == 2 * q + n / p % 2;
    QuotientIs(n, 2 * p, q, p * (n / p % 2) + n % p);
  }

  lemma {:induction false} ProductsApart(d: nat, a: nat, b: nat)
    ensures a < b ==> d * a + d <= d * b
    decreases b
  {
    if a < b {
      assert d * b == d * (b - 1) + d;
      ProductsApart(d, a, b - 1);
    }
  }

  lemma QuotientIs(n: nat, d: nat, q: nat, r: nat)
    requires d > 0 && r < d && n == d * q + r
    ensures n / d == q
  {
    assert n == d * (n / d) + n % d;
    ProductsApart(d, n / d, q);
    ProductsApart(d, q, n / d);
  }
}
