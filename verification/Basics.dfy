/** Small shared vocabulary: optional values and machine bytes. */
module Basics {

  datatype Option<+T> = None | Some(value: T)

  type Byte = b: int | 0 <= b < 256

  const TWO_TO_THE_64: nat := 0x1_0000_0000_0000_0000

  type Word = w: int | 0 <= w < TWO_TO_THE_64

  /** Unsigned 64-bit wrap-around. */
  function Wrap(n: int): Word {
    n % TWO_TO_THE_64
  }

  // ----- requests to the operating system -----

  /** Whether the operating system grants its n-th request. */
  type Answers = nat -> bool

  ghost predicate AllGranted(g: Answers, lo: nat, hi: nat) {
    forall n :: lo <= n < hi ==> g(n)
  }

  /** How many of the first `n` requests are refused. */
  ghost function Refusals(g: Answers, n: nat): nat {
    if n == 0 then 0 else Refusals(g, n - 1) + if g(n - 1) then 0 else 1
  }

  /** Requests `lo` up to `hi` were made: none refused, or exactly one. */
  ghost predicate Answered(g: Answers, lo: nat, hi: nat, ok: bool) {
    lo <= hi && Refusals(g, hi) == Refusals(g, lo) + if ok then 0 else 1
  }

  lemma {:induction false} RefusalsIff(g: Answers, lo: nat, hi: nat)
    requires lo <= hi
    ensures Refusals(g, lo) <= Refusals(g, hi)
    ensures Refusals(g, lo) == Refusals(g, hi) <==> AllGranted(g, lo, hi)
    decreases hi
  {
    if lo < hi {
      RefusalsIff(g, lo, hi - 1);
    }
  }

  // ----- bytes in a word -----

  function Pow256(n: nat): nat {
    if n == 0 then 1 else 256 * Pow256(n - 1)
  }

  lemma {:induction false} Pow256Grows(n: nat, m: nat)
    requires n <= m
    ensures Pow256(n) <= Pow256(m)
    decreases m
  {
    if n < m {
      Pow256Grows(n, m - 1);
    }
  }

  lemma Pow256Word()
    ensures Pow256(4) == 0x1_0000_0000 && Pow256(8) == TWO_TO_THE_64
  {
    assert Pow256(4) == 256 * 256 * 256 * 256;
    assert Pow256(8) == 256 * 256 * 256 * 256 * Pow256(4);
  }
}
