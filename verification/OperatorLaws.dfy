/** What the operators of the expression language mean: laws of evaluation (src/ast_eval.c). */
module OperatorLaws {
  import opened Basics
  import opened Bits
  import opened Grammar
  import opened Evaluator

  ghost predicate EvalsTo(env: Env, e: Ast, w: Word) {
    Eval(env, e).Some? && Eval(env, e).value.value == w
  }

  /** Equal modulo 2^64. */
  ghost predicate Congruent(a: int, b: int) {
    exists q: int :: a == b + q * TWO_TO_THE_64
  }

  lemma WrapCongruent(n: int)
    ensures Congruent(Wrap(n), n)
  {
    assert Wrap(n) == n + (-(n / TWO_TO_THE_64)) * TWO_TO_THE_64;
  }

  /** A binary expression evaluates both operands, and fails only with one of them or on a division by zero. */
  lemma BinaryFailsIff(env: Env, op: BinOp, x: Ast, y: Ast)
    ensures Eval(env, Binary(op, x, y)).None? <==>
              || Eval(env, x).None? || Eval(env, y).None?
              || ((op == Div || op == Mod) && Eval(env, y).value.value == 0)
  {
  }

  lemma BinaryOf(env: Env, op: BinOp, x: Ast, y: Ast, a: Word, b: Word)
    requires EvalsTo(env, x, a) && EvalsTo(env, y, b) && Combine(op, a, b).Some?
    ensures EvalsTo(env, Binary(op, x, y), Combine(op, a, b).value)
  {
    hide Combine;
  }

  // ----- sums, differences and products -----

  lemma SumOf(env: Env, x: Ast, y: Ast, a: Word, b: Word)
    requires EvalsTo(env, x, a) && EvalsTo(env, y, b)
    ensures EvalsTo(env, Binary(Add, x, y), Wrap(a as int + b as int))
    ensures EvalsTo(env, Binary(Sub, x, y), Wrap(a as int - b as int))
    ensures EvalsTo(env, Binary(Mul, x, y), Wrap(a as int * b as int))
  {
    hide Eval, Wrap, EvalsTo;
    BinaryOf(env, Add, x, y, a, b);
    BinaryOf(env, Sub, x, y, a, b);
    BinaryOf(env, Mul, x, y, a, b);
  }

  lemma WrapsUndo(a: Word, b: Word)
    ensures Wrap(Wrap(a as int + b as int) as int - b as int) == a && Wrap(Wrap(a as int - b as int) as int + b as int) == a
    ensures Wrap(a as int - a as int) == 0 && Wrap(Wrap(-(a as int)) as int + a as int) == 0
    ensures Wrap(Wrap(-(a as int)) as int - 1) == TWO_TO_THE_64 - 1 - a
  {
    assert Wrap(a as int + b as int) == if a + b < TWO_TO_THE_64 then a + b else a + b - TWO_TO_THE_64;
    assert Wrap(a as int - b as int) == if a >= b then a - b else a - b + TWO_TO_THE_64;
    assert Wrap(-(a as int)) == if a == 0 then 0 else TWO_TO_THE_64 - a;
  }

  /** Each undoes the other. */
  lemma SumsUndo(env: Env, x: Ast, y: Ast, a: Word, b: Word)
    requires EvalsTo(env, x, a) && EvalsTo(env, y, b)
    ensures EvalsTo(env, Binary(Sub, Binary(Add, x, y), y), a)
    ensures EvalsTo(env, Binary(Add, Binary(Sub, x, y), y), a)
    ensures EvalsTo(env, Binary(Sub, x, x), 0)
  {
    hide Eval, EvalsTo, Wrap;
    WrapsUndo(a, b);
    SumOf(env, x, y, a, b);
    SumOf(env, Binary(Add, x, y), y, Wrap(a as int + b as int), b);
    SumOf(env, Binary(Sub, x, y), y, Wrap(a as int - b as int), b);
    SumOf(env, x, x, a, a);
  }

  /** Sum, difference and product are those of the integers, modulo 2^64. */
  lemma SumsAreIntegers(env: Env, x: Ast, y: Ast, a: Word, b: Word)
    requires EvalsTo(env, x, a) && EvalsTo(env, y, b)
    ensures exists w: Word :: EvalsTo(env, Binary(Add, x, y), w) && Congruent(w, a + b)
    ensures exists w: Word :: EvalsTo(env, Binary(Sub, x, y), w) && Congruent(w, a - b)
    ensures exists w: Word :: EvalsTo(env, Binary(Mul, x, y), w) && Congruent(w, a * b)
  {
    hide Eval, Congruent, EvalsTo, Wrap;
    SumOf(env, x, y, a, b);
    WrapCongruent(a as int + b as int);
    WrapCongruent(a as int - b as int);
    WrapCongruent(a as int * b as int);
  }

  // ----- division -----

  lemma DividendIs(a: Word, b: Word)
    requires b > 0
    ensures a == Quotient(a, b) * b + Remainder(a, b) && Remainder(a, b) < b
    ensures 0 <= Quotient(a, b) * b <= a
  {
    assert a == b * (a / b) + a % b;
  }

  lemma WrapWord(w: Word)
    ensures Wrap(w) == w
  {
  }

  lemma DivisionOf(env: Env, x: Ast, y: Ast, a: Word, b: Word)
    requires EvalsTo(env, x, a) && EvalsTo(env, y, b) && b > 0
    ensures EvalsTo(env, Binary(Div, x, y), Quotient(a, b)) && EvalsTo(env, Binary(Mod, x, y), Remainder(a, b))
  {
    hide Eval, EvalsTo, Quotient, Remainder;
    BinaryOf(env, Div, x, y, a, b);
    BinaryOf(env, Mod, x, y, a, b);
  }

  /** Quotient and remainder make up the dividend again. */
  lemma DivisionLaw(env: Env, x: Ast, y: Ast, a: Word, b: Word)
    requires EvalsTo(env, x, a) && EvalsTo(env, y, b) && b > 0
    ensures EvalsTo(env, Binary(Add, Binary(Mul, Binary(Div, x, y), y), Binary(Mod, x, y)), a)
    ensures exists q: Word, r: Word ::
              EvalsTo(env, Binary(Div, x, y), q) && EvalsTo(env, Binary(Mod, x, y), r) && a == q * b + r && r < b
  {
    hide Eval, EvalsTo, Quotient, Remainder, Wrap;
    var q, r := Quotient(a, b), Remainder(a, b);
    DivisionOf(env, x, y, a, b);
    DividendIs(a, b);
    WrapWord(q * b);
    WrapWord(a);
    SumOf(env, Binary(Div, x, y), y, q, b);
    SumOf(env, Binary(Mul, Binary(Div, x, y), y), Binary(Mod, x, y), q * b, r);
  }

  // ----- comparisons and truth -----

  /** Comparisons give 1 or 0 and order the values as unsigned words. */
  lemma ComparisonLaw(env: Env, x: Ast, y: Ast, a: Word, b: Word)
    requires EvalsTo(env, x, a) && EvalsTo(env, y, b)
    ensures EvalsTo(env, Binary(Lt, x, y), if a < b then 1 else 0)
    ensures EvalsTo(env, Binary(Gt, x, y), if b < a then 1 else 0)
    ensures EvalsTo(env, Binary(Eq, x, y), if a == b then 1 else 0)
    ensures EvalsTo(env, Binary(Le, x, y), if b < a then 0 else 1)
    ensures EvalsTo(env, Binary(Ge, x, y), if a < b then 0 else 1)
    ensures EvalsTo(env, Binary(Ne, x, y), if a == b then 0 else 1)
  {
    hide Eval, EvalsTo;
    BinaryOf(env, Lt, x, y, a, b);
    BinaryOf(env, Gt, x, y, a, b);
    BinaryOf(env, Eq, x, y, a, b);
    BinaryOf(env, Le, x, y, a, b);
    BinaryOf(env, Ge, x, y, a, b);
    BinaryOf(env, Ne, x, y, a, b);
  }

  /** Exactly one of `<`, `==` and `>` holds. */
  lemma Trichotomy(env: Env, x: Ast, y: Ast, a: Word, b: Word)
    requires EvalsTo(env, x, a) && EvalsTo(env, y, b)
    ensures EvalsTo(env, Binary(Add, Binary(Add, Binary(Lt, x, y), Binary(Eq, x, y)), Binary(Gt, x, y)), 1)
  {
    hide Eval, EvalsTo, Combine;
    var lt: Word, eq: Word, gt: Word := if a < b then 1 else 0, if a == b then 1 else 0, if b < a then 1 else 0;
    ComparisonLaw(env, x, y, a, b);
    SumOf(env, Binary(Lt, x, y), Binary(Eq, x, y), lt, eq);
    SumOf(env, Binary(Add, Binary(Lt, x, y), Binary(Eq, x, y)), Binary(Gt, x, y), lt + eq, gt);
  }

  lemma NotOf(env: Env, x: Ast, a: Word)
    requires EvalsTo(env, x, a)
    ensures EvalsTo(env, Unary(Not, x), if a == 0 then 1 else 0)
  {
  }

  /** A value is true when it is not zero; the connectives give 1 or 0. */
  lemma TruthLaw(env: Env, x: Ast, y: Ast, a: Word, b: Word)
    requires EvalsTo(env, x, a) && EvalsTo(env, y, b)
    ensures EvalsTo(env, Binary(Land, x, y), if a == 0 || b == 0 then 0 else 1)
    ensures EvalsTo(env, Binary(Lor, x, y), if a == 0 && b == 0 then 0 else 1)
    ensures EvalsTo(env, Unary(Not, x), if a == 0 then 1 else 0)
    ensures EvalsTo(env, Unary(Not, Unary(Not, x)), if a == 0 then 0 else 1)
  {
    hide Eval, EvalsTo;
    BinaryOf(env, Land, x, y, a, b);
    BinaryOf(env, Lor, x, y, a, b);
    NotOf(env, x, a);
    NotOf(env, Unary(Not, x), if a == 0 then 1 else 0);
  }

  // ----- bits -----

  lemma BitwiseOf(env: Env, op: BinOp, x: Ast, y: Ast, a: Word, b: Word)
    requires op == Shl || op == Shr || op == Band || op == Bxor || op == Bor
    requires EvalsTo(env, x, a) && EvalsTo(env, y, b)
    ensures EvalsTo(env, Binary(op, x, y), Bitwise(op, a, b))
  {
    hide Eval, EvalsTo, Bitwise;
    BinaryOf(env, op, x, y, a, b);
  }

  lemma ShiftsAre(a: Word, k: Word)
    requires k < WORD_BITS
    ensures Bitwise(Shl, a, k) == ShiftLeft(a, k) && Bitwise(Shr, a, k) == ShiftRight(a, k)
  {
    hide ShiftLeft, ShiftRight, Combined;
  }

  lemma BitwiseIs(a: Word, b: Word, n: nat)
    requires n == WORD_BITS
    ensures Bitwise(Band, a, b) == Combined(Both, a, b, n) && Bitwise(Bor, a, b) == Combined(Either, a, b, n)
    ensures Bitwise(Bxor, a, b) == Combined(Differ, a, b, n)
  {
    hide Combined;
  }

  lemma BitwiseBits(a: Word, b: Word, i: nat)
    requires i < WORD_BITS
    ensures Bit(Bitwise(Band, a, b), i) <==> Bit(a, i) && Bit(b, i)
    ensures Bit(Bitwise(Bor, a, b), i) <==> Bit(a, i) || Bit(b, i)
    ensures Bit(Bitwise(Bxor, a, b), i) <==> Bit(a, i) != Bit(b, i)
  {
    hide Bit, Combined, Bitwise;
    BitwiseIs(a, b, WORD_BITS);
    CombinedBits(Both, a, b, WORD_BITS, i);
    CombinedBits(Either, a, b, WORD_BITS, i);
    CombinedBits(Differ, a, b, WORD_BITS, i);
  }

  /** Shifting left multiplies by a power of two, modulo 2^64. */
  lemma ShiftLeftLaw(env: Env, x: Ast, y: Ast, a: Word, k: Word)
    requires EvalsTo(env, x, a) && EvalsTo(env, y, k) && k < WORD_BITS
    ensures exists w: Word :: EvalsTo(env, Binary(Shl, x, y), w) && Congruent(w, a * Pow2(k))
  {
    hide Eval, EvalsTo, Congruent, Wrap, Bitwise, Pow2, ShiftLeft;
    ShiftsAre(a, k);
    BitwiseOf(env, Shl, x, y, a, k);
    ShiftLeftIs(a, k);
    WrapCongruent(a * Pow2(k));
  }

  /** Shifting right divides by it. */
  lemma ShiftRightLaw(env: Env, x: Ast, y: Ast, a: Word, k: Word)
    requires EvalsTo(env, x, a) && EvalsTo(env, y, k) && k < WORD_BITS
    ensures exists w: Word :: EvalsTo(env, Binary(Shr, x, y), w) && w == a / Pow2(k)
  {
    hide Eval, EvalsTo, Bitwise, Pow2, ShiftRight;
    ShiftsAre(a, k);
    BitwiseOf(env, Shr, x, y, a, k);
    ShiftRightIs(a, k);
  }

  /** `&`, `|` and `^` go bit by bit. */
  lemma BitLaw(env: Env, x: Ast, y: Ast, a: Word, b: Word, i: nat)
    requires EvalsTo(env, x, a) && EvalsTo(env, y, b) && i < WORD_BITS
    ensures exists w: Word :: EvalsTo(env, Binary(Band, x, y), w) && (Bit(w, i) <==> Bit(a, i) && Bit(b, i))
    ensures exists w: Word :: EvalsTo(env, Binary(Bor, x, y), w) && (Bit(w, i) <==> Bit(a, i) || Bit(b, i))
    ensures exists w: Word :: EvalsTo(env, Binary(Bxor, x, y), w) && (Bit(w, i) <==> Bit(a, i) != Bit(b, i))
  {
    hide Eval, EvalsTo, Bit, Bitwise;
    BitwiseOf(env, Band, x, y, a, b);
    BitwiseOf(env, Bor, x, y, a, b);
    BitwiseOf(env, Bxor, x, y, a, b);
    BitwiseBits(a, b, i);
  }

  lemma ComplementOf(env: Env, x: Ast, a: Word)
    requires EvalsTo(env, x, a)
    ensures EvalsTo(env, Unary(Bnot, x), TWO_TO_THE_64 - 1 - a)
  {
  }

  lemma ComplementBits(a: Word, i: nat)
    requires i < WORD_BITS
    ensures Bit(TWO_TO_THE_64 - 1 - a, i) <==> !Bit(a, i)
  {
    hide Bit;
    Pow2Word();
    NotBits(a, WORD_BITS, i);
  }

  /** The complement of a conjunction is the disjunction of the complements, and the other way round. */
  lemma DeMorgan(env: Env, x: Ast, y: Ast, a: Word, b: Word)
    requires EvalsTo(env, x, a) && EvalsTo(env, y, b)
    ensures exists w: Word :: EvalsTo(env, Unary(Bnot, Binary(Band, x, y)), w)
                              && EvalsTo(env, Binary(Bor, Unary(Bnot, x), Unary(Bnot, y)), w)
    ensures exists w: Word :: EvalsTo(env, Unary(Bnot, Binary(Bor, x, y)), w)
                              && EvalsTo(env, Binary(Band, Unary(Bnot, x), Unary(Bnot, y)), w)
  {
    hide Eval, EvalsTo, Bitwise;
    var top := TWO_TO_THE_64 - 1;
    ComplementOf(env, x, a);
    ComplementOf(env, y, b);
    BitwiseOf(env, Band, x, y, a, b);
    BitwiseOf(env, Bor, x, y, a, b);
    ComplementOf(env, Binary(Band, x, y), Bitwise(Band, a, b));
    ComplementOf(env, Binary(Bor, x, y), Bitwise(Bor, a, b));
    BitwiseOf(env, Bor, Unary(Bnot, x), Unary(Bnot, y), top - a, top - b);
    BitwiseOf(env, Band, Unary(Bnot, x), Unary(Bnot, y), top - a, top - b);
    ComplementsMeet(a, b);
  }

  lemma ComplementsMeet(a: Word, b: Word)
    ensures var top := TWO_TO_THE_64 - 1;
            && top - Bitwise(Band, a, b) == Bitwise(Bor, top - a, top - b)
            && top - Bitwise(Bor, a, b) == Bitwise(Band, top - a, top - b)
  {
    hide Bit, Bitwise;
    var top := TWO_TO_THE_64 - 1;
    var l1: Word, r1: Word := top - Bitwise(Band, a, b), Bitwise(Bor, top - a, top - b);
    var l2: Word, r2: Word := top - Bitwise(Bor, a, b), Bitwise(Band, top - a, top - b);
    forall i: nat | i < WORD_BITS ensures Bit(l1, i) == Bit(r1, i) && Bit(l2, i) == Bit(r2, i) {
      BitwiseBits(a, b, i);
      BitwiseBits(top - a, top - b, i);
      ComplementBits(a, i);
      ComplementBits(b, i);
      ComplementBits(Bitwise(Band, a, b), i);
      ComplementBits(Bitwise(Bor, a, b), i);
    }
    Pow2Word();
    SameBits(l1, r1, WORD_BITS);
    SameBits(l2, r2, WORD_BITS);
  }

  /** Exclusive or undoes itself. */
  lemma XorUndoes(env: Env, x: Ast, y: Ast, a: Word, b: Word)
    requires EvalsTo(env, x, a) && EvalsTo(env, y, b)
    ensures EvalsTo(env, Binary(Bxor, x, x), 0)
    ensures EvalsTo(env, Binary(Bxor, Binary(Bxor, x, y), y), a)
  {
    hide Eval, EvalsTo, Bitwise;
    BitwiseOf(env, Bxor, x, x, a, a);
    BitwiseOf(env, Bxor, x, y, a, b);
    BitwiseOf(env, Bxor, Binary(Bxor, x, y), y, Bitwise(Bxor, a, b), b);
    XorTwice(a, b);
  }

  lemma XorTwice(a: Word, b: Word)
    ensures Bitwise(Bxor, a, a) == 0 && Bitwise(Bxor, Bitwise(Bxor, a, b), b) == a
  {
    hide Bit, Bitwise;
    var none: Word, back: Word := Bitwise(Bxor, a, a), Bitwise(Bxor, Bitwise(Bxor, a, b), b);
    forall i: nat | i < WORD_BITS ensures Bit(none, i) == Bit(0, i) && Bit(back, i) == Bit(a, i) {
      BitwiseBits(a, a, i);
      BitwiseBits(a, b, i);
      BitwiseBits(Bitwise(Bxor, a, b), b, i);
      ZeroBits(i);
    }
    Pow2Word();
    SameBits(none, 0, WORD_BITS);
    SameBits(back, a, WORD_BITS);
  }

  lemma {:induction false} ZeroBits(i: nat)
    ensures !Bit(0, i)
  {
    if i > 0 {
      ZeroBits(i - 1);
    }
  }

  // ----- unary operators -----

  lemma NegatedOf(env: Env, x: Ast, a: Word)
    requires EvalsTo(env, x, a) && !Eval(env, x).value.isFloat
    ensures EvalsTo(env, Unary(Neg, x), Wrap(-(a as int))) && EvalsTo(env, Num(1), 1)
    ensures Eval(env, Unary(Pos, x)) == Eval(env, x)
  {
  }

  /** On integers `-x` is what added to `x` gives zero, `~x` is one less, and `+x` is `x`. */
  lemma UnaryLaw(env: Env, x: Ast, a: Word)
    requires EvalsTo(env, x, a) && !Eval(env, x).value.isFloat
    ensures EvalsTo(env, Binary(Add, Unary(Neg, x), x), 0)
    ensures exists w: Word :: EvalsTo(env, Unary(Bnot, x), w) && EvalsTo(env, Binary(Sub, Unary(Neg, x), Num(1)), w)
    ensures EvalsTo(env, Unary(Bnot, Unary(Bnot, x)), a)
    ensures Eval(env, Unary(Pos, x)) == Eval(env, x)
  {
    hide Eval, EvalsTo, Wrap;
    var minus := Wrap(-(a as int));
    NegatedOf(env, x, a);
    ComplementOf(env, x, a);
    ComplementOf(env, Unary(Bnot, x), TWO_TO_THE_64 - 1 - a);
    WrapsUndo(a, a);
    SumOf(env, Unary(Neg, x), x, minus, a);
    SumOf(env, Unary(Neg, x), Num(1), minus, 1);
  }

  /** A binary expression is a floating-point one when its left operand is, and then shows that operand's
      value; a floating-point number is negated as one. */
  lemma FloatLaw(env: Env, op: BinOp, x: Ast, y: Ast)
    requires Eval(env, Binary(op, x, y)).Some?
    ensures Eval(env, x).Some?
    ensures var v, r := Eval(env, x).value, Eval(env, Binary(op, x, y)).value;
            && r.isFloat == v.isFloat && r.floatBits == v.floatBits
            && (v.isFloat ==>
                  && Eval(env, Unary(Neg, x)).Some?
                  && var n := Eval(env, Unary(Neg, x)).value; n.isFloat && n.value == n.floatBits == env.negateFloat(v.floatBits))
  {
    hide Combine;
  }

  /** A unary expression other than `*` and `&` fails only with its operand. */
  lemma UnaryFailsIff(env: Env, op: UnOp, x: Ast)
    requires op != Addr && op != Deref
    ensures Eval(env, Unary(op, x)).None? <==> Eval(env, x).None?
  {
  }
}
