/** Where elements and members lie and what type they have: laws of the resolver (src/ast_eval.c). */
module PlaceLaws {
  import opened Basics
  import opened Grammar
  import opened Evaluator
  import opened OperatorLaws
  import opened WatchTable

  // ----- variables -----

  /** A variable of one to eight bytes evaluates exactly when they can be read, to the word they make, least
      significant byte first; one of another size is read as eight. */
  lemma VariableLaw(env: Env, name: string)
    requires env.find(name).Some?
    ensures var p := env.find(name).value;
            var n := if 1 <= p.v.size <= 8 then p.v.size else 8;
            && (Eval(env, Ident(name)).Some? <==> Readable(env.memory, p.addr, n))
            && (Eval(env, Ident(name)).Some? ==>
                  Some(Eval(env, Ident(name)).value.value as int) == ReadLittle(env.memory, p.addr, n))
  {
    var p := env.find(name).value;
    ReadableIff(env.memory, p.addr, ScalarWidth(p.v.size));
  }

  // ----- types -----

  /** A type name that is no pointer's, without spaces at its end. */
  predicate Named(t: string) {
    '*' !in t && (t == "" || t[|t| - 1] != ' ')
  }

  lemma {:induction false} TrimmedIs(s: string)
    ensures TrimEnd(s) <= s && (TrimEnd(s) == "" || TrimEnd(s)[|TrimEnd(s)| - 1] != ' ')
  {
    if s != "" && s[|s| - 1] == ' ' {
      TrimmedIs(s[..|s| - 1]);
    }
  }

  lemma {:induction false} BeforeStarHasNone(s: string)
    ensures '*' !in BeforeStar(s)
  {
    if s != "" && s[0] != '*' {
      BeforeStarHasNone(s[1..]);
    }
  }

  /** Only one level of pointers is ever taken off: what a pointer points at is never a pointer. */
  lemma PointeeIsNamed(t: string)
    requires HasStar(t)
    ensures Named(Pointee(t))
  {
    BeforeStarHasNone(t);
    TrimmedIs(BeforeStar(t));
  }

  lemma PointerToHasStar(t: string)
    requires t != ""
    ensures HasStar(PointerTo(t))
  {
    var p := PointerTo(t);
    assert p[|p| - 1] == '*';
  }

  /** A pointer to `t` points at `t` again exactly when `t` is no pointer itself. */
  lemma PointeeOfPointerIff(t: string)
    ensures Pointee(PointerTo(t)) == t <==> Named(t)
  {
    if t != "" {
      PointerToHasStar(t);
      PointeeIsNamed(PointerTo(t));
      if Named(t) {
        PointeeIs(t);
      }
    }
  }

  // ----- elements -----

  /** Indexing a place resolves exactly within an array, or where a pointer can be read. */
  lemma IndexResolvesIff(env: Env, b: Ast, i: Ast, w: Word)
    requires Resolve(env, b).Some? && EvalsTo(env, i, w)
    ensures var base := Resolve(env, b).value;
            Resolve(env, Index(b, i)).Some? <==>
              if base.v.isArray then w < base.v.arrayCount else base.v.isPointer && Readable(env.memory, base.addr, 8)
  {
    ReadableIff(env.memory, Resolve(env, b).value.addr, 8);
  }

  lemma ElementsAt(env: Env, b: Ast, i: Ast, w: Word)
    requires EvalsTo(env, i, w) && Resolve(env, Index(b, i)).Some?
    ensures Resolve(env, b).Some? && Resolve(env, Index(b, i)) == ElementAt(env, Resolve(env, b).value, w)
  {
  }

  lemma FirstAt(env: Env, base: Place)
    requires ElementAt(env, base, 0).Some?
    ensures var e := ElementAt(env, base, 0).value;
            if base.v.isArray then
              e.addr == base.addr && e.v.typ == base.v.elementType && e.v.size == base.v.elementSize
            else
              && Some(e.addr as int) == ReadLittle(env.memory, base.addr, 8)
              && e.v.typ == Pointee(base.v.typ) && e.v.size == env.sizeOf(Pointee(base.v.typ))
  {
    hide Pointee, ReadLittle, Pow256;
  }

  /** The first element of an array is where the array is; that of a pointer, where it points. */
  lemma FirstElement(env: Env, b: Ast, i: Ast)
    requires EvalsTo(env, i, 0) && Resolve(env, Index(b, i)).Some?
    ensures Resolve(env, b).Some?
    ensures var base, e := Resolve(env, b).value, Resolve(env, Index(b, i)).value;
            if base.v.isArray then
              e.addr == base.addr && e.v.typ == base.v.elementType && e.v.size == base.v.elementSize
            else
              && Some(e.addr as int) == ReadLittle(env.memory, base.addr, 8)
              && e.v.typ == Pointee(base.v.typ) && e.v.size == env.sizeOf(Pointee(base.v.typ))
  {
    ElementsAt(env, b, i, 0);
    FirstAt(env, Resolve(env, b).value);
    hide Resolve, Eval, ElementAt, Pointee;
  }

  lemma Apart(base: int, w: nat, size: nat)
    ensures Wrap(Wrap(base + (w + 1) * size) as int - Wrap(base + w * size) as int) == Wrap(size)
  {
    var lo := base + w * size;
    assert base + (w + 1) * size == lo + size;
    WrapDifference(lo, size);
  }

  lemma WrapDifference(lo: int, d: int)
    ensures Wrap(Wrap(lo + d) as int - Wrap(lo) as int) == Wrap(d)
  {
  }

  lemma NextElementAt(env: Env, base: Place, w: Word)
    requires w + 1 < TWO_TO_THE_64 && ElementAt(env, base, w + 1).Some?
    ensures ElementAt(env, base, w).Some?
    ensures var p, q := ElementAt(env, base, w).value, ElementAt(env, base, w + 1).value;
            q.v == p.v && Wrap(q.addr as int - p.addr as int) == Wrap(p.v.size)
  {
    hide Wrap;
    if base.v.isArray {
      Apart(base.addr, w, base.v.elementSize);
    } else {
      Apart(ReadScalar(env, base.addr, 8).value, w, env.sizeOf(Pointee(base.v.typ)));
    }
  }

  lemma AddressOf(env: Env, e: Ast)
    requires Resolve(env, e).Some?
    ensures EvalsTo(env, Unary(Addr, e), Resolve(env, e).value.addr)
    ensures Eval(env, Unary(Addr, e)).value.typ == PointerTo(Resolve(env, e).value.v.typ)
  {
  }

  /** Elements follow one another: with `b[j]` there is `b[j - 1]`, of the same type, and
      `&b[j] - &b[j - 1]` is the size of an element. */
  lemma ElementsApart(env: Env, b: Ast, i: Ast, j: Ast, w: Word)
    requires w + 1 < TWO_TO_THE_64 && EvalsTo(env, i, w) && EvalsTo(env, j, w + 1)
    requires Resolve(env, Index(b, j)).Some?
    ensures Resolve(env, Index(b, i)).Some?
    ensures Resolve(env, Index(b, j)).value.v == Resolve(env, Index(b, i)).value.v
    ensures EvalsTo(env, Binary(Sub, Unary(Addr, Index(b, j)), Unary(Addr, Index(b, i))),
                    Wrap(Resolve(env, Index(b, i)).value.v.size))
  {
    ElementsAt(env, b, j, w + 1);
    NextElementAt(env, Resolve(env, b).value, w);
    ElementsAtToo(env, b, i, w);
    hide *;
    AddressOf(env, Index(b, i));
    AddressOf(env, Index(b, j));
    SumOf(env, Unary(Addr, Index(b, j)), Unary(Addr, Index(b, i)),
          Resolve(env, Index(b, j)).value.addr, Resolve(env, Index(b, i)).value.addr);
  }

  lemma ElementsAtToo(env: Env, b: Ast, i: Ast, w: Word)
    requires Resolve(env, b).Some? && EvalsTo(env, i, w)
    ensures Resolve(env, Index(b, i)) == ElementAt(env, Resolve(env, b).value, w)
  {
  }

  /** Through a pointer to `t`, an element has the type `t` exactly when `t` is no pointer itself. */
  lemma ElementTypeIff(env: Env, b: Ast, i: Ast, t: string)
    requires Resolve(env, Index(b, i)).Some? && Resolve(env, b).Some?
    requires var base := Resolve(env, b).value; !base.v.isArray && base.v.typ == PointerTo(t)
    ensures Resolve(env, Index(b, i)).value.v.typ == t <==> Named(t)
  {
    PointeeOfPointerIff(t);
  }

  // ----- members -----

  lemma OffsetIs(a: Word, d: Word)
    ensures Wrap(Wrap(a as int + d as int) as int - a as int) == d
  {
  }

  /** `b.m` is there exactly when the type of `b` has the member; `&b.m - &b` is its offset. */
  lemma MemberLaw(env: Env, b: Ast, m: string)
    requires Resolve(env, b).Some?
    ensures var info := env.member(Resolve(env, b).value.v.typ, m);
            && (Resolve(env, Member(b, m)).Some? <==> info.Some?)
            && (info.Some? ==>
                  && var v := Resolve(env, Member(b, m)).value.v;
                  && v.typ == info.value.typ && v.size == info.value.size && v.isSigned == info.value.isSigned
                  && EvalsTo(env, Binary(Sub, Unary(Addr, Member(b, m)), Unary(Addr, b)), info.value.offset))
  {
    hide Pointee, ApplyUnary;
    var base := Resolve(env, b).value;
    var info := env.member(base.v.typ, m);
    if info.Some? {
      OffsetIs(base.addr, info.value.offset);
      var at: Word := Wrap(base.addr as int + info.value.offset as int);
      assert Resolve(env, Member(b, m)).value.addr == at;
      hide *;
      AddressOf(env, b);
      AddressOf(env, Member(b, m));
      SumOf(env, Unary(Addr, Member(b, m)), Unary(Addr, b), at, base.addr);
    }
  }

  lemma ArrowTo(env: Env, x: Ast, m: string)
    requires Resolve(env, x).Some? && ScalarWidth(EvalWidth(x, Resolve(env, x).value)) == 8
    requires Resolve(env, x).value.v.isPointer
    ensures var base := Resolve(env, x).value;
            match ReadScalar(env, base.addr, 8)
            case None => Resolve(env, Arrow(x, m)).None?
            case Some(ptr) =>
              EvalsTo(env, x, ptr) && Resolve(env, Arrow(x, m)) == MemberAt(env, Pointee(base.v.typ), ptr, m)
  {
    hide Pointee, HasStar, ElementAt, MemberAt;
    ArrowAt(env, x, m);
    EvalReadsPlace(env, x);
  }

  /** `x->m` is there exactly when `x` is a readable pointer to a struct with the member;
      `&x->m - x` is its offset. */
  lemma ArrowLaw(env: Env, x: Ast, m: string)
    requires Resolve(env, x).Some? && ScalarWidth(EvalWidth(x, Resolve(env, x).value)) == 8
    ensures var base := Resolve(env, x).value;
            var info := env.member(Pointee(base.v.typ), m);
            && (Resolve(env, Arrow(x, m)).Some? <==> base.v.isPointer && Readable(env.memory, base.addr, 8) && info.Some?)
            && (Resolve(env, Arrow(x, m)).Some? ==>
                  && var v := Resolve(env, Arrow(x, m)).value.v;
                  && v.typ == info.value.typ && v.size == info.value.size && v.isSigned == info.value.isSigned
                  && EvalsTo(env, Binary(Sub, Unary(Addr, Arrow(x, m)), x), info.value.offset))
  {
    hide Pointee, HasStar, Eval, EvalsTo, PointerTo;
    var base := Resolve(env, x).value;
    ReadableIff(env.memory, base.addr, 8);
    if base.v.isPointer {
      ArrowTo(env, x, m);
      if Resolve(env, Arrow(x, m)).Some? {
        var ptr := ReadScalar(env, base.addr, 8).value;
        OffsetIs(ptr, env.member(Pointee(base.v.typ), m).value.offset);
        AddressOf(env, Arrow(x, m));
        SumOf(env, Unary(Addr, Arrow(x, m)), x, Resolve(env, Arrow(x, m)).value.addr, ptr);
      }
    }
  }

  // ----- a pointer to a pointer -----

  const INT_POINTERS: string := "int **"

  lemma IntPointersPointee()
    ensures HasStar(INT_POINTERS) && Pointee(INT_POINTERS) == INT
  {
    var s := INT_POINTERS;
    assert s[4] == '*';
    assert s[1..][0] == 'n' && s[1..][1..][0] == 't' && s[1..][1..][1..][0] == ' ' && s[1..][1..][1..][1..][0] == '*';
    assert BeforeStar(s[1..][1..][1..][1..]) == "";
    assert BeforeStar(s[1..][1..][1..]) == " ";
    assert BeforeStar(s[1..][1..]) == "t ";
    assert BeforeStar(s[1..]) == "nt ";
    assert BeforeStar(s) == "int ";
    assert "int "[..3] == "int";
    assert TrimEnd("int ") == TrimEnd("int") == "int";
  }

  /** `int **pp` is indexed by the size of an int: `pp[1]` lies four bytes after `pp[0]`, amid a pointer. */
  lemma PointersTooClose(env: Env, pp: string)
    requires env.find(pp).Some? && env.find(pp).value.v == NO_VAR.(typ := INT_POINTERS, size := 8, isPointer := true)
    requires Readable(env.memory, env.find(pp).value.addr, 8) && env.sizeOf(INT) == 4
    ensures Resolve(env, Index(Ident(pp), Num(1))).Some?
    ensures EvalsTo(env, Binary(Sub, Unary(Addr, Index(Ident(pp), Num(1))), Unary(Addr, Index(Ident(pp), Num(0)))), 4)
  {
    assert EvalsTo(env, Num(0), 0) && EvalsTo(env, Num(1), 1) && Resolve(env, Ident(pp)) == env.find(pp);
    IntPointersPointee();
    IndexResolvesIff(env, Ident(pp), Num(1), 1);
    ElementsApart(env, Ident(pp), Num(0), Num(1), 0);
    FirstElement(env, Ident(pp), Num(0));
  }
}
