/** Evaluating an expression and resolving it to an address (src/ast_eval.c). Debug information and
    debuggee memory are what `Env` says they are. */
module Evaluator {
  import opened Basics
  import opened Bits
  import opened Grammar
  import opened WatchTable

  datatype Var = Var(name: string, typ: string, elementType: string, size: nat, elementSize: nat,
                     arrayCount: nat, isPointer: bool, isSigned: bool, isArray: bool)

  const NO_VAR := Var("", "", "", 0, 0, 0, false, false, false)

  datatype MemberInfo = MemberInfo(offset: Word, size: nat, isSigned: bool, typ: string)

  datatype Place = Place(addr: Word, v: Var)

  datatype Value = Value(value: Word, isFloat: bool, floatBits: Word, isAddress: bool, typ: string)

  datatype Env = Env(
    find: string -> Option<Place>,                    // variables in scope
    memory: map<nat, Byte>,                           // the mapped bytes
    member: (string, string) -> Option<MemberInfo>,   // of a struct type
    sizeOf: string -> nat,
    negateFloat: Word -> Word)

  /** The bytes a scalar of this size is read from. */
  function ScalarWidth(size: nat): nat {
    if size == 0 || size > 8 then 8 else size
  }

  function ReadScalar(env: Env, addr: Word, size: nat): Option<Word> {
    match ReadLittle(env.memory, addr, ScalarWidth(size))
    case None => None
    case Some(v) =>
      Pow256Grows(ScalarWidth(size), 8);
      Pow256Word();
      Some(v)
  }

  predicate HasStar(typ: string) {
    '*' in typ
  }

  predicate IsUnsigned(typ: string) {
    exists k: nat :: k <= |typ| && "unsigned" <= typ[k..]
  }

  function TrimEnd(s: string): string {
    if s != "" && s[|s| - 1] == ' ' then TrimEnd(s[..|s| - 1]) else s
  }

  function BeforeStar(s: string): string {
    if s == "" || s[0] == '*' then "" else [s[0]] + BeforeStar(s[1..])
  }

  /** The type up to the first '*', without trailing spaces. */
  function Pointee(typ: string): string {
    if HasStar(typ) then TrimEnd(BeforeStar(typ)) else typ
  }

  function PointerTo(typ: string): string {
    if typ == "" then "" else TrimEnd(typ) + " *"
  }

  predicate IsLvalueShaped(e: Ast) {
    e.Ident? || e.Member? || e.Arrow? || e.Index? || (e.Unary? && e.uop == Deref)
  }

  function Truth(b: bool): Word {
    if b then 1 else 0
  }

  /** Operators on bits; shift counts are taken modulo 64. */
  function Bitwise(op: BinOp, l: Word, r: Word): Word {
    Pow2Word();
    match op
    case Shl => ShiftLeft(l, r % WORD_BITS)
    case Shr => ShiftRight(l, r % WORD_BITS)
    case Band => Combined(Both, l, r, WORD_BITS)
    case Bxor => Combined(Differ, l, r, WORD_BITS)
    case _ => Combined(Either, l, r, WORD_BITS)
  }

  lemma QuotientFits(l: Word, r: Word)
    requires r > 0
    ensures 0 <= l / r <= l
  {
  }

  function Quotient(l: Word, r: Word): Word
    requires r > 0
  {
    QuotientFits(l, r);
    l / r
  }

  function Remainder(l: Word, r: Word): Word
    requires r > 0
  {
    l % r
  }

  /** Unsigned 64-bit arithmetic; None is a division by zero. */
  function Combine(op: BinOp, l: Word, r: Word): Option<Word> {
    match op
    case Add => Some(Wrap(l as int + r as int))
    case Sub => Some(Wrap(l as int - r as int))
    case Mul => Some(Wrap(l as int * r as int))
    case Div => if r == 0 then None else Some(Quotient(l, r))
    case Mod => if r == 0 then None else Some(Remainder(l, r))
    case Lt => Some(Truth(l < r))
    case Gt => Some(Truth(l > r))
    case Le => Some(Truth(l <= r))
    case Ge => Some(Truth(l >= r))
    case Eq => Some(Truth(l == r))
    case Ne => Some(Truth(l != r))
    case Land => Some(Truth(l != 0 && r != 0))
    case Lor => Some(Truth(l != 0 || r != 0))
    case _ => Some(Bitwise(op, l, r))
  }

  /** What a pointer of this type points at, as a place. */
  function Pointed(env: Env, typ: string, addr: Word): Place {
    var pointee := Pointee(typ);
    Place(addr, NO_VAR.(typ := pointee, size := env.sizeOf(pointee),
                        isSigned := !IsUnsigned(pointee), isPointer := HasStar(pointee)))
  }

  function MemberAt(env: Env, structType: string, addr: Word, name: string): Option<Place> {
    match env.member(structType, name)
    case None => None
    case Some(m) =>
      Some(Place(Wrap(addr + m.offset),
                 NO_VAR.(name := name, typ := m.typ, size := m.size, isSigned := m.isSigned, isPointer := HasStar(m.typ))))
  }

  function ElementAt(env: Env, base: Place, index: Word): Option<Place> {
    var v := base.v;
    if v.isArray then
      if index >= v.arrayCount then None
      else Some(Place(Wrap(base.addr + index * v.elementSize),
                      NO_VAR.(typ := v.elementType, size := v.elementSize,
                              isSigned := !IsUnsigned(v.elementType), isPointer := HasStar(v.elementType))))
    else if v.isPointer then
      match ReadScalar(env, base.addr, 8)
      case None => None
      case Some(ptr) => Some(Pointed(env, v.typ, Wrap(ptr + index * env.sizeOf(Pointee(v.typ)))))
    else None
  }

  function Resolve(env: Env, e: Ast): Option<Place>
    decreases e, 0
  {
    match e
    case Ident(name) => env.find(name)
    case Member(b, name) =>
      (match Resolve(env, b)
       case None => None
       case Some(base) => MemberAt(env, base.v.typ, base.addr, name))
    case Arrow(b, name) =>
      (match Resolve(env, b)
       case None => None
       case Some(base) =>
         if !base.v.isPointer then None
         else match ReadScalar(env, base.addr, 8)
           case None => None
           case Some(ptr) => MemberAt(env, Pointee(base.v.typ), ptr, name))
    case Index(b, i) =>
      (match Resolve(env, b)
       case None => None
       case Some(base) =>
         match Eval(env, i)
         case None => None
         case Some(index) => ElementAt(env, base, index.value))
    case Unary(op, x) =>
      if op != Deref then None
      else (match Eval(env, x)
       case None => None
       case Some(inner) =>
         if x.Ident? && env.find(x.name).Some? && env.find(x.name).value.v.isPointer then
           Some(Pointed(env, env.find(x.name).value.v.typ, inner.value))
         else Some(Place(inner.value, NO_VAR.(size := 8))))
    case _ => None
  }

  function Plain(v: Word): Value {
    Value(v, false, 0, false, "")
  }

  function Read(env: Env, addr: Word, size: nat): Option<Value> {
    match ReadScalar(env, addr, size)
    case None => None
    case Some(w) => Some(Plain(w))
  }

  function Negated(env: Env, v: Value): Value {
    if v.isFloat then
      var bits := env.negateFloat(v.floatBits);
      Value(bits, true, bits, false, "")
    else Plain(Wrap(-(v.value as int)))
  }

  function ApplyUnary(env: Env, op: UnOp, v: Value): Option<Value> {
    if op == Pos then Some(v)
    else if op == Neg then Some(Negated(env, v))
    else if op == Not then Some(Plain(Truth(v.value == 0)))
    else if op == Bnot then Some(Plain(TWO_TO_THE_64 - 1 - v.value))
    else Read(env, v.value, 8)
  }

  function Eval(env: Env, e: Ast): Option<Value>
    decreases e, 1
  {
    match e
    case Num(w) => Some(Plain(w))
    case Float(bits) => Some(Value(bits, true, bits, false, ""))
    case Ident(name) =>
      (match env.find(name)
       case None => None
       case Some(p) => Read(env, p.addr, p.v.size))
    case Binary(op, l, r) =>
      (match Eval(env, l)
       case None => None
       case Some(lhs) =>
         match Eval(env, r)
         case None => None
         case Some(rhs) =>
           match Combine(op, lhs.value, rhs.value)
           case None => None
           case Some(w) => Some(Value(w, lhs.isFloat, lhs.floatBits, false, "")))
    case Unary(op, x) =>
      if op == Addr then
        if !IsLvalueShaped(x) then None
        else (match Resolve(env, x)
              case None => None
              case Some(p) => Some(Value(p.addr, false, 0, true, PointerTo(p.v.typ))))
      else (match Eval(env, x)
            case None => None
            case Some(v) => ApplyUnary(env, op, v))
    case _ =>
      (match Resolve(env, e)
       case None => None
       case Some(p) => Read(env, p.addr, p.v.size))
  }

  /** The width evaluation reads: the place's own, except that a dereference always reads eight bytes. */
  function EvalWidth(e: Ast, p: Place): nat {
    if e.Unary? then 8 else p.v.size
  }

  /** Resolver and evaluator agree: an lvalue-shaped expression evaluates exactly when it resolves
      and its place can be read, to what is read there. */
  lemma EvalReadsPlace(env: Env, e: Ast)
    requires IsLvalueShaped(e)
    ensures Eval(env, e) == match Resolve(env, e)
                            case None => None
                            case Some(p) => Read(env, p.addr, EvalWidth(e, p))
  {
    if e.Unary? {
      var inner := Eval(env, e.operand);
      if inner.Some? {
        assert Resolve(env, e).value.addr == inner.value.value;
      }
    }
  }

  /** `print` need not fall back on arithmetic when an lvalue-shaped expression fails to resolve. */
  lemma UnresolvedFails(env: Env, e: Ast)
    requires IsLvalueShaped(e) && Resolve(env, e).None?
    ensures Eval(env, e).None?
  {
    EvalReadsPlace(env, e);
  }

  /** Printing `*p` and using it in arithmetic read the same exactly when `p` points at eight bytes or
      more (or at an unknown type), or at nothing readable, or at a narrower value followed by zeros. */
  lemma DerefWidthIff(env: Env, x: Ast)
    requires Resolve(env, Unary(Deref, x)).Some?
    ensures var p := Resolve(env, Unary(Deref, x)).value;
            Eval(env, Unary(Deref, x)) == Read(env, p.addr, p.v.size) <==>
              || ScalarWidth(p.v.size) == 8
              || !Readable(env.memory, p.addr, p.v.size)
              || Zeros(env.memory, p.addr + p.v.size, p.addr + 8)
  {
    EvalReadsPlace(env, Unary(Deref, x));
    var p := Resolve(env, Unary(Deref, x)).value;
    WiderReadIff(env.memory, p.addr, ScalarWidth(p.v.size), 8);
  }

  /** `*&e` is the place of `e`, though no longer its type. */
  lemma DerefOfAddress(env: Env, e: Ast)
    ensures var r := Resolve(env, Unary(Deref, Unary(Addr, e)));
            && (r.Some? <==> IsLvalueShaped(e) && Resolve(env, e).Some?)
            && (r.Some? ==> r.value == Place(Resolve(env, e).value.addr, NO_VAR.(size := 8)))
  {
    assert Eval(env, Unary(Addr, e)).Some? <==> IsLvalueShaped(e) && Resolve(env, e).Some?;
  }

  /** The variable is read as one eight-byte word. */
  predicate WordSized(v: Var) {
    v.size == 0 || v.size >= 8
  }

  /** For a pointer variable, `p->m` is `(*p).m`. */
  lemma ArrowIsDerefMember(env: Env, p: string, m: string)
    requires env.find(p).Some? ==> env.find(p).value.v.isPointer && WordSized(env.find(p).value.v)
    ensures Resolve(env, Arrow(Ident(p), m)) == Resolve(env, Member(Unary(Deref, Ident(p)), m))
  {
    assert Resolve(env, Ident(p)) == env.find(p);
    assert Eval(env, Ident(p)) == if env.find(p).None? then None else Read(env, env.find(p).value.addr, 8);
  }

  /** For a non-array pointer variable, `p[0]` is `*p`. */
  lemma IndexZeroIsDeref(env: Env, p: string)
    requires env.find(p).Some? ==> env.find(p).value.v.isPointer && WordSized(env.find(p).value.v)
    requires env.find(p).Some? ==> !env.find(p).value.v.isArray
    ensures Resolve(env, Index(Ident(p), Num(0))) == Resolve(env, Unary(Deref, Ident(p)))
  {
    assert Resolve(env, Ident(p)) == env.find(p);
    assert Eval(env, Num(0)) == Some(Plain(0));
    assert Eval(env, Ident(p)) == if env.find(p).None? then None else Read(env, env.find(p).value.addr, 8);
  }

  /** An array variable does not decay: `*a` names the place of `a[0]` exactly when the array's
      leading bytes happen to hold the array's own address. */
  lemma ArrayDerefIff(env: Env, a: string)
    requires env.find(a).Some? && env.find(a).value.v.isArray && env.find(a).value.v.arrayCount > 0
    ensures var base := env.find(a).value;
            var first, deref := Resolve(env, Index(Ident(a), Num(0))), Resolve(env, Unary(Deref, Ident(a)));
            && first.Some? && first.value.addr == base.addr
            && (deref.Some? && deref.value.addr == first.value.addr <==>
                  ReadScalar(env, base.addr, base.v.size) == Some(base.addr))
  {
    assert Resolve(env, Ident(a)) == env.find(a);
    assert Eval(env, Num(0)) == Some(Plain(0));
    assert Eval(env, Ident(a)) == Read(env, env.find(a).value.addr, env.find(a).value.v.size);
  }

  lemma ArrowAt(env: Env, x: Ast, m: string)
    requires Resolve(env, x).Some? && Resolve(env, x).value.v.isPointer
    ensures var base := Resolve(env, x).value;
            Resolve(env, Arrow(x, m)) ==
            match ReadScalar(env, base.addr, 8)
            case None => None
            case Some(ptr) => MemberAt(env, Pointee(base.v.typ), ptr, m)
  {
  }

  /** Dereferenced, anything but a variable has lost its type. */
  lemma DerefMemberAt(env: Env, x: Ast, m: string)
    requires !x.Ident? && Resolve(env, x).Some? && ScalarWidth(EvalWidth(x, Resolve(env, x).value)) == 8
    ensures Resolve(env, Member(Unary(Deref, x), m)) ==
            match ReadScalar(env, Resolve(env, x).value.addr, 8)
            case None => None
            case Some(ptr) => MemberAt(env, "", ptr, m)
  {
    EvalReadsPlace(env, x);
  }

  /** For any expression naming a pointer, `x->m` and `(*x).m` resolve alike exactly when `x` is a
      variable, or cannot be read, or the member means the same in the struct pointed at and in none:
      dereferencing anything but a variable forgets the type. */
  lemma ArrowDerefIff(env: Env, x: Ast, m: string)
    requires Resolve(env, x).Some? && Resolve(env, x).value.v.isPointer
    requires ScalarWidth(EvalWidth(x, Resolve(env, x).value)) == 8
    ensures var base := Resolve(env, x).value;
            Resolve(env, Arrow(x, m)) == Resolve(env, Member(Unary(Deref, x), m)) <==>
              || x.Ident?
              || !Readable(env.memory, base.addr, 8)
              || env.member("", m) == env.member(Pointee(base.v.typ), m)
  {
    hide MemberAt, Pointee, Eval;
    var base := Resolve(env, x).value;
    ReadableIff(env.memory, base.addr, 8);
    if x.Ident? {
      ArrowIsDerefMember(env, x.name, m);
    } else {
      hide Resolve;
      ArrowAt(env, x, m);
      DerefMemberAt(env, x, m);
      if Readable(env.memory, base.addr, 8) {
        SamePlaceIff(env, "", Pointee(base.v.typ), ReadScalar(env, base.addr, 8).value, m);
      }
    }
  }

  lemma SamePlaceIff(env: Env, typ: string, typ': string, addr: Word, m: string)
    ensures MemberAt(env, typ, addr, m) == MemberAt(env, typ', addr, m) <==> env.member(typ, m) == env.member(typ', m)
  {
  }

  lemma {:induction false} BeforeStarIs(s: string)
    requires '*' !in s
    ensures BeforeStar(s + "*") == s
  {
    if s == "" {
      assert s + "*" == "*";
    } else {
      BeforeStarIs(s[1..]);
      assert (s + "*")[1..] == s[1..] + "*";
      assert s[0] in s && (s + "*")[0] == s[0];
    }
  }

  lemma PointeeIs(s: string)
    requires '*' !in s && s != "" && s[|s| - 1] != ' '
    ensures HasStar(s + " *") && Pointee(s + " *") == s
  {
    BeforeStarIs(s + " ");
    assert s + " *" == s + " " + "*";
    assert (s + " *")[|s| + 1] == '*';
    assert (s + " ")[..|s|] == s;
    assert TrimEnd(s + " ") == TrimEnd(s);
  }

  /** A word of two bytes in memory. */
  predicate WordAt(data: map<nat, Byte>, addr: nat, lo: Byte, hi: Byte) {
    Readable(data, addr, 8) && data[addr] == lo && data[addr + 1] == hi && Zeros(data, addr + 2, addr + 8)
  }

  lemma ReadsWord(env: Env, addr: Word, lo: Byte, hi: Byte)
    requires WordAt(env.memory, addr, lo, hi)
    ensures ReadScalar(env, addr, 8) == Some(lo as int + 256 * hi as int)
  {
    var low := 2;
    WiderReadIff(env.memory, addr, low, 8);
    assert ReadLittle(env.memory, addr + 2, low - 2) == Some(0);
    assert ReadLittle(env.memory, addr + 1, low - 1) == Some(hi as int);
  }

  // ----- two pointers in memory: to an int, and to a list node -----

  const INT: string := "int"
  const NODE: string := "struct node"

  function PointerVar(typ: string): Var {
    NO_VAR.(typ := typ + " *", size := 8, isPointer := true)
  }

  /** A word holding 0x200 at 0x100 and one holding 0x210 at 0x110, an int 5 at 0x200 with a 1 after
      it, and at 0x210 a word holding 0x210. */
  function SampleByte(a: nat): Byte {
    if a == 0x101 || a == 0x111 || a == 0x211 then 2
    else if a == 0x110 || a == 0x210 then 0x10
    else if a == 0x200 then 5
    else if a == 0x204 then 1 else 0
  }

  function SampleMemory(): map<nat, Byte> {
    map a: nat | 0x100 <= a < 0x220 :: SampleByte(a)
  }

  lemma SampleWords()
    ensures WordAt(SampleMemory(), 0x100, 0, 2) && WordAt(SampleMemory(), 0x110, 0x10, 2)
    ensures WordAt(SampleMemory(), 0x210, 0x10, 2)
    ensures Readable(SampleMemory(), 0x200, 8) && SampleMemory()[0x204] != 0
  {
  }

  /** `int *p` at 0x100, `struct node *n` at 0x110 whose `next` is itself. */
  function Sample(): Env {
    Env(name => if name == "p" then Some(Place(0x100, PointerVar(INT)))
                else if name == "n" then Some(Place(0x110, PointerVar(NODE))) else None,
        SampleMemory(),
        (typ, name) => if typ == NODE && name == "next" then Some(MemberInfo(0, 8, false, NODE + " *")) else None,
        typ => if typ == INT then 4 else 8,
        w => w)
  }

  lemma IntPointerRead(env: Env, p: string)
    requires env.find(p) == Some(Place(0x100, PointerVar(INT))) && env.sizeOf(INT) == 4
    requires WordAt(env.memory, 0x100, 0, 2) && Readable(env.memory, 0x200, 8) && env.memory[0x204] != 0
    ensures var e := Unary(Deref, Ident(p));
            && Resolve(env, e).Some? && Resolve(env, e).value.v.size == 4
            && Eval(env, e) != Read(env, Resolve(env, e).value.addr, 4)
  {
    var e := Unary(Deref, Ident(p));
    ReadsWord(env, 0x100, 0, 2);
    PointeeIs(INT);
    assert Eval(env, Ident(p)) == Some(Plain(0x200));
    assert Resolve(env, e).value == Pointed(env, INT + " *", 0x200);
    assert !Zeros(env.memory, 0x204, 0x208);
    DerefWidthIff(env, Ident(p));
  }

  lemma NodePointee()
    ensures HasStar(NODE + " *") && Pointee(NODE + " *") == NODE
  {
    PointeeIs(NODE);
  }

  lemma NodePointerRead(env: Env, n: string, next: string)
    requires env.find(n) == Some(Place(0x110, PointerVar(NODE)))
    requires env.member(NODE, next) == Some(MemberInfo(0, 8, false, NODE + " *")) && env.member("", next).None?
    requires WordAt(env.memory, 0x110, 0x10, 2) && WordAt(env.memory, 0x210, 0x10, 2)
    ensures var x := Arrow(Ident(n), next);
            Resolve(env, Arrow(x, next)).Some? && Resolve(env, Member(Unary(Deref, x), next)).None?
  {
    hide Pointee, HasStar, ReadScalar, WordAt, Eval;
    var x := Arrow(Ident(n), next);
    NodePointee();
    ReadsWord(env, 0x110, 0x10, 2);
    ReadsWord(env, 0x210, 0x10, 2);
    assert Resolve(env, Ident(n)) == env.find(n);
    hide Resolve;
    ArrowAt(env, Ident(n), next);
    ArrowAt(env, x, next);
    DerefMemberAt(env, x, next);
  }

  /** `*p` on an `int *` is printed as the int, but enters arithmetic with the next four bytes;
      `n->next->next` resolves, `(*n->next).next` does not. */
  lemma SampleDiffers()
    ensures var e := Unary(Deref, Ident("p"));
            && Resolve(Sample(), e).Some? && Resolve(Sample(), e).value.v.size == 4
            && Eval(Sample(), e) != Read(Sample(), Resolve(Sample(), e).value.addr, 4)
    ensures var x := Arrow(Ident("n"), "next");
            Resolve(Sample(), Arrow(x, "next")).Some? && Resolve(Sample(), Member(Unary(Deref, x), "next")).None?
  {
    SampleWords();
    IntPointerRead(Sample(), "p");
    NodePointerRead(Sample(), "n", "next");
  }
}
