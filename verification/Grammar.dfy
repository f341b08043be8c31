/** The expression grammar (src/ast_expr.y, src/ast.c): a shift-reduce parser whose conflicts are
    settled by the declared precedences, and the printer that inverts it. */
module Grammar {
  import opened Basics

  datatype BinOp =
    | Add | Sub | Mul | Div | Mod | Shl | Shr
    | Lt | Gt | Le | Ge | Eq | Ne
    | Band | Bor | Bxor | Land | Lor

  datatype UnOp = Pos | Neg | Not | Bnot | Addr | Deref

  /** Floating literals stay opaque: only their bits are kept. */
  datatype Ast =
    | Num(value: Word)
    | Float(bits: Word)
    | Ident(name: string)
    | Binary(op: BinOp, lhs: Ast, rhs: Ast)
    | Unary(uop: UnOp, operand: Ast)
    | Member(base: Ast, member: string)
    | Arrow(base: Ast, member: string)
    | Index(base: Ast, index: Ast)

  /** Tokens. An operator symbol is named for the binary operator it can be; '+', '-', '*' and '&'
      are unary operators as well. */
  datatype Token =
    | NumberTok(value: Word)
    | FloatTok(bits: Word)
    | IdentTok(name: string)
    | OpTok(op: BinOp)
    | Bang | Tilde | Dot | ArrowTok | LBracket | RBracket | LParen | RParen
    | InvalidChar

  function AsUnary(t: Token): Option<UnOp> {
    if t.Bang? then Some(Not)
    else if t.Tilde? then Some(Bnot)
    else if t == OpTok(Add) then Some(Pos)
    else if t == OpTok(Sub) then Some(Neg)
    else if t == OpTok(Band) then Some(Addr)
    else if t == OpTok(Mul) then Some(Deref)
    else None
  }

  function UnaryToken(op: UnOp): (t: Token)
    ensures AsUnary(t) == Some(op)
  {
    match op
    case Pos => OpTok(Add)
    case Neg => OpTok(Sub)
    case Not => Bang
    case Bnot => Tilde
    case Addr => OpTok(Band)
    case Deref => OpTok(Mul)
  }

  // ----- the declared precedences, lowest first -----

  function OpLevel(op: BinOp): (level: nat)
    ensures 1 <= level <= 10
  {
    match op
    case Lor => 1
    case Land => 2
    case Bor => 3
    case Bxor => 4
    case Band => 5
    case Eq => 6
    case Ne => 6
    case Lt => 7
    case Gt => 7
    case Le => 7
    case Ge => 7
    case Shl => 8
    case Shr => 8
    case Add => 9
    case Sub => 9
    case Mul => 10
    case Div => 10
    case Mod => 10
  }

  const UNARY_LEVEL: nat := 11
  const POSTFIX_LEVEL: nat := 12
  const ATOM_LEVEL: nat := 13

  /** Precedence of the lookahead; 0 for the end and for tokens with none declared. */
  function LookLevel(input: seq<Token>): (level: nat)
    ensures level <= POSTFIX_LEVEL
  {
    if input == [] then 0
    else if input[0].OpTok? then OpLevel(input[0].op)
    else if input[0].Dot? || input[0].ArrowTok? || input[0].LBracket? then POSTFIX_LEVEL
    else 0
  }

  // ----- derivations: the Ast with its parentheses -----

  datatype Tree =
    | TNum(value: Word)
    | TFloat(bits: Word)
    | TIdent(name: string)
    | TBinary(op: BinOp, lhs: Tree, rhs: Tree)
    | TUnary(uop: UnOp, operand: Tree)
    | TSelect(base: Tree, arrow: bool, member: string)
    | TIndex(base: Tree, index: Tree)
    | TParen(inner: Tree)

  /** The semantic actions: parentheses build nothing. */
  function Strip(t: Tree): Ast {
    match t
    case TNum(v) => Num(v)
    case TFloat(b) => Float(b)
    case TIdent(n) => Ident(n)
    case TBinary(op, l, r) => Binary(op, Strip(l), Strip(r))
    case TUnary(op, x) => Unary(op, Strip(x))
    case TSelect(b, arrow, n) => if arrow then Arrow(Strip(b), n) else Member(Strip(b), n)
    case TIndex(b, i) => Index(Strip(b), Strip(i))
    case TParen(x) => Strip(x)
  }

  function SelectToken(arrow: bool): Token {
    if arrow then ArrowTok else Dot
  }

  function Tokens(t: Tree): (s: seq<Token>)
    ensures s != []
  {
    match t
    case TNum(v) => [NumberTok(v)]
    case TFloat(b) => [FloatTok(b)]
    case TIdent(n) => [IdentTok(n)]
    case TBinary(op, l, r) => Tokens(l) + [OpTok(op)] + Tokens(r)
    case TUnary(op, x) => [UnaryToken(op)] + Tokens(x)
    case TSelect(b, arrow, n) => Tokens(b) + [SelectToken(arrow), IdentTok(n)]
    case TIndex(b, i) => Tokens(b) + [LBracket] + Tokens(i) + [RBracket]
    case TParen(x) => [LParen] + Tokens(x) + [RParen]
  }

  function Level(t: Tree): nat {
    match t
    case TBinary(op, _, _) => OpLevel(op)
    case TUnary(_, _) => UNARY_LEVEL
    case TSelect(_, _, _) => POSTFIX_LEVEL
    case TIndex(_, _) => POSTFIX_LEVEL
    case _ => ATOM_LEVEL
  }

  /** The derivation respects precedence and left associativity. */
  predicate Proper(t: Tree) {
    match t
    case TBinary(op, l, r) => Proper(l) && Proper(r) && Level(l) >= OpLevel(op) && Level(r) > OpLevel(op)
    case TUnary(_, x) => Proper(x) && Level(x) >= UNARY_LEVEL
    case TSelect(b, _, _) => Proper(b) && Level(b) >= POSTFIX_LEVEL
    case TIndex(b, i) => Proper(b) && Level(b) >= POSTFIX_LEVEL && Proper(i)
    case TParen(x) => Proper(x)
    case _ => true
  }

  // ----- the parser -----

  /** The parser stack, grouped by the rule each part is waiting to complete. */
  datatype Frame = AwaitRight(lhs: Tree, op: BinOp) | AwaitOperand(uop: UnOp) | AwaitParen | AwaitBracket(base: Tree)

  datatype Stack = Bottom | Push(top: Frame, below: Stack)

  /** Precedence of the rule that would be reduced, if the top frame is an operator's. */
  function RuleLevel(s: Stack): Option<nat> {
    match s
    case Push(AwaitRight(_, op), _) => Some(OpLevel(op))
    case Push(AwaitOperand(_), _) => Some(UNARY_LEVEL)
    case _ => None
  }

  /** Reduce rather than shift: the rule binds tighter than the lookahead, or as tightly, every
      operator token being left associative. */
  predicate MustReduce(s: Stack, input: seq<Token>) {
    RuleLevel(s).Some? && RuleLevel(s).value >= LookLevel(input)
  }

  /** The parser wants an operand. */
  function WantOperand(s: Stack, input: seq<Token>): Option<Tree>
    decreases |input|, s, 1
  {
    if input == [] then None
    else
      var rest := input[1..];
      match input[0]
      case NumberTok(v) => HaveOperand(s, TNum(v), rest)
      case FloatTok(b) => HaveOperand(s, TFloat(b), rest)
      case IdentTok(n) => HaveOperand(s, TIdent(n), rest)
      case LParen => WantOperand(Push(AwaitParen, s), rest)
      case _ =>
        match AsUnary(input[0])
        case Some(op) => WantOperand(Push(AwaitOperand(op), s), rest)
        case None => None
  }

  /** The parser has just completed operand `e`. */
  function HaveOperand(s: Stack, e: Tree, input: seq<Token>): Option<Tree>
    decreases |input|, s, 0
  {
    if MustReduce(s, input) then
      match s.top
      case AwaitRight(lhs, op) => HaveOperand(s.below, TBinary(op, lhs, e), input)
      case AwaitOperand(op) => HaveOperand(s.below, TUnary(op, e), input)
    else if input == [] then
      if s.Bottom? then Some(e) else None
    else
      var rest := input[1..];
      match input[0]
      case Dot => if rest != [] && rest[0].IdentTok? then HaveOperand(s, TSelect(e, false, rest[0].name), rest[1..]) else None
      case ArrowTok => if rest != [] && rest[0].IdentTok? then HaveOperand(s, TSelect(e, true, rest[0].name), rest[1..]) else None
      case LBracket => WantOperand(Push(AwaitBracket(e), s), rest)
      case RBracket => if s.Push? && s.top.AwaitBracket? then HaveOperand(s.below, TIndex(s.top.base, e), rest) else None
      case RParen => if s.Push? && s.top.AwaitParen? then HaveOperand(s.below, TParen(e), rest) else None
      case OpTok(op) => WantOperand(Push(AwaitRight(e, op), s), rest)
      case _ => None
  }

  function ParseTree(input: seq<Token>): Option<Tree> {
    WantOperand(Bottom, input)
  }

  function Parse(input: seq<Token>): Option<Ast> {
    match ParseTree(input)
    case Some(t) => Some(Strip(t))
    case None => None
  }

  // ----- every proper derivation is found -----

  /** An operand of this level may stand under the top frame. */
  predicate Binds(s: Stack, level: nat) {
    match s
    case Push(AwaitRight(_, op), _) => level > OpLevel(op)
    case Push(AwaitOperand(_), _) => level >= UNARY_LEVEL
    case _ => true
  }

  lemma {:induction false} Reads(s: Stack, t: Tree, input: seq<Token>)
    requires Proper(t) && Binds(s, Level(t)) && LookLevel(input) <= Level(t)
    ensures WantOperand(s, Tokens(t) + input) == HaveOperand(s, t, input)
    decreases t, 1
  {
    match t {
      case TBinary(_, _, _) => ReadsBinary(s, t, input);
      case TUnary(op, x) =>
        assert Tokens(t) + input == [UnaryToken(op)] + (Tokens(x) + input);
        ShiftsUnary(s, op, Tokens(x) + input);
        Reads(Push(AwaitOperand(op), s), x, input);
      case TSelect(b, arrow, n) =>
        assert Tokens(t) + input == Tokens(b) + ([SelectToken(arrow), IdentTok(n)] + input);
        Reads(s, b, [SelectToken(arrow), IdentTok(n)] + input);
        ReadsSelect(s, b, arrow, n, input);
      case TIndex(_, _) => ReadsIndex(s, t, input);
      case TParen(_) => ReadsParen(s, t, input);
      case _ => ReadsAtom(s, t, input);
    }
  }

  lemma {:induction false} ReadsBinary(s: Stack, t: Tree, input: seq<Token>)
    requires t.TBinary? && Proper(t) && Binds(s, Level(t)) && LookLevel(input) <= Level(t)
    ensures WantOperand(s, Tokens(t) + input) == HaveOperand(s, t, input)
    decreases t, 0
  {
    var TBinary(op, l, r) := t;
    var tail := Tokens(r) + input;
    assert Tokens(t) + input == Tokens(l) + ([OpTok(op)] + tail);
    Reads(s, l, [OpTok(op)] + tail);
    ShiftsBinary(s, l, op, tail);
    Reads(Push(AwaitRight(l, op), s), r, input);
  }

  lemma {:induction false} ReadsIndex(s: Stack, t: Tree, input: seq<Token>)
    requires t.TIndex? && Proper(t) && Binds(s, Level(t))
    ensures WantOperand(s, Tokens(t) + input) == HaveOperand(s, t, input)
    decreases t, 0
  {
    var TIndex(b, i) := t;
    var tail := Tokens(i) + ([RBracket] + input);
    assert Tokens(t) + input == Tokens(b) + ([LBracket] + tail);
    Reads(s, b, [LBracket] + tail);
    OpensBracket(s, b, tail);
    Reads(Push(AwaitBracket(b), s), i, [RBracket] + input);
    ClosesBracket(s, b, i, input);
  }

  lemma {:induction false} ReadsParen(s: Stack, t: Tree, input: seq<Token>)
    requires t.TParen? && Proper(t)
    ensures WantOperand(s, Tokens(t) + input) == HaveOperand(s, t, input)
    decreases t, 0
  {
    var TParen(x) := t;
    var tail := Tokens(x) + ([RParen] + input);
    assert Tokens(t) + input == [LParen] + tail;
    assert ([LParen] + tail)[1..] == tail;
    Reads(Push(AwaitParen, s), x, [RParen] + input);
    assert ([RParen] + input)[1..] == input;
  }

  lemma ReadsSelect(s: Stack, b: Tree, arrow: bool, n: string, input: seq<Token>)
    requires Binds(s, POSTFIX_LEVEL)
    ensures HaveOperand(s, b, [SelectToken(arrow), IdentTok(n)] + input) == HaveOperand(s, TSelect(b, arrow, n), input)
  {
    var all := [SelectToken(arrow), IdentTok(n)] + input;
    assert all[1..][0] == IdentTok(n) && all[1..][1..] == input;
  }

  lemma OpensBracket(s: Stack, b: Tree, tail: seq<Token>)
    requires Binds(s, POSTFIX_LEVEL)
    ensures HaveOperand(s, b, [LBracket] + tail) == WantOperand(Push(AwaitBracket(b), s), tail)
  {
    assert ([LBracket] + tail)[1..] == tail;
  }

  lemma ClosesBracket(s: Stack, b: Tree, i: Tree, input: seq<Token>)
    ensures HaveOperand(Push(AwaitBracket(b), s), i, [RBracket] + input) == HaveOperand(s, TIndex(b, i), input)
  {
    assert ([RBracket] + input)[1..] == input;
  }

  lemma ReadsAtom(s: Stack, t: Tree, input: seq<Token>)
    requires t.TNum? || t.TFloat? || t.TIdent?
    ensures WantOperand(s, Tokens(t) + input) == HaveOperand(s, t, input)
  {
    assert (Tokens(t) + input)[1..] == input;
  }

  lemma ShiftsUnary(s: Stack, op: UnOp, tail: seq<Token>)
    ensures WantOperand(s, [UnaryToken(op)] + tail) == WantOperand(Push(AwaitOperand(op), s), tail)
  {
    assert ([UnaryToken(op)] + tail)[1..] == tail;
  }

  lemma ShiftsBinary(s: Stack, l: Tree, op: BinOp, tail: seq<Token>)
    requires Binds(s, OpLevel(op))
    ensures HaveOperand(s, l, [OpTok(op)] + tail) == WantOperand(Push(AwaitRight(l, op), s), tail)
  {
    assert ([OpTok(op)] + tail)[1..] == tail;
  }

  /** Whatever parentheses it has, a proper derivation is what the parser makes of its tokens. */
  lemma ProperIsParsed(t: Tree)
    requires Proper(t)
    ensures ParseTree(Tokens(t)) == Some(t)
  {
    assert Tokens(t) + [] == Tokens(t);
    Reads(Bottom, t, []);
  }

  // ----- every parse is a proper derivation of the tokens -----

  /** The tokens a stack has consumed. */
  function Yield(s: Stack): seq<Token> {
    match s
    case Bottom => []
    case Push(AwaitRight(l, op), below) => Yield(below) + Tokens(l) + [OpTok(op)]
    case Push(AwaitOperand(op), below) => Yield(below) + [UnaryToken(op)]
    case Push(AwaitParen, below) => Yield(below) + [LParen]
    case Push(AwaitBracket(b), below) => Yield(below) + Tokens(b) + [LBracket]
  }

  predicate ProperStack(s: Stack) {
    match s
    case Bottom => true
    case Push(AwaitRight(l, op), below) =>
      Proper(l) && Level(l) >= OpLevel(op) && Binds(below, OpLevel(op)) && ProperStack(below)
    case Push(AwaitOperand(_), below) => Binds(below, UNARY_LEVEL) && ProperStack(below)
    case Push(AwaitParen, below) => ProperStack(below)
    case Push(AwaitBracket(b), below) =>
      Proper(b) && Level(b) >= POSTFIX_LEVEL && Binds(below, POSTFIX_LEVEL) && ProperStack(below)
  }

  lemma TokenOf(t: Token)
    ensures AsUnary(t).Some? ==> UnaryToken(AsUnary(t).value) == t
  {
  }

  /** A completed operand that may stand on this stack before this input. */
  predicate Ready(s: Stack, e: Tree, input: seq<Token>) {
    ProperStack(s) && Proper(e) && Binds(s, Level(e)) && LookLevel(input) <= Level(e)
  }

  /** A parse that succeeded is a proper derivation of these tokens. */
  predicate Derives(r: Option<Tree>, tokens: seq<Token>) {
    r.Some? ==> Proper(r.value) && Tokens(r.value) == tokens
  }

  lemma {:induction false} WantSound(s: Stack, input: seq<Token>)
    requires ProperStack(s)
    ensures Derives(WantOperand(s, input), Yield(s) + input)
    decreases |input|, s, 1
  {
    if input != [] {
      hide Yield, Tokens;
      var rest := input[1..];
      if input[0].LParen? || AsUnary(input[0]).Some? {
        var frame := if input[0].LParen? then AwaitParen else AwaitOperand(AsUnary(input[0]).value);
        WantSound(Push(frame, s), rest);
        PrefixYield(s, frame, input);
      } else if input[0].NumberTok? || input[0].FloatTok? || input[0].IdentTok? {
        AtomSound(s, input);
      }
    }
  }

  lemma PrefixYield(s: Stack, frame: Frame, input: seq<Token>)
    requires input != []
    requires (input[0].LParen? && frame == AwaitParen) || (AsUnary(input[0]).Some? && frame == AwaitOperand(AsUnary(input[0]).value))
    ensures Yield(s) + input == Yield(Push(frame, s)) + input[1..]
  {
    TokenOf(input[0]);
    assert input == [input[0]] + input[1..];
    assert Yield(s) + ([input[0]] + input[1..]) == Yield(s) + [input[0]] + input[1..];
  }

  lemma {:induction false} AtomSound(s: Stack, input: seq<Token>)
    requires ProperStack(s) && input != [] && (input[0].NumberTok? || input[0].FloatTok? || input[0].IdentTok?)
    ensures Derives(WantOperand(s, input), Yield(s) + input)
    decreases |input|, s, 0
  {
    var rest := input[1..];
    var e := match input[0] case NumberTok(v) => TNum(v) case FloatTok(b) => TFloat(b) case IdentTok(n) => TIdent(n);
    assert Tokens(e) + rest == input;
    assert Yield(s) + Tokens(e) + rest == Yield(s) + input;
    HaveSound(s, e, rest);
  }

  lemma {:induction false} HaveSound(s: Stack, e: Tree, input: seq<Token>)
    requires Ready(s, e, input)
    ensures Derives(HaveOperand(s, e, input), Yield(s) + Tokens(e) + input)
    decreases |input|, s, 1
  {
    if MustReduce(s, input) {
      if s.top.AwaitRight? {
        ReduceBinary(s, e, input);
      } else {
        ReduceUnary(s, e, input);
      }
    } else if input == [] {
      assert Yield(Bottom) + Tokens(e) + [] == Tokens(e);
    } else if input[0].Dot? || input[0].ArrowTok? {
      SelectSound(s, e, input);
    } else if input[0].RBracket? {
      BracketSound(s, e, input);
    } else if input[0].RParen? {
      ParenSound(s, e, input);
    } else {
      OpenSound(s, e, input);
    }
  }

  lemma {:induction false} ReduceBinary(s: Stack, e: Tree, input: seq<Token>)
    requires Ready(s, e, input) && MustReduce(s, input) && s.top.AwaitRight?
    ensures Derives(HaveOperand(s, e, input), Yield(s) + Tokens(e) + input)
    decreases |input|, s, 0
  {
    hide Yield, Tokens;
    HaveSound(s.below, TBinary(s.top.op, s.top.lhs, e), input);
    BinaryYield(s, e);
  }

  lemma BinaryYield(s: Stack, e: Tree)
    requires s.Push? && s.top.AwaitRight?
    ensures Yield(s) + Tokens(e) == Yield(s.below) + Tokens(TBinary(s.top.op, s.top.lhs, e))
  {
    var l, op := Tokens(s.top.lhs), [OpTok(s.top.op)];
    assert Yield(s.below) + l + op + Tokens(e) == Yield(s.below) + (l + op + Tokens(e));
  }

  lemma {:induction false} ReduceUnary(s: Stack, e: Tree, input: seq<Token>)
    requires Ready(s, e, input) && MustReduce(s, input) && s.top.AwaitOperand?
    ensures Derives(HaveOperand(s, e, input), Yield(s) + Tokens(e) + input)
    decreases |input|, s, 0
  {
    hide Yield, Tokens;
    HaveSound(s.below, TUnary(s.top.uop, e), input);
    UnaryYield(s, e);
  }

  lemma UnaryYield(s: Stack, e: Tree)
    requires s.Push? && s.top.AwaitOperand?
    ensures Yield(s) + Tokens(e) == Yield(s.below) + Tokens(TUnary(s.top.uop, e))
  {
    assert Yield(s.below) + [UnaryToken(s.top.uop)] + Tokens(e) == Yield(s.below) + ([UnaryToken(s.top.uop)] + Tokens(e));
  }

  lemma {:induction false} SelectSound(s: Stack, e: Tree, input: seq<Token>)
    requires Ready(s, e, input) && !MustReduce(s, input) && input != [] && (input[0].Dot? || input[0].ArrowTok?)
    ensures Derives(HaveOperand(s, e, input), Yield(s) + Tokens(e) + input)
    decreases |input|, s, 0
  {
    hide Yield, Tokens;
    var rest := input[1..];
    if rest != [] && rest[0].IdentTok? {
      SelectYield(Yield(s), e, input);
      HaveSound(s, TSelect(e, input[0].ArrowTok?, rest[0].name), rest[1..]);
    }
  }

  lemma SelectYield(before: seq<Token>, e: Tree, input: seq<Token>)
    requires |input| >= 2 && (input[0].Dot? || input[0].ArrowTok?) && input[1].IdentTok?
    ensures before + Tokens(e) + input == before + Tokens(TSelect(e, input[0].ArrowTok?, input[1].name)) + input[1..][1..]
  {
    assert input == [input[0], input[1]] + input[1..][1..];
    assert before + Tokens(e) + ([input[0], input[1]] + input[1..][1..]) ==
           before + (Tokens(e) + [input[0], input[1]]) + input[1..][1..];
  }

  lemma {:induction false} BracketSound(s: Stack, e: Tree, input: seq<Token>)
    requires Ready(s, e, input) && !MustReduce(s, input) && input != [] && input[0].RBracket?
    ensures Derives(HaveOperand(s, e, input), Yield(s) + Tokens(e) + input)
    decreases |input|, s, 0
  {
    hide Yield, Tokens;
    if s.Push? && s.top.AwaitBracket? {
      var e', rest := TIndex(s.top.base, e), input[1..];
      BracketYield(s, e, input);
      HaveSound(s.below, e', rest);
    }
  }

  lemma BracketYield(s: Stack, e: Tree, input: seq<Token>)
    requires s.Push? && s.top.AwaitBracket? && input != [] && input[0].RBracket?
    ensures Yield(s) + Tokens(e) + input == Yield(s.below) + Tokens(TIndex(s.top.base, e)) + input[1..]
  {
    var b, i, rest := Tokens(s.top.base), Tokens(e), input[1..];
    assert input == [RBracket] + rest;
    assert Yield(s.below) + b + [LBracket] + i + ([RBracket] + rest) == Yield(s.below) + (b + [LBracket] + i + [RBracket]) + rest;
  }

  lemma {:induction false} ParenSound(s: Stack, e: Tree, input: seq<Token>)
    requires Ready(s, e, input) && !MustReduce(s, input) && input != [] && input[0].RParen?
    ensures Derives(HaveOperand(s, e, input), Yield(s) + Tokens(e) + input)
    decreases |input|, s, 0
  {
    hide Yield, Tokens;
    if s.Push? && s.top.AwaitParen? {
      var e', rest := TParen(e), input[1..];
      HaveSound(s.below, e', rest);
      ParenYield(s, e, input);
    }
  }

  lemma ParenYield(s: Stack, e: Tree, input: seq<Token>)
    requires s.Push? && s.top.AwaitParen? && input != [] && input[0].RParen?
    ensures Yield(s) + Tokens(e) + input == Yield(s.below) + Tokens(TParen(e)) + input[1..]
  {
    assert input == [RParen] + input[1..];
  }

  lemma {:induction false} OpenSound(s: Stack, e: Tree, input: seq<Token>)
    requires Ready(s, e, input) && !MustReduce(s, input) && input != []
    requires !input[0].RBracket? && !input[0].RParen? && !input[0].Dot? && !input[0].ArrowTok?
    ensures Derives(HaveOperand(s, e, input), Yield(s) + Tokens(e) + input)
    decreases |input|, s, 0
  {
    hide Yield, Tokens;
    var rest := input[1..];
    if input[0].LBracket? {
      WantSound(Push(AwaitBracket(e), s), rest);
      OpenYield(s, e, AwaitBracket(e), input);
    } else if input[0].OpTok? {
      WantSound(Push(AwaitRight(e, input[0].op), s), rest);
      OpenYield(s, e, AwaitRight(e, input[0].op), input);
    }
  }

  lemma OpenYield(s: Stack, e: Tree, frame: Frame, input: seq<Token>)
    requires input != []
    requires (frame == AwaitBracket(e) && input[0].LBracket?) || (input[0].OpTok? && frame == AwaitRight(e, input[0].op))
    ensures Yield(s) + Tokens(e) + input == Yield(Push(frame, s)) + input[1..]
  {
    assert input == [input[0]] + input[1..];
    assert Yield(s) + Tokens(e) + ([input[0]] + input[1..]) == Yield(s) + Tokens(e) + [input[0]] + input[1..];
  }

  /** Parser and printer are inverse: a derivation is parsed from a token string exactly when it is
      proper and has those tokens. */
  lemma ParseIff(input: seq<Token>, t: Tree)
    ensures ParseTree(input) == Some(t) <==> Proper(t) && Tokens(t) == input
  {
    if Proper(t) && Tokens(t) == input {
      ProperIsParsed(t);
    }
    WantSound(Bottom, input);
    assert Yield(Bottom) + input == input;
  }

  /** The grammar with its precedences is unambiguous. */
  lemma Unambiguous(t: Tree, t': Tree)
    requires Proper(t) && Proper(t') && Tokens(t) == Tokens(t')
    ensures t == t'
  {
    ProperIsParsed(t);
    ProperIsParsed(t');
  }

  // ----- printing an Ast -----

  /** Parentheses exactly where the level would be too low. */
  function Enclose(t: Tree, least: nat): Tree {
    if Level(t) >= least then t else TParen(t)
  }

  /** The derivation of `e` with the fewest parentheses. */
  function Minimal(e: Ast): Tree {
    match e
    case Num(v) => TNum(v)
    case Float(b) => TFloat(b)
    case Ident(n) => TIdent(n)
    case Binary(op, l, r) => TBinary(op, Enclose(Minimal(l), OpLevel(op)), Enclose(Minimal(r), OpLevel(op) + 1))
    case Unary(op, x) => TUnary(op, Enclose(Minimal(x), UNARY_LEVEL))
    case Member(b, n) => TSelect(Enclose(Minimal(b), POSTFIX_LEVEL), false, n)
    case Arrow(b, n) => TSelect(Enclose(Minimal(b), POSTFIX_LEVEL), true, n)
    case Index(b, i) => TIndex(Enclose(Minimal(b), POSTFIX_LEVEL), Minimal(i))
  }

  function Print(e: Ast): seq<Token> {
    Tokens(Minimal(e))
  }

  lemma {:induction false} MinimalProper(e: Ast)
    ensures Proper(Minimal(e)) && Strip(Minimal(e)) == e
  {
    match e {
      case Binary(op, l, r) =>
        MinimalProper(l);
        MinimalProper(r);
        EncloseProper(Minimal(l), OpLevel(op));
        EncloseProper(Minimal(r), OpLevel(op) + 1);
      case Unary(_, x) =>
        MinimalProper(x);
        EncloseProper(Minimal(x), UNARY_LEVEL);
      case Member(b, _) =>
        MinimalProper(b);
        EncloseProper(Minimal(b), POSTFIX_LEVEL);
      case Arrow(b, _) =>
        MinimalProper(b);
        EncloseProper(Minimal(b), POSTFIX_LEVEL);
      case Index(b, i) =>
        MinimalProper(b);
        MinimalProper(i);
        EncloseProper(Minimal(b), POSTFIX_LEVEL);
      case _ =>
    }
  }

  lemma EncloseProper(t: Tree, least: nat)
    requires Proper(t) && least <= ATOM_LEVEL
    ensures Proper(Enclose(t, least)) && Level(Enclose(t, least)) >= least && Strip(Enclose(t, least)) == Strip(t)
  {
  }

  /** Printing an Ast and parsing the tokens gives it back. */
  lemma PrintRoundTrip(e: Ast)
    ensures Parse(Print(e)) == Some(e)
  {
    MinimalProper(e);
    ProperIsParsed(Minimal(e));
  }

  /** Parentheses in a derivation. */
  function Parens(t: Tree): nat {
    match t
    case TBinary(_, l, r) => Parens(l) + Parens(r)
    case TUnary(_, x) => Parens(x)
    case TSelect(b, _, _) => Parens(b)
    case TIndex(b, i) => Parens(b) + Parens(i)
    case TParen(x) => 1 + Parens(x)
    case _ => 0
  }

  /** `t` is written with at least the parentheses of the minimal derivation of `e`, and more if
      it binds tighter. */
  predicate Leaner(e: Ast, t: Tree) {
    && Level(Minimal(e)) <= Level(t)
    && Parens(Minimal(e)) + (if Level(Minimal(e)) < Level(t) then 1 else 0) <= Parens(t)
  }

  lemma EncloseLeaner(e: Ast, t: Tree, least: nat)
    requires Leaner(e, t) && Level(t) >= least
    ensures Parens(Enclose(Minimal(e), least)) <= Parens(t)
  {
  }

  /** Any other proper way of writing the same Ast only adds parentheses. */
  lemma {:induction false} MinimalIsLeast(t: Tree)
    requires Proper(t)
    ensures Leaner(Strip(t), t)
    decreases t, 0
  {
    match t {
      case TParen(x) => MinimalIsLeast(x);
      case TBinary(op, l, r) =>
        MinimalIsLeast(l);
        MinimalIsLeast(r);
        EncloseLeaner(Strip(l), l, OpLevel(op));
        EncloseLeaner(Strip(r), r, OpLevel(op) + 1);
      case TUnary(_, x) =>
        MinimalIsLeast(x);
        EncloseLeaner(Strip(x), x, UNARY_LEVEL);
      case TSelect(b, _, _) => LeanerPostfix(b);
      case TIndex(b, i) =>
        LeanerPostfix(b);
        MinimalIsLeast(i);
      case _ =>
    }
  }

  lemma {:induction false} LeanerPostfix(b: Tree)
    requires Proper(b) && Level(b) >= POSTFIX_LEVEL
    ensures Parens(Enclose(Minimal(Strip(b)), POSTFIX_LEVEL)) <= Parens(b)
    decreases b, 1
  {
    MinimalIsLeast(b);
    EncloseLeaner(Strip(b), b, POSTFIX_LEVEL);
  }

  /** However an Ast is written, with any redundant parentheses, it parses to that Ast. */
  lemma RedundantParens(t: Tree)
    requires Proper(t)
    ensures Parse(Tokens(t)) == Some(Strip(t)) && Parse(Tokens(t)) == Parse(Print(Strip(t)))
    ensures Parse([LParen] + Tokens(t) + [RParen]) == Some(Strip(t))
  {
    ProperIsParsed(t);
    ProperIsParsed(TParen(t));
    PrintRoundTrip(Strip(t));
  }

  // ----- which way tokens are read -----

  /** The declared classes of binary operators, the loosest first; within a class they associate to the left. */
  const CLASSES: seq<set<BinOp>> :=
    [{Lor}, {Land}, {Bor}, {Bxor}, {Band}, {Eq, Ne}, {Lt, Gt, Le, Ge}, {Shl, Shr}, {Add, Sub}, {Mul, Div, Mod}]

  predicate InClass(o: BinOp, i: nat) {
    i < |CLASSES| && o in CLASSES[i]
  }

  /** `o1` is in the class of `o2` or in a tighter one. */
  ghost predicate AsTight(o1: BinOp, o2: BinOp) {
    exists i: nat, j: nat :: j <= i && InClass(o1, i) && InClass(o2, j)
  }

  function ClassOf(o: BinOp): (i: nat)
    ensures InClass(o, i)
  {
    match o
    case Lor => 0
    case Land => 1
    case Bor => 2
    case Bxor => 3
    case Band => 4
    case Eq => 5
    case Ne => 5
    case Lt => 6
    case Gt => 6
    case Le => 6
    case Ge => 6
    case Shl => 7
    case Shr => 7
    case Add => 8
    case Sub => 8
    case _ => 9
  }

  /** An operator is in one class only, and its level is the class's place. */
  lemma OneClass(o: BinOp, i: nat)
    requires InClass(o, i)
    ensures OpLevel(o) == i + 1
  {
    assert i == 0 || i == 1 || i == 2 || i == 3 || i == 4 || i == 5 || i == 6 || i == 7 || i == 8 || i == 9;
  }

  lemma AsTightOnlyIf(o1: BinOp, o2: BinOp)
    requires AsTight(o1, o2)
    ensures OpLevel(o1) >= OpLevel(o2)
  {
    hide OpLevel, InClass;
    var i: nat, j: nat :| j <= i && InClass(o1, i) && InClass(o2, j);
    OneClass(o1, i);
    OneClass(o2, j);
  }

  lemma AsTightIf(o1: BinOp, o2: BinOp, i: nat, j: nat)
    requires i == ClassOf(o1) && j == ClassOf(o2) && OpLevel(o1) >= OpLevel(o2)
    ensures AsTight(o1, o2)
  {
    hide OpLevel, InClass, ClassOf;
    OneClass(o1, i);
    OneClass(o2, j);
  }

  lemma AsTightIs(o1: BinOp, o2: BinOp)
    ensures AsTight(o1, o2) <==> OpLevel(o1) >= OpLevel(o2)
  {
    hide OpLevel, AsTight, ClassOf;
    if AsTight(o1, o2) {
      AsTightOnlyIf(o1, o2);
    }
    if OpLevel(o1) >= OpLevel(o2) {
      AsTightIf(o1, o2, ClassOf(o1), ClassOf(o2));
    }
  }

  /** A number, a floating literal or a name. */
  predicate Atom(e: Ast) {
    e.Num? || e.Float? || e.Ident?
  }

  function AtomToken(e: Ast): Token
    requires Atom(e)
  {
    match e
    case Num(v) => NumberTok(v)
    case Float(b) => FloatTok(b)
    case Ident(n) => IdentTok(n)
  }

  lemma AtomIs(a: Ast)
    requires Atom(a)
    ensures var t := Minimal(a); Tokens(t) == [AtomToken(a)] && Level(t) == ATOM_LEVEL && Proper(t) && Strip(t) == a
  {
  }

  lemma ParsesTo(t: Tree, tokens: seq<Token>)
    requires Proper(t) && Tokens(t) == tokens
    ensures Parse(tokens) == Some(Strip(t))
  {
    ProperIsParsed(t);
  }

  lemma LeftFirst(o1: BinOp, o2: BinOp, a: Ast, b: Ast, c: Ast)
    requires Atom(a) && Atom(b) && Atom(c) && OpLevel(o1) >= OpLevel(o2)
    ensures Parse([AtomToken(a), OpTok(o1), AtomToken(b), OpTok(o2), AtomToken(c)]) == Some(Binary(o2, Binary(o1, a, b), c))
  {
    hide OpLevel, Minimal, AtomToken, Parse;
    AtomIs(a);
    AtomIs(b);
    AtomIs(c);
    var t := TBinary(o2, TBinary(o1, Minimal(a), Minimal(b)), Minimal(c));
    assert Tokens(TBinary(o1, Minimal(a), Minimal(b))) == [AtomToken(a), OpTok(o1), AtomToken(b)];
    ParsesTo(t, [AtomToken(a), OpTok(o1), AtomToken(b), OpTok(o2), AtomToken(c)]);
  }

  lemma RightFirst(o1: BinOp, o2: BinOp, a: Ast, b: Ast, c: Ast)
    requires Atom(a) && Atom(b) && Atom(c) && OpLevel(o1) < OpLevel(o2)
    ensures Parse([AtomToken(a), OpTok(o1), AtomToken(b), OpTok(o2), AtomToken(c)]) == Some(Binary(o1, a, Binary(o2, b, c)))
  {
    hide OpLevel, Minimal, AtomToken, Parse;
    AtomIs(a);
    AtomIs(b);
    AtomIs(c);
    var t := TBinary(o1, Minimal(a), TBinary(o2, Minimal(b), Minimal(c)));
    assert Tokens(TBinary(o2, Minimal(b), Minimal(c))) == [AtomToken(b), OpTok(o2), AtomToken(c)];
    ParsesTo(t, [AtomToken(a), OpTok(o1), AtomToken(b), OpTok(o2), AtomToken(c)]);
  }

  /** Of two binary operators the first is applied first exactly when it is in the same class or a tighter one. */
  lemma PrecedenceIff(o1: BinOp, o2: BinOp, a: Ast, b: Ast, c: Ast)
    requires Atom(a) && Atom(b) && Atom(c)
    ensures var r := Parse([AtomToken(a), OpTok(o1), AtomToken(b), OpTok(o2), AtomToken(c)]);
            && (r == Some(Binary(o2, Binary(o1, a, b), c)) <==> AsTight(o1, o2))
            && (r == Some(Binary(o1, a, Binary(o2, b, c))) <==> !AsTight(o1, o2))
  {
    hide OpLevel, AsTight, Parse, AtomToken;
    AsTightIs(o1, o2);
    assert Binary(o2, Binary(o1, a, b), c) != Binary(o1, a, Binary(o2, b, c));
    if AsTight(o1, o2) {
      LeftFirst(o1, o2, a, b, c);
    } else {
      RightFirst(o1, o2, a, b, c);
    }
  }

  /** The sign of each unary operator. */
  function Sign(u: UnOp): Token {
    match u
    case Pos => OpTok(Add)
    case Neg => OpTok(Sub)
    case Not => Bang
    case Bnot => Tilde
    case Addr => OpTok(Band)
    case Deref => OpTok(Mul)
  }

  lemma SignIs(u: UnOp)
    ensures Sign(u) == UnaryToken(u)
  {
  }

  /** Every unary operator is applied before every binary one, on either side. */
  lemma UnaryBeforeBinary(u: UnOp, o: BinOp, a: Ast, b: Ast)
    requires Atom(a) && Atom(b)
    ensures Parse([Sign(u), AtomToken(a), OpTok(o), AtomToken(b)]) == Some(Binary(o, Unary(u, a), b))
    ensures Parse([AtomToken(a), OpTok(o), Sign(u), AtomToken(b)]) == Some(Binary(o, a, Unary(u, b)))
  {
    hide OpLevel, Minimal, AtomToken, Parse, Sign, UnaryToken;
    AtomIs(a);
    AtomIs(b);
    SignIs(u);
    assert Tokens(TUnary(u, Minimal(a))) == [Sign(u), AtomToken(a)];
    ParsesTo(TBinary(o, TUnary(u, Minimal(a)), Minimal(b)), [Sign(u), AtomToken(a), OpTok(o), AtomToken(b)]);
    assert Tokens(TUnary(u, Minimal(b))) == [Sign(u), AtomToken(b)];
    ParsesTo(TBinary(o, Minimal(a), TUnary(u, Minimal(b))), [AtomToken(a), OpTok(o), Sign(u), AtomToken(b)]);
  }

  /** It is applied after every selection and subscript. */
  lemma PostfixBeforeUnary(u: UnOp, a: Ast, b: Ast, m: string)
    requires Atom(a) && Atom(b)
    ensures Parse([Sign(u), AtomToken(a), Dot, IdentTok(m)]) == Some(Unary(u, Member(a, m)))
    ensures Parse([Sign(u), AtomToken(a), ArrowTok, IdentTok(m)]) == Some(Unary(u, Arrow(a, m)))
    ensures Parse([Sign(u), AtomToken(a), LBracket, AtomToken(b), RBracket]) == Some(Unary(u, Index(a, b)))
  {
    hide Minimal, AtomToken, Parse, Sign, UnaryToken;
    AtomIs(a);
    AtomIs(b);
    SignIs(u);
    assert Tokens(TSelect(Minimal(a), false, m)) == [AtomToken(a), Dot, IdentTok(m)];
    ParsesTo(TUnary(u, TSelect(Minimal(a), false, m)), [Sign(u), AtomToken(a), Dot, IdentTok(m)]);
    assert Tokens(TSelect(Minimal(a), true, m)) == [AtomToken(a), ArrowTok, IdentTok(m)];
    ParsesTo(TUnary(u, TSelect(Minimal(a), true, m)), [Sign(u), AtomToken(a), ArrowTok, IdentTok(m)]);
    assert Tokens(TIndex(Minimal(a), Minimal(b))) == [AtomToken(a), LBracket, AtomToken(b), RBracket];
    ParsesTo(TUnary(u, TIndex(Minimal(a), Minimal(b))), [Sign(u), AtomToken(a), LBracket, AtomToken(b), RBracket]);
  }

  /** Parentheses override the classes. */
  lemma ParenthesesBind(o1: BinOp, o2: BinOp, a: Ast, b: Ast, c: Ast)
    requires Atom(a) && Atom(b) && Atom(c)
    ensures Parse([LParen, AtomToken(a), OpTok(o1), AtomToken(b), RParen, OpTok(o2), AtomToken(c)]) ==
            Some(Binary(o2, Binary(o1, a, b), c))
    ensures Parse([AtomToken(a), OpTok(o1), LParen, AtomToken(b), OpTok(o2), AtomToken(c), RParen]) ==
            Some(Binary(o1, a, Binary(o2, b, c)))
  {
    hide OpLevel, Minimal, AtomToken, Parse;
    AtomIs(a);
    AtomIs(b);
    AtomIs(c);
    var l, r := TBinary(o1, Minimal(a), Minimal(b)), TBinary(o2, Minimal(b), Minimal(c));
    assert Tokens(l) == [AtomToken(a), OpTok(o1), AtomToken(b)];
    assert Tokens(TParen(l)) == [LParen, AtomToken(a), OpTok(o1), AtomToken(b), RParen];
    assert Strip(TParen(l)) == Strip(l) == Binary(o1, a, b);
    ParsesTo(TBinary(o2, TParen(l), Minimal(c)),
             [LParen, AtomToken(a), OpTok(o1), AtomToken(b), RParen, OpTok(o2), AtomToken(c)]);
    assert Tokens(r) == [AtomToken(b), OpTok(o2), AtomToken(c)];
    assert Tokens(TParen(r)) == [LParen, AtomToken(b), OpTok(o2), AtomToken(c), RParen];
    assert Strip(TParen(r)) == Strip(r) == Binary(o2, b, c);
    ParsesTo(TBinary(o1, Minimal(a), TParen(r)),
             [AtomToken(a), OpTok(o1), LParen, AtomToken(b), OpTok(o2), AtomToken(c), RParen]);
  }
}
