/** An encoder for line-number programs, and the proof that the interpreter undoes it. */
module LineEncoder {
  import opened Basics
  import opened Leb128
  import opened LineProgram

  /** The instructions the interpreter handles; `width` is how many bytes each LEB128 operand
      (or extended-opcode length) takes. */
  datatype Instr =
    | Copy
    | AdvancePc(ops: Word, width: nat)
    | AdvanceLine(delta: int, width: nat)
    | SetFile(file: Word, width: nat)
    | SetColumn(column: Word, width: nat)
    | ConstAddPc
    | FixedAdvancePc(advance: nat)
    | SetAddress(address: Word, width: nat)
    | EndSequence(width: nat)
    | Special(opcode: Byte)

  predicate UlebFits(v: nat, width: nat) {
    0 < width <= MAX_LEB_BYTES && v < Pow128(width)
  }

  predicate Encodable(h: Header, i: Instr) {
    match i
    case AdvancePc(v, w) => UlebFits(v, w)
    case SetFile(v, w) => UlebFits(v, w)
    case SetColumn(v, w) => UlebFits(v, w)
    case AdvanceLine(v, w) =>
      0 < w <= MAX_LEB_BYTES && SlebFits(v, w) && -(TWO_TO_THE_64 / 2) <= v < TWO_TO_THE_64 / 2
    case FixedAdvancePc(v) => v < Pow256(2)
    case SetAddress(v, w) =>
      UlebFits(1 + h.addressSize, w) && (h.addressSize == 8 || (h.addressSize == 4 && v < TWO_TO_THE_32))
    case EndSequence(w) => UlebFits(1, w)
    case Special(op) => op >= h.opcodeBase
    case Copy => true
    case ConstAddPc => true
  }

  ghost function Encode(h: Header, i: Instr): (s: seq<Byte>)
    requires Encodable(h, i)
    ensures |s| > 0
  {
    match i
    case Copy => [DW_LNS_COPY]
    case AdvancePc(v, w) => [DW_LNS_ADVANCE_PC] + UlebBytes(v, w)
    case AdvanceLine(v, w) => [DW_LNS_ADVANCE_LINE] + SlebBytes(v, w)
    case SetFile(v, w) => [DW_LNS_SET_FILE] + UlebBytes(v, w)
    case SetColumn(v, w) => [DW_LNS_SET_COLUMN] + UlebBytes(v, w)
    case ConstAddPc => [DW_LNS_CONST_ADD_PC]
    case FixedAdvancePc(v) => [DW_LNS_FIXED_ADVANCE_PC] + LittleBytes(v, 2)
    case SetAddress(v, w) =>
      Pow256Word();
      [0] + UlebBytes(1 + h.addressSize, w) + [DW_LNE_SET_ADDRESS] + LittleBytes(v, h.addressSize)
    case EndSequence(w) => [0] + UlebBytes(1, w) + [DW_LNE_END_SEQUENCE]
    case Special(op) => [op]
  }

  /** What the standard says each instruction does to the state machine. */
  function Apply(h: Header, t: Tables, st: State, i: Instr): State
    requires Usable(h) && Encodable(h, i)
  {
    match i
    case Copy => EmitRow(t, st)
    case AdvancePc(ops, _) => AddOps(h, st, ops)
    case AdvanceLine(delta, _) => AddLine(st, delta)
    case SetFile(file, _) => st.(regs := st.regs.(file := file))
    case SetColumn(column, _) => st.(regs := st.regs.(column := column))
    case ConstAddPc => AddOps(h, st, OpsPart(h, 255))
    case FixedAdvancePc(advance) => AddAddress(st, advance)
    case SetAddress(address, _) => st.(regs := st.regs.(address := address))
    case EndSequence(_) => EmitRow(t, st).(regs := START)
    case Special(op) => EmitRow(t, AddOps(h, AddLine(st, LinePart(h, op)), OpsPart(h, op)))
  }

  ghost predicate At(s: seq<Byte>, pos: nat, part: seq<Byte>) {
    pos + |part| <= |s| && s[pos..pos + |part|] == part
  }

  lemma AtSplit(s: seq<Byte>, pos: nat, a: seq<Byte>, b: seq<Byte>)
    requires At(s, pos, a + b)
    ensures At(s, pos, a) && At(s, pos + |a|, b)
  {
    var c := a + b;
    assert s[pos..pos + |a|] == s[pos..pos + |c|][..|a|];
    assert s[pos + |a|..pos + |c|] == s[pos..pos + |c|][|a|..];
  }

  lemma AtStart(s: seq<Byte>, pos: nat, first: seq<Byte>, rest: seq<Byte>)
    requires pos <= |s| && s[pos..] == first + rest
    ensures At(s, pos, first) && s[pos + |first|..] == rest
  {
    assert s[pos..pos + |first|] == s[pos..][..|first|];
    assert s[pos + |first|..] == s[pos..][|first|..];
  }

  lemma AtByte(s: seq<Byte>, pos: nat, b: Byte)
    requires At(s, pos, [b])
    ensures pos < |s| && s[pos] == b
  {
    assert s[pos] == s[pos..pos + 1][0];
  }

  lemma StepUleb(s: seq<Byte>, pos: nat, op: Byte, v: Word, w: nat)
    requires UlebFits(v, w) && At(s, pos, [op] + UlebBytes(v, w))
    ensures pos < |s| && s[pos] == op
    ensures var d := ReadDigits(s, pos + 1, MAX_LEB_BYTES); UlebValue(d) == v && d.pos == pos + 1 + w
  {
    AtSplit(s, pos, [op], UlebBytes(v, w));
    AtByte(s, pos, op);
    UlebRoundTrip(s, pos + 1, v, w);
  }

  lemma StepExtended(s: seq<Byte>, pos: nat, sub: Byte, v: Word, w: nat, rest: seq<Byte>)
    requires UlebFits(v, w) && v == 1 + |rest| && At(s, pos, [0] + UlebBytes(v, w) + [sub] + rest)
    ensures pos < |s| && s[pos] == 0
    ensures var d := ReadDigits(s, pos + 1, MAX_LEB_BYTES);
            UlebValue(d) == v && d.pos == pos + 1 + w && d.pos + v <= |s|
    ensures U8(s, pos + 1 + w) == (sub, pos + 2 + w) && At(s, pos + 2 + w, rest)
  {
    AtExtended(s, pos, UlebBytes(v, w), w, sub, rest);
    AtByte(s, pos + 1 + w, sub);
    StepUleb(s, pos, 0, v, w);
  }

  lemma AtExtended(s: seq<Byte>, pos: nat, length: seq<Byte>, w: nat, sub: Byte, rest: seq<Byte>)
    requires |length| == w && At(s, pos, [0] + length + [sub] + rest)
    ensures At(s, pos, [0] + length) && At(s, pos + 1 + w, [sub]) && At(s, pos + 2 + w, rest)
    ensures pos + 2 + w + |rest| <= |s|
  {
    AtSplit(s, pos, [0] + length + [sub], rest);
    AtSplit(s, pos, [0] + length, [sub]);
  }

  lemma StepPlain(h: Header, t: Tables, s: seq<Byte>, base: Word, pos: nat, st: State, i: Instr)
    requires Sound(h) && Encodable(h, i) && At(s, pos, Encode(h, i))
    requires i.Copy? || i.ConstAddPc? || i.Special?
    ensures pos < |s| && Step(h, t, s, base, pos, st) == Some((pos + |Encode(h, i)|, Apply(h, t, st, i)))
  {
    match i
    case Copy => AtByte(s, pos, DW_LNS_COPY);
    case ConstAddPc => AtByte(s, pos, DW_LNS_CONST_ADD_PC);
    case Special(op) =>
      AtByte(s, pos, op);
      CastKeeps(h, op);
  }

  lemma CastKeeps(h: Header, op: Byte)
    requires Sound(h) && op >= h.opcodeBase
    ensures ToInt8(LinePart(h, op)) == LinePart(h, op)
  {
  }

  lemma StepUnsigned(h: Header, t: Tables, s: seq<Byte>, base: Word, pos: nat, st: State, i: Instr)
    requires Sound(h) && Encodable(h, i) && At(s, pos, Encode(h, i))
    requires i.AdvancePc? || i.SetFile? || i.SetColumn?
    ensures pos < |s| && Step(h, t, s, base, pos, st) == Some((pos + |Encode(h, i)|, Apply(h, t, st, i)))
  {
    match i
    case AdvancePc(v, w) => StepUleb(s, pos, DW_LNS_ADVANCE_PC, v, w);
    case SetFile(v, w) => StepUleb(s, pos, DW_LNS_SET_FILE, v, w);
    case SetColumn(v, w) => StepUleb(s, pos, DW_LNS_SET_COLUMN, v, w);
  }

  lemma StepLine(h: Header, t: Tables, s: seq<Byte>, base: Word, pos: nat, st: State, i: Instr)
    requires Sound(h) && Encodable(h, i) && At(s, pos, Encode(h, i)) && i.AdvanceLine?
    ensures pos < |s| && Step(h, t, s, base, pos, st) == Some((pos + |Encode(h, i)|, Apply(h, t, st, i)))
  {
    var AdvanceLine(v, w) := i;
    AtSplit(s, pos, [DW_LNS_ADVANCE_LINE], SlebBytes(v, w));
    AtByte(s, pos, DW_LNS_ADVANCE_LINE);
    SlebRoundTrip(s, pos + 1, v, w);
  }

  lemma StepFixed(h: Header, t: Tables, s: seq<Byte>, base: Word, pos: nat, st: State, i: Instr)
    requires Sound(h) && Encodable(h, i) && At(s, pos, Encode(h, i)) && i.FixedAdvancePc?
    ensures pos < |s| && Step(h, t, s, base, pos, st) == Some((pos + |Encode(h, i)|, Apply(h, t, st, i)))
  {
    var FixedAdvancePc(v) := i;
    AtSplit(s, pos, [DW_LNS_FIXED_ADVANCE_PC], LittleBytes(v, 2));
    AtByte(s, pos, DW_LNS_FIXED_ADVANCE_PC);
    LittleRoundTrip(s, pos + 1, v, 2);
  }

  lemma StepEnd(h: Header, t: Tables, s: seq<Byte>, base: Word, pos: nat, st: State, i: Instr)
    requires Sound(h) && Mapped(s, base) && Encodable(h, i) && At(s, pos, Encode(h, i)) && i.EndSequence?
    ensures pos < |s| && Step(h, t, s, base, pos, st) == Some((pos + |Encode(h, i)|, Apply(h, t, st, i)))
  {
    hide ReadDigits, UlebBytes, UlebValue, U8;
    var EndSequence(w) := i;
    assert Encode(h, EndSequence(w)) == [0] + UlebBytes(1, w) + [DW_LNE_END_SEQUENCE] + [];
    StepExtended(s, pos, DW_LNE_END_SEQUENCE, 1, w, []);
  }

  /** The interpreter's step on an instruction's bytes is that instruction. */
  lemma StepEncoded(h: Header, t: Tables, s: seq<Byte>, base: Word, pos: nat, st: State, i: Instr)
    requires Sound(h) && Mapped(s, base) && Encodable(h, i) && At(s, pos, Encode(h, i))
    ensures pos < |s| && Step(h, t, s, base, pos, st) == Some((pos + |Encode(h, i)|, Apply(h, t, st, i)))
  {
    hide Step, Encode, Encodable, Apply, At, Mapped;
    if i.SetAddress? {
      StepSetAddress(h, t, s, base, pos, st, i.address, i.width);
    } else if i.EndSequence? {
      StepEnd(h, t, s, base, pos, st, i);
    } else {
      StepStandard(h, t, s, base, pos, st, i);
    }
  }

  lemma StepStandard(h: Header, t: Tables, s: seq<Byte>, base: Word, pos: nat, st: State, i: Instr)
    requires Sound(h) && Encodable(h, i) && At(s, pos, Encode(h, i)) && !i.SetAddress? && !i.EndSequence?
    ensures pos < |s| && Step(h, t, s, base, pos, st) == Some((pos + |Encode(h, i)|, Apply(h, t, st, i)))
  {
    hide Step, Encode, Encodable, Apply, At;
    if i.AdvanceLine? {
      StepLine(h, t, s, base, pos, st, i);
    } else if i.FixedAdvancePc? {
      StepFixed(h, t, s, base, pos, st, i);
    } else if i.Copy? || i.ConstAddPc? || i.Special? {
      StepPlain(h, t, s, base, pos, st, i);
    } else {
      StepUnsigned(h, t, s, base, pos, st, i);
    }
  }

  lemma StepSetAddress(h: Header, t: Tables, s: seq<Byte>, base: Word, pos: nat, st: State, v: Word, w: nat)
    requires Sound(h) && Mapped(s, base) && Encodable(h, SetAddress(v, w)) && At(s, pos, Encode(h, SetAddress(v, w)))
    ensures pos < |s|
    ensures Step(h, t, s, base, pos, st) ==
            Some((pos + |Encode(h, SetAddress(v, w))|, Apply(h, t, st, SetAddress(v, w))))
  {
    hide ReadDigits, UlebBytes, UlebValue, U8, Mapped, UlebFits, Step, LittleBytes;
    SetAddressBytes(h, SetAddress(v, w));
    StepAddressBytes(h, t, s, base, pos, st, v, w);
  }

  lemma StepAddressBytes(h: Header, t: Tables, s: seq<Byte>, base: Word, pos: nat, st: State, v: Word, w: nat)
    requires Sound(h) && Mapped(s, base) && (h.addressSize == 8 || h.addressSize == 4) && v < Pow256(h.addressSize)
    requires UlebFits(1 + h.addressSize, w)
    requires At(s, pos, [0] + UlebBytes(1 + h.addressSize, w) + [DW_LNE_SET_ADDRESS] + LittleBytes(v, h.addressSize))
    requires Encodable(h, SetAddress(v, w))
    ensures pos < |s|
    ensures Step(h, t, s, base, pos, st) == Some((pos + 2 + w + h.addressSize, Apply(h, t, st, SetAddress(v, w))))
  {
    hide ReadDigits, UlebBytes, LittleBytes, Little, U8, UlebValue, Pow256, ExtendedStep, UlebFits, Mapped;
    AddressOperands(s, pos, v, w, h.addressSize);
    ExtendedAddress(h, t, s, base, pos + 1, st, v, w, pos + 2 + w);
  }

  lemma AddressOperands(s: seq<Byte>, pos: nat, v: Word, w: nat, size: nat)
    requires size <= 8 && v < Pow256(size) && UlebFits(1 + size, w)
    requires At(s, pos, [0] + UlebBytes(1 + size, w) + [DW_LNE_SET_ADDRESS] + LittleBytes(v, size))
    ensures pos < |s| && s[pos] == 0
    ensures var d := ReadDigits(s, pos + 1, MAX_LEB_BYTES); UlebValue(d) == 1 + size && d.pos == pos + 1 + w
    ensures U8(s, pos + 1 + w) == (DW_LNE_SET_ADDRESS, pos + 2 + w)
    ensures pos + 2 + w + size <= |s| && Little(s, pos + 2 + w, size).0 == v
  {
    StepExtended(s, pos, DW_LNE_SET_ADDRESS, 1 + size, w, LittleBytes(v, size));
    LittleRoundTrip(s, pos + 2 + w, v, size);
  }

  lemma SetAddressBytes(h: Header, i: Instr)
    requires Encodable(h, i) && i.SetAddress?
    ensures i.address < Pow256(h.addressSize) && |Encode(h, i)| == 2 + i.width + h.addressSize
    ensures Encode(h, i) == [0] + UlebBytes(1 + h.addressSize, i.width) + [DW_LNE_SET_ADDRESS]
                            + LittleBytes(i.address, h.addressSize)
  {
    Pow256Word();
  }

  lemma ExtendedAddress(h: Header, t: Tables, s: seq<Byte>, base: Word, pos: nat, st: State, v: Word, w: nat, p: nat)
    requires Mapped(s, base)
    requires h.addressSize == 8 || h.addressSize == 4
    requires p == pos + w + 1 && p + h.addressSize <= |s|
    requires var d := ReadDigits(s, pos, MAX_LEB_BYTES); UlebValue(d) == 1 + h.addressSize && d.pos == pos + w
    requires U8(s, pos + w) == (DW_LNE_SET_ADDRESS, p)
    requires Little(s, p, h.addressSize).0 == v
    ensures ExtendedStep(h, t, s, base, pos, st) == Some((p + h.addressSize, st.(regs := st.regs.(address := v))))
  {
  }

  predicate AllEncodable(h: Header, p: seq<Instr>) {
    forall i :: i in p ==> Encodable(h, i)
  }

  ghost function EncodeAll(h: Header, p: seq<Instr>): seq<Byte>
    requires AllEncodable(h, p)
  {
    if p == [] then [] else Encode(h, p[0]) + EncodeAll(h, p[1..])
  }

  function ApplyAll(h: Header, t: Tables, st: State, p: seq<Instr>): State
    requires Usable(h) && AllEncodable(h, p)
    decreases |p|
  {
    if p == [] then st else ApplyAll(h, t, Apply(h, t, st, p[0]), p[1..])
  }

  /** Interpreting an encoded program, however its operands are padded, is running its instructions,
      one iteration each. */
  lemma {:induction false} ParseEncoded(h: Header, t: Tables, s: seq<Byte>, base: Word, pos: nat, st: State,
                                        p: seq<Instr>, n: nat)
    requires Sound(h) && Mapped(s, base) && AllEncodable(h, p) && pos <= |s| && s[pos..] == EncodeAll(h, p)
    requires n >= |p|
    ensures Run(h, t, s, base, pos, st, n) == (Finished, ApplyAll(h, t, st, p))
    decreases |p|
  {
    if p == [] {
      assert |s[pos..]| == 0;
    } else {
      var pos', st' := ParseFirst(h, t, s, base, pos, st, p, n);
      ParseEncoded(h, t, s, base, pos', st', p[1..], n - 1);
    }
  }

  lemma ParseFirst(h: Header, t: Tables, s: seq<Byte>, base: Word, pos: nat, st: State, p: seq<Instr>, n: nat)
    returns (pos': nat, st': State)
    requires Sound(h) && Mapped(s, base) && AllEncodable(h, p) && p != [] && n > 0
    requires pos <= |s| && s[pos..] == EncodeAll(h, p)
    ensures pos' <= |s| && AllEncodable(h, p[1..]) && s[pos'..] == EncodeAll(h, p[1..])
    ensures Run(h, t, s, base, pos, st, n) == Run(h, t, s, base, pos', st', n - 1)
    ensures ApplyAll(h, t, st, p) == ApplyAll(h, t, st', p[1..])
  {
    pos' := ParseInstr(h, t, s, base, pos, st, p[0], EncodeAll(h, p[1..]), n);
    st' := Apply(h, t, st, p[0]);
    ApplyFirst(h, t, st, p);
  }

  lemma ParseInstr(h: Header, t: Tables, s: seq<Byte>, base: Word, pos: nat, st: State, i: Instr, rest: seq<Byte>, n: nat)
    returns (pos': nat)
    requires Sound(h) && Mapped(s, base) && Encodable(h, i) && n > 0
    requires pos <= |s| && s[pos..] == Encode(h, i) + rest
    ensures pos' <= |s| && s[pos'..] == rest
    ensures Run(h, t, s, base, pos, st, n) == Run(h, t, s, base, pos', Apply(h, t, st, i), n - 1)
  {
    hide Run, Step, Encode, Encodable, Apply, At, Mapped;
    pos' := pos + |Encode(h, i)|;
    AtStart(s, pos, Encode(h, i), rest);
    StepEncoded(h, t, s, base, pos, st, i);
    RunStep(h, t, s, base, pos, st, pos', Apply(h, t, st, i), n);
  }

  lemma RunStep(h: Header, t: Tables, s: seq<Byte>, base: Word, pos: nat, st: State, pos': int, st': State, n: nat)
    requires Usable(h) && pos < |s| && n > 0 && Step(h, t, s, base, pos, st) == Some((pos', st'))
    ensures Run(h, t, s, base, pos, st, n) == Run(h, t, s, base, pos', st', n - 1)
  {
  }

  lemma {:induction false} ApplyAllAppend(h: Header, t: Tables, st: State, p: seq<Instr>, q: seq<Instr>)
    requires Usable(h) && AllEncodable(h, p) && AllEncodable(h, q)
    ensures AllEncodable(h, p + q)
    ensures ApplyAll(h, t, st, p + q) == ApplyAll(h, t, ApplyAll(h, t, st, p), q)
    decreases |p|
  {
    if p == [] {
      assert p + q == q;
    } else {
      assert (p + q)[1..] == p[1..] + q;
      ApplyAllAppend(h, t, Apply(h, t, st, p[0]), p[1..], q);
    }
  }

  // ----- special opcodes -----

  /** A special opcode is advance_line, advance_pc and copy with its two operands. */
  lemma SpecialIsThreeOps(h: Header, t: Tables, st: State, op: Byte, w: nat)
    requires Sound(h) && Encodable(h, Special(op))
    requires Encodable(h, AdvanceLine(LinePart(h, op), w)) && Encodable(h, AdvancePc(OpsPart(h, op), w))
    ensures SpecialStep(h, t, op, st) ==
            ApplyAll(h, t, st, [AdvanceLine(LinePart(h, op), w), AdvancePc(OpsPart(h, op), w), Copy])
  {
    SpecialSplit(h, t, st, op);
    ThreeOps(h, t, st, LinePart(h, op), OpsPart(h, op), w);
  }

  lemma ThreeOps(h: Header, t: Tables, st: State, delta: int, ops: Word, w: nat)
    requires Usable(h) && Encodable(h, AdvanceLine(delta, w)) && Encodable(h, AdvancePc(ops, w))
    ensures ApplyAll(h, t, st, [AdvanceLine(delta, w), AdvancePc(ops, w), Copy]) ==
            EmitRow(t, AddOps(h, AddLine(st, delta), ops))
  {
    ApplyThree(h, t, st, AdvanceLine(delta, w), AdvancePc(ops, w), Copy);
  }

  lemma SpecialSplit(h: Header, t: Tables, st: State, op: Byte)
    requires Sound(h) && op >= h.opcodeBase
    ensures SpecialStep(h, t, op, st) == EmitRow(t, AddOps(h, AddLine(st, LinePart(h, op)), OpsPart(h, op)))
  {
    CastKeeps(h, op);
  }

  lemma ApplyThree(h: Header, t: Tables, st: State, a: Instr, b: Instr, c: Instr)
    requires Usable(h) && Encodable(h, a) && Encodable(h, b) && Encodable(h, c)
    ensures ApplyAll(h, t, st, [a, b, c]) == Apply(h, t, Apply(h, t, Apply(h, t, st, a), b), c)
  {
    var st1 := Apply(h, t, st, a);
    assert [a, b, c][1..] == [b, c] && [b, c][1..] == [c];
    ApplyOne(h, t, Apply(h, t, st1, b), c);
    ApplyFirst(h, t, st1, [b, c]);
    ApplyFirst(h, t, st, [a, b, c]);
  }

  lemma ApplyFirst(h: Header, t: Tables, st: State, p: seq<Instr>)
    requires Usable(h) && AllEncodable(h, p) && p != []
    ensures AllEncodable(h, p[1..]) && ApplyAll(h, t, st, p) == ApplyAll(h, t, Apply(h, t, st, p[0]), p[1..])
  {
  }

  /** For any header the parser takes, its 8-bit cast leaves a special opcode as the standard has
      it exactly when that opcode's line operand fits a signed byte. */
  lemma SpecialCastIff(h: Header, t: Tables, op: Byte, st: State)
    requires Usable(h) && op >= h.opcodeBase
    ensures SpecialStep(h, t, op, st).regs == Apply(h, t, st, Special(op)).regs <==> LinePart(h, op) <= 127
  {
    assert LinePart(h, op) >= -128;
  }

  /** const_add_pc moves the address as far as special opcode 255. */
  lemma ConstAddPcIs255(h: Header, t: Tables, st: State)
    requires Sound(h)
    ensures Apply(h, t, st, ConstAddPc).regs.address == Apply(h, t, st, Special(255)).regs.address
    ensures Apply(h, t, st, ConstAddPc) == st.(regs := st.regs.(address := SpecialStep(h, t, 255, st).regs.address))
  {
  }

  // ----- unhandled standard opcodes -----

  /** The opcodes whose operands the interpreter skips by their number. */
  predicate Unhandled(h: Header, op: Byte) {
    op < h.opcodeBase && (op == 6 || op == 7 || op >= 10)
  }

  /** Where `k` LEB128 operands end. */
  function OperandsEnd(s: seq<Byte>, pos: nat, k: nat): nat
    decreases k
  {
    if k == 0 then pos else OperandsEnd(s, ReadDigits(s, pos, MAX_LEB_BYTES).pos, k - 1)
  }

  predicate OperandsFit(vs: seq<Word>, ws: seq<nat>) {
    |vs| == |ws| && forall i :: 0 <= i < |ws| ==> UlebFits(vs[i], ws[i])
  }

  /** Operands `vs`, each padded to its width in `ws`. */
  function Operands(vs: seq<Word>, ws: seq<nat>): seq<Byte>
    requires OperandsFit(vs, ws)
    decreases |ws|
  {
    if ws == [] then [] else UlebBytes(vs[0], ws[0]) + Operands(vs[1..], ws[1..])
  }

  predicate AllOneByte(ws: seq<nat>) {
    forall i :: 0 <= i < |ws| ==> ws[i] == 1
  }

  lemma {:induction false} OperandsRead(s: seq<Byte>, pos: nat, vs: seq<Word>, ws: seq<nat>)
    requires OperandsFit(vs, ws) && At(s, pos, Operands(vs, ws))
    ensures OperandsEnd(s, pos, |ws|) == pos + |Operands(vs, ws)|
    ensures |Operands(vs, ws)| >= |ws| && (|Operands(vs, ws)| == |ws| <==> AllOneByte(ws))
    decreases |ws|
  {
    if ws != [] {
      AtSplit(s, pos, UlebBytes(vs[0], ws[0]), Operands(vs[1..], ws[1..]));
      UlebRoundTrip(s, pos, vs[0], ws[0]);
      OperandsRead(s, pos + ws[0], vs[1..], ws[1..]);
      assert AllOneByte(ws) <==> ws[0] == 1 && AllOneByte(ws[1..]) by {
        assert forall i :: 0 < i < |ws| ==> ws[i] == ws[1..][i - 1];
      }
    }
  }

  /** The skip of an unhandled opcode's operands, a byte for each, lands after them exactly when
      every one of them takes a single byte. */
  lemma SkipIff(h: Header, t: Tables, s: seq<Byte>, op: Byte, pos: nat, st: State, vs: seq<Word>, ws: seq<nat>)
    requires Usable(h) && Unhandled(h, op) && |ws| == h.stdLengths[op]
    requires OperandsFit(vs, ws) && At(s, pos, Operands(vs, ws))
    ensures StandardStep(h, t, s, op, pos, st).0 == OperandsEnd(s, pos, |ws|) <==> AllOneByte(ws)
  {
    OperandsRead(s, pos, vs, ws);
  }

  /** Two operands of two bytes each: the skip lands on the second one. */
  lemma SkipLandsInside(h: Header, t: Tables, op: Byte, st: State)
    requires Usable(h) && Unhandled(h, op) && h.stdLengths[op] == 2
    ensures var s: seq<Byte> := [0x80, 0x01, 0x80, 0x00];
            StandardStep(h, t, s, op, 0, st).0 == 2 && OperandsEnd(s, 0, 2) == 4
  {
    var s: seq<Byte> := [0x80, 0x01, 0x80, 0x00];
    assert ReadDigits(s, 1, MAX_LEB_BYTES - 1).pos == 2;
    assert ReadDigits(s, 3, MAX_LEB_BYTES - 1).pos == 4;
    assert OperandsEnd(s, 2, 1) == 4;
  }

  // ----- encoding rows -----

  datatype Row = Row(address: Word, line: nat, file: Word, column: Word)

  predicate RowOk(t: Tables, r: Row) {
    && 0 < r.line < TWO_TO_THE_32 && r.column < TWO_TO_THE_32
    && BuildPath(t, r.file).Some?
  }

  /** The header's set_address operand can hold the address. */
  predicate Sized(h: Header, address: Word) {
    h.addressSize == 8 || (h.addressSize == 4 && address < TWO_TO_THE_32)
  }

  predicate RowsSized(h: Header, rows: seq<Row>) {
    forall r :: r in rows ==> Sized(h, r.address)
  }

  predicate AllSized(h: Header, seqs: seq<seq<Row>>) {
    forall rows :: rows in seqs ==> RowsSized(h, rows)
  }

  function EntryOf(t: Tables, r: Row): Entry
    requires RowOk(t, r)
  {
    Entry(r.address, r.line, r.column, BuildPath(t, r.file).value)
  }

  function RegsOf(r: Row): Regs {
    Regs(r.address, r.line, r.file, r.column)
  }

  /** The special opcode reaching `row` from `r`, when there is one. */
  function SpecialFor(h: Header, r: Regs, row: Row): Option<Byte>
    requires Sound(h)
  {
    var lines, bytes := row.line - r.line, row.address - r.address;
    if bytes < 0 || h.minInst == 0 || bytes % h.minInst != 0
       || lines < h.lineBase || lines >= h.lineBase + h.lineRange then None
    else
      var op := (lines - h.lineBase) + h.lineRange * (bytes / h.minInst) + h.opcodeBase;
      if op > 255 || op < h.opcodeBase then None else Some(op)
  }

  function MoveAddress(h: Header, r: Regs, address: Word): seq<Instr> {
    if address == r.address then []
    else if address > r.address && h.minInst > 0 && (address - r.address) % h.minInst == 0 then
      [AdvancePc((address - r.address) / h.minInst, MAX_LEB_BYTES)]
    else [SetAddress(address, MAX_LEB_BYTES)]
  }

  function MoveFile(r: Regs, row: Row): seq<Instr> {
    if row.file == r.file then [] else [SetFile(row.file, MAX_LEB_BYTES)]
  }

  function MoveColumn(r: Regs, row: Row): seq<Instr> {
    if row.column == r.column then [] else [SetColumn(row.column, MAX_LEB_BYTES)]
  }

  /** The last instructions of a row: one special opcode if there is one, else the long way. */
  function Finish(h: Header, r: Regs, row: Row): seq<Instr>
    requires Sound(h)
  {
    match SpecialFor(h, r, row)
    case Some(op) => [Special(op)]
    case None => MoveAddress(h, r, row.address) + [AdvanceLine(row.line - r.line, MAX_LEB_BYTES), Copy]
  }

  function EncodeRow(h: Header, r: Regs, row: Row): seq<Instr>
    requires Sound(h)
  {
    MoveFile(r, row) + MoveColumn(r, row) + Finish(h, r, row)
  }

  lemma SpecialForCorrect(h: Header, r: Regs, row: Row)
    requires Sound(h) && SpecialFor(h, r, row).Some?
    ensures var op := SpecialFor(h, r, row).value;
            && op >= h.opcodeBase
            && LinePart(h, op) == row.line - r.line
            && OpsPart(h, op) * h.minInst == row.address - r.address
  {
    var op := SpecialFor(h, r, row).value;
    var ops := (row.address - r.address) / h.minInst;
    DivModUnique(op - h.opcodeBase, h.lineRange, ops, row.line - r.line - h.lineBase);
    assert (row.address - r.address) == ops * h.minInst + (row.address - r.address) % h.minInst;
  }

  lemma DivModUnique(x: nat, d: nat, q: nat, m: nat)
    requires m < d && x == m + d * q
    ensures x / d == q && x % d == m
  {
    var k := q - x / d;
    assert d * k == d * q - d * (x / d);
    Multiple(d, k);
    Multiple(d, -k);
  }

  lemma Multiple(d: nat, k: int)
    ensures k >= 1 ==> d * k >= d
    ensures d * -k == -(d * k)
  {
  }

  lemma ApplyOne(h: Header, t: Tables, st: State, i: Instr)
    requires Usable(h) && Encodable(h, i)
    ensures ApplyAll(h, t, st, [i]) == Apply(h, t, st, i)
  {
    assert [i][1..] == [];
    assert ApplyAll(h, t, Apply(h, t, st, i), []) == Apply(h, t, st, i);
  }

  lemma FileMoves(h: Header, t: Tables, st: State, row: Row)
    requires Usable(h)
    ensures var p := MoveFile(st.regs, row) + MoveColumn(st.regs, row);
            && AllEncodable(h, p)
            && ApplyAll(h, t, st, p) == st.(regs := st.regs.(file := row.file, column := row.column))
  {
    TenBytesSuffice(row.file, 0);
    TenBytesSuffice(row.column, 0);
    var p, q := MoveFile(st.regs, row), MoveColumn(st.regs, row);
    if p != [] { ApplyOne(h, t, st, p[0]); }
    if q != [] { ApplyOne(h, t, ApplyAll(h, t, st, p), q[0]); }
    ApplyAllAppend(h, t, st, p, q);
  }

  lemma AddressMoves(h: Header, t: Tables, st: State, address: Word)
    requires Usable(h) && Sized(h, address)
    ensures var p := MoveAddress(h, st.regs, address);
            && AllEncodable(h, p)
            && ApplyAll(h, t, st, p) == st.(regs := st.regs.(address := address))
  {
    hide Apply, Encodable;
    var p := MoveAddress(h, st.regs, address);
    if p != [] {
      if p[0].AdvancePc? {
        AdvanceMoves(h, t, st, address);
      } else {
        SetMoves(h, t, st, address);
      }
      ApplyOne(h, t, st, p[0]);
    }
  }

  lemma DivideExactly(a: nat, m: nat)
    requires m > 0 && a % m == 0
    ensures a / m * m == a
  {
    assert a == m * (a / m) + a % m;
  }

  lemma AdvanceMoves(h: Header, t: Tables, st: State, address: Word)
    requires Usable(h) && address > st.regs.address && h.minInst > 0 && (address - st.regs.address) % h.minInst == 0
    ensures var i := AdvancePc((address - st.regs.address) / h.minInst, MAX_LEB_BYTES);
            Encodable(h, i) && Apply(h, t, st, i) == st.(regs := st.regs.(address := address))
  {
    var ops: Word := (address - st.regs.address) / h.minInst;
    TenBytesSuffice(ops, 0);
    DivideExactly(address - st.regs.address, h.minInst);
  }

  lemma SetMoves(h: Header, t: Tables, st: State, address: Word)
    requires Usable(h) && Sized(h, address)
    ensures var i := SetAddress(address, MAX_LEB_BYTES);
            Encodable(h, i) && Apply(h, t, st, i) == st.(regs := st.regs.(address := address))
  {
    TenBytesSuffice(1 + h.addressSize, 0);
  }

  lemma FinishLong(h: Header, t: Tables, st: State, address: Word, delta: int)
    requires Usable(h) && Sized(h, address) && -(TWO_TO_THE_32 as int) < delta < TWO_TO_THE_32
    ensures var p := MoveAddress(h, st.regs, address) + [AdvanceLine(delta, MAX_LEB_BYTES), Copy];
            && AllEncodable(h, p)
            && ApplyAll(h, t, st, p) ==
               EmitRow(t, st.(regs := st.regs.(address := address, line := st.regs.line + delta)))
  {
    TenBytesSuffice(0, delta);
    AddressMoves(h, t, st, address);
    var p, st1 := MoveAddress(h, st.regs, address), st.(regs := st.regs.(address := address));
    var last := [AdvanceLine(delta, MAX_LEB_BYTES), Copy];
    ApplyAllAppend(h, t, st, p, last);
    assert last[1..] == [Copy];
    ApplyOne(h, t, AddLine(st1, delta), Copy);
  }

  lemma FinishSpecial(h: Header, t: Tables, st: State, row: Row, op: Byte)
    requires Sound(h) && SpecialFor(h, st.regs, row) == Some(op)
    ensures Encodable(h, Special(op))
    ensures Apply(h, t, st, Special(op)) ==
            EmitRow(t, st.(regs := st.regs.(address := row.address, line := row.line)))
  {
    SpecialForCorrect(h, st.regs, row);
    assert st.regs.address + OpsPart(h, op) * h.minInst == row.address;
  }

  lemma FinishReaches(h: Header, t: Tables, st: State, row: Row)
    requires Sound(h) && Sized(h, row.address) && RowOk(t, row) && 0 < st.regs.line < TWO_TO_THE_32
    requires st.regs.file == row.file && st.regs.column == row.column
    ensures var p := Finish(h, st.regs, row);
            AllEncodable(h, p) && ApplyAll(h, t, st, p) == State(RegsOf(row), st.rows + [EntryOf(t, row)])
  {
    EmitsRow(t, st, row);
    match SpecialFor(h, st.regs, row)
    case Some(op) =>
      FinishSpecial(h, t, st, row, op);
      ApplyOne(h, t, st, Special(op));
    case None =>
      FinishLong(h, t, st, row.address, row.line - st.regs.line);
  }

  lemma EmitsRow(t: Tables, st: State, row: Row)
    requires RowOk(t, row) && st.regs.file == row.file && st.regs.column == row.column
    ensures EmitRow(t, st.(regs := st.regs.(address := row.address, line := row.line))) ==
            State(RegsOf(row), st.rows + [EntryOf(t, row)])
  {
    assert Emit(t, RegsOf(row)) == [EntryOf(t, row)];
  }

  /** The instructions for one row emit exactly that row. */
  lemma RowEncodes(h: Header, t: Tables, st: State, row: Row)
    requires Sound(h) && Sized(h, row.address) && RowOk(t, row) && 0 < st.regs.line < TWO_TO_THE_32
    ensures var p := EncodeRow(h, st.regs, row);
            AllEncodable(h, p) && ApplyAll(h, t, st, p) == State(RegsOf(row), st.rows + [EntryOf(t, row)])
  {
    FileMoves(h, t, st, row);
    var st1 := st.(regs := st.regs.(file := row.file, column := row.column));
    FinishSame(h, st.regs, row);
    FinishReaches(h, t, st1, row);
    ApplyAllAppend(h, t, st, MoveFile(st.regs, row) + MoveColumn(st.regs, row), Finish(h, st1.regs, row));
  }

  lemma FinishSame(h: Header, r: Regs, row: Row)
    requires Sound(h)
    ensures Finish(h, r, row) == Finish(h, r.(file := row.file, column := row.column), row)
  {
  }

  predicate RowsOk(t: Tables, rows: seq<Row>) {
    forall r :: r in rows ==> RowOk(t, r)
  }

  /** One sequence: its rows, then end_sequence. */
  function Compile(h: Header, t: Tables, r: Regs, rows: seq<Row>): seq<Instr>
    requires Sound(h) && RowsOk(t, rows)
    decreases |rows|
  {
    if rows == [] then [EndSequence(MAX_LEB_BYTES)]
    else EncodeRow(h, r, rows[0]) + Compile(h, t, RegsOf(rows[0]), rows[1..])
  }

  function Entries(t: Tables, rows: seq<Row>): seq<Entry>
    requires RowsOk(t, rows)
  {
    seq(|rows|, i requires 0 <= i < |rows| => EntryOf(t, rows[i]))
  }

  function Last(r: Regs, rows: seq<Row>): Regs {
    if rows == [] then r else RegsOf(rows[|rows| - 1])
  }

  /** The rows themselves, plus the row end_sequence adds from the registers it finds. */
  function Expected(t: Tables, r: Regs, rows: seq<Row>): seq<Entry>
    requires RowsOk(t, rows)
  {
    Entries(t, rows) + Emit(t, Last(r, rows))
  }

  lemma ExpectedCons(t: Tables, r: Regs, rows: seq<Row>, before: seq<Entry>)
    requires RowsOk(t, rows) && rows != []
    ensures before + Expected(t, r, rows) ==
            (before + [EntryOf(t, rows[0])]) + Expected(t, RegsOf(rows[0]), rows[1..])
  {
    assert Entries(t, rows) == [EntryOf(t, rows[0])] + Entries(t, rows[1..]);
  }

  lemma {:induction false} CompileReaches(h: Header, t: Tables, st: State, rows: seq<Row>)
    requires Sound(h) && RowsSized(h, rows) && RowsOk(t, rows) && 0 < st.regs.line < TWO_TO_THE_32
    ensures var p := Compile(h, t, st.regs, rows);
            && AllEncodable(h, p)
            && ApplyAll(h, t, st, p) == State(START, st.rows + Expected(t, st.regs, rows))
    decreases |rows|
  {
    if rows == [] {
      TenBytesSuffice(1, 0);
      ApplyOne(h, t, st, EndSequence(MAX_LEB_BYTES));
      assert Expected(t, st.regs, rows) == Emit(t, st.regs);
    } else {
      assert rows[0] in rows;
      RowEncodes(h, t, st, rows[0]);
      var st1 := State(RegsOf(rows[0]), st.rows + [EntryOf(t, rows[0])]);
      CompileReaches(h, t, st1, rows[1..]);
      ApplyAllAppend(h, t, st, EncodeRow(h, st.regs, rows[0]), Compile(h, t, st1.regs, rows[1..]));
      ExpectedCons(t, st.regs, rows, st.rows);
    }
  }

  predicate AllRowsOk(t: Tables, seqs: seq<seq<Row>>) {
    forall rows :: rows in seqs ==> RowsOk(t, rows)
  }

  function CompileAll(h: Header, t: Tables, seqs: seq<seq<Row>>): seq<Instr>
    requires Sound(h) && AllRowsOk(t, seqs)
  {
    if seqs == [] then [] else Compile(h, t, START, seqs[0]) + CompileAll(h, t, seqs[1..])
  }

  function ExpectedAll(t: Tables, seqs: seq<seq<Row>>): seq<Entry>
    requires AllRowsOk(t, seqs)
  {
    if seqs == [] then [] else Expected(t, START, seqs[0]) + ExpectedAll(t, seqs[1..])
  }

  lemma {:induction false} CompileAllReaches(h: Header, t: Tables, rows0: seq<Entry>, seqs: seq<seq<Row>>)
    requires Sound(h) && AllSized(h, seqs) && AllRowsOk(t, seqs)
    ensures var p := CompileAll(h, t, seqs);
            && AllEncodable(h, p)
            && ApplyAll(h, t, State(START, rows0), p) == State(START, rows0 + ExpectedAll(t, seqs))
    decreases |seqs|
  {
    if seqs == [] {
      assert rows0 + [] == rows0;
    } else {
      assert seqs[0] in seqs;
      var st, rows1 := State(START, rows0), rows0 + Expected(t, START, seqs[0]);
      CompileReaches(h, t, st, seqs[0]);
      CompileAllReaches(h, t, rows1, seqs[1..]);
      ApplyAllAppend(h, t, st, Compile(h, t, START, seqs[0]), CompileAll(h, t, seqs[1..]));
      ExpectedAllCons(t, rows0, seqs);
    }
  }

  lemma ExpectedAllCons(t: Tables, before: seq<Entry>, seqs: seq<seq<Row>>)
    requires AllRowsOk(t, seqs) && seqs != []
    ensures RowsOk(t, seqs[0]) && AllRowsOk(t, seqs[1..])
    ensures before + ExpectedAll(t, seqs) == (before + Expected(t, START, seqs[0])) + ExpectedAll(t, seqs[1..])
  {
    assert seqs[0] in seqs;
  }

  /** Any rows in any number of sequences, encoded and interpreted, come back in order, each
      sequence followed by the row its end_sequence emits. */
  lemma LineProgramRoundTrip(h: Header, t: Tables, base: Word, rows0: seq<Entry>, seqs: seq<seq<Row>>, n: nat)
    requires Sound(h) && AllSized(h, seqs) && AllRowsOk(t, seqs)
    requires n >= |CompileAll(h, t, seqs)|
    ensures AllEncodable(h, CompileAll(h, t, seqs))
    ensures var s := EncodeAll(h, CompileAll(h, t, seqs));
            Mapped(s, base) ==>
              Run(h, t, s, base, 0, State(START, rows0), n) ==
              (Finished, State(START, rows0 + ExpectedAll(t, seqs)))
  {
    CompileAllReaches(h, t, rows0, seqs);
    var p := CompileAll(h, t, seqs);
    if Mapped(EncodeAll(h, p), base) {
      ParseEncoded(h, t, EncodeAll(h, p), base, 0, State(START, rows0), p, n);
    }
  }
}
