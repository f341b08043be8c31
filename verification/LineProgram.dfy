/** The line-number program interpreter (src/lineno.c, parse_line_program): the state machine of
    section 6.2.5 of DWARF 5, run over bytes. */
module LineProgram {
  import opened Basics
  import opened Leb128

  const DW_LNS_COPY: Byte := 1
  const DW_LNS_ADVANCE_PC: Byte := 2
  const DW_LNS_ADVANCE_LINE: Byte := 3
  const DW_LNS_SET_FILE: Byte := 4
  const DW_LNS_SET_COLUMN: Byte := 5
  const DW_LNS_CONST_ADD_PC: Byte := 8
  const DW_LNS_FIXED_ADVANCE_PC: Byte := 9
  const DW_LNE_END_SEQUENCE: Byte := 1
  const DW_LNE_SET_ADDRESS: Byte := 2

  const TWO_TO_THE_32: nat := 0x1_0000_0000

  datatype Header = Header(opcodeBase: nat, lineBase: int, lineRange: nat, minInst: nat,
                           addressSize: nat, stdLengths: seq<Byte>)

  /** What the parser itself needs: the operand-length table has sixteen entries. */
  predicate Usable(h: Header) {
    && 1 <= h.opcodeBase <= 16 && |h.stdLengths| == 16
    && 0 < h.lineRange < 256 && -128 <= h.lineBase < 128 && h.minInst < 256
  }

  /** Special opcodes survive the parser's 8-bit cast and every opcode it handles is standard. */
  predicate Sound(h: Header) {
    Usable(h) && h.lineBase + h.lineRange - 1 <= 127 && 10 <= h.opcodeBase
  }

  datatype Regs = Regs(address: Word, line: int, file: Word, column: Word)

  const START := Regs(0, 1, 1, 0)

  datatype FileName = FileName(name: string, dir: Word)

  datatype Tables = Tables(dirs: seq<string>, files: seq<FileName>)

  datatype Entry = Entry(address: Word, line: nat, column: nat, file: string)

  datatype State = State(regs: Regs, rows: seq<Entry>)

  /** File 0 is reserved; a directory outside the table, or an empty one, adds nothing. */
  function BuildPath(t: Tables, i: Word): Option<string> {
    if i >= |t.files| || i == 0 then None
    else
      var f := t.files[i];
      var dir := if f.dir < |t.dirs| then t.dirs[f.dir] else "";
      Some(if dir == "" then f.name else dir + "/" + f.name)
  }

  /** A file has a path when it is in the table and not file 0. The path ends in the file's name, and has
      before it the name of its directory and a slash, or nothing when it has no named directory. */
  lemma PathLaw(t: Tables, i: Word)
    ensures BuildPath(t, i).Some? <==> 0 < i < |t.files|
    ensures 0 < i < |t.files| ==>
              var f, path := t.files[i], BuildPath(t, i).value;
              if f.dir < |t.dirs| && t.dirs[f.dir] != "" then
                var d := |t.dirs[f.dir]|;
                && |path| == d + 1 + |f.name|
                && path[..d] == t.dirs[f.dir] && path[d] == '/' && path[d + 1..] == f.name
              else path == f.name
  {
    if 0 < i < |t.files| && t.files[i].dir < |t.dirs| {
      var dir, name := t.dirs[t.files[i].dir], t.files[i].name;
      assert (dir + "/" + name)[..|dir|] == dir && (dir + "/" + name)[|dir| + 1..] == name;
    }
  }

  /** The row for these registers; none for a line below 1 or an unknown file. */
  function Emit(t: Tables, r: Regs): seq<Entry> {
    if r.line <= 0 then []
    else match BuildPath(t, r.file)
      case None => []
      case Some(path) => [Entry(r.address, r.line % TWO_TO_THE_32, r.column % TWO_TO_THE_32, path)]
  }

  /** A row is emitted for a line of a known file, and takes its fields from the registers, the line and
      the column cut to 32 bits. */
  lemma RowLaw(t: Tables, r: Regs)
    ensures |Emit(t, r)| == if r.line >= 1 && 0 < r.file < |t.files| then 1 else 0
    ensures forall e :: e in Emit(t, r) ==>
              && e.address == r.address && BuildPath(t, r.file) == Some(e.file)
              && e.line < TWO_TO_THE_32 && (r.line < TWO_TO_THE_32 ==> e.line == r.line)
              && e.column < TWO_TO_THE_32 && (r.column < TWO_TO_THE_32 ==> e.column == r.column)
  {
    PathLaw(t, r.file);
  }

  function EmitRow(t: Tables, st: State): State {
    st.(rows := st.rows + Emit(t, st.regs))
  }

  function ToInt8(x: int): int {
    (x + 128) % 256 - 128
  }

  function AddAddress(st: State, advance: nat): State {
    st.(regs := st.regs.(address := Wrap(st.regs.address + advance)))
  }

  /** The address advanced by whole instructions. */
  function AddOps(h: Header, st: State, ops: nat): State {
    st.(regs := st.regs.(address := Wrap(st.regs.address + ops * h.minInst)))
  }

  function AddLine(st: State, delta: int): State {
    st.(regs := st.regs.(line := st.regs.line + delta))
  }

  // ----- the interpreter -----

  /** The line and address operands packed into a special opcode. */
  function LinePart(h: Header, op: int): (r: int)
    requires h.lineRange > 0
    ensures h.lineBase <= r < h.lineBase + h.lineRange
  {
    h.lineBase + (op - h.opcodeBase) % h.lineRange
  }

  lemma QuotientBound(x: nat, d: nat)
    requires d > 0
    ensures x / d <= x
  {
    assert x == d * (x / d) + x % d;
    ProductGrows(d, x / d);
  }

  lemma ProductGrows(d: nat, q: nat)
    requires d > 0
    ensures d * q >= q
  {
    if d > 1 {
      ProductGrows(d - 1, q);
      assert d * q == (d - 1) * q + q;
    }
  }

  function OpsPart(h: Header, op: int): (r: nat)
    requires h.lineRange > 0 && op >= h.opcodeBase
    ensures r <= op - h.opcodeBase
  {
    QuotientBound(op - h.opcodeBase, h.lineRange);
    (op - h.opcodeBase) / h.lineRange
  }

  function SpecialStep(h: Header, t: Tables, op: Byte, st: State): State
    requires Usable(h) && op >= h.opcodeBase
  {
    EmitRow(t, AddOps(h, AddLine(st, ToInt8(LinePart(h, op))), OpsPart(h, op)))
  }

  /** The end of an extended opcode, relative to the data: pointers are 64 bits wide, and the length
      added to one is any 64-bit number. */
  function ExtendedEnd(s: seq<Byte>, base: Word, pos: nat): int {
    var d := ReadDigits(s, pos, MAX_LEB_BYTES);
    Wrap(base + d.pos + UlebValue(d)) - base
  }

  /** From just after the zero byte; None is the parser's failure return. */
  function ExtendedStep(h: Header, t: Tables, s: seq<Byte>, base: Word, pos: nat, st: State): (r: Option<(int, State)>)
    ensures r.Some? ==> r.value.0 == ExtendedEnd(s, base, pos) <= |s|
  {
    var d := ReadDigits(s, pos, MAX_LEB_BYTES);
    var end := ExtendedEnd(s, base, pos);
    if end > |s| then None
    else
      var (sub, p) := U8(s, d.pos);
      if sub == DW_LNE_END_SEQUENCE then Some((end, EmitRow(t, st).(regs := START)))
      else if sub == DW_LNE_SET_ADDRESS then
        Pow256Word();
        Some((end, st.(regs := st.regs.(address :=
          if h.addressSize == 8 then Little(s, p, 8).0
          else if h.addressSize == 4 then U32(s, p).0
          else st.regs.address))))
      else Some((end, st))
  }

  /** From just after an opcode below the base. */
  function StandardStep(h: Header, t: Tables, s: seq<Byte>, op: Byte, pos: nat, st: State): (r: (nat, State))
    requires Usable(h) && 0 < op < h.opcodeBase && pos <= |s|
    ensures r.0 >= pos
  {
    var d := ReadDigits(s, pos, MAX_LEB_BYTES);
    if op == DW_LNS_COPY then (pos, EmitRow(t, st))
    else if op == DW_LNS_ADVANCE_PC then (d.pos, AddOps(h, st, UlebValue(d)))
    else if op == DW_LNS_ADVANCE_LINE then (d.pos, AddLine(st, SlebValue(d)))
    else if op == DW_LNS_SET_FILE then (d.pos, st.(regs := st.regs.(file := UlebValue(d))))
    else if op == DW_LNS_SET_COLUMN then (d.pos, st.(regs := st.regs.(column := UlebValue(d))))
    else if op == DW_LNS_CONST_ADD_PC then (pos, AddOps(h, st, OpsPart(h, 255)))
    else if op == DW_LNS_FIXED_ADVANCE_PC then (U16(s, pos).1, AddAddress(st, U16(s, pos).0))
    else (pos + h.stdLengths[op], st)
  }

  /** One iteration: where the cursor goes, relative to the data, and the new state. */
  function Step(h: Header, t: Tables, s: seq<Byte>, base: Word, pos: nat, st: State): (r: Option<(int, State)>)
    requires Usable(h) && pos < |s|
  {
    var op := s[pos];
    if op == 0 then ExtendedStep(h, t, s, base, pos + 1, st)
    else if op < h.opcodeBase then Some(StandardStep(h, t, s, op, pos + 1, st))
    else Some((pos + 1, SpecialStep(h, t, op, st)))
  }

  /** How a run of the parser's loop ends: the data is used up, the failure return, the cursor has
      left the data backwards (what it reads there is unknown), or it is still going on. */
  datatype Ending = Finished | Failed | Outside | Unfinished

  /** Up to `n` iterations of the loop. */
  function Run(h: Header, t: Tables, s: seq<Byte>, base: Word, pos: int, st: State, n: nat): (Ending, State)
    requires Usable(h)
    decreases n
  {
    if pos >= |s| then (Finished, st)
    else if pos < 0 then (Outside, st)
    else if n == 0 then (Unfinished, st)
    else match Step(h, t, s, base, pos, st)
      case None => (Failed, st)
      case Some((pos', st')) => Run(h, t, s, base, pos', st', n - 1)
  }

  class LineNumbers {
    var entries: seq<Entry>

    method EmitRow(t: Tables, r: Regs)
      modifies this
      ensures entries == old(entries) + Emit(t, r)
    {
      if r.line <= 0 {
        return;
      }
      var path := BuildPath(t, r.file);
      if path.None? {
        return;
      }
      entries := entries + [Entry(r.address, r.line % TWO_TO_THE_32, r.column % TWO_TO_THE_32, path.value)];
    }

    /** The loop, watched for `limit` iterations. */
    method ParseLineProgram(unit: Cursor, h: Header, t: Tables, limit: nat) returns (ending: Ending)
      requires Usable(h)
      modifies this, unit
      ensures var (end, st) := Run(h, t, unit.bytes, unit.base, old(unit.pos), State(START, old(entries)), limit);
              ending == end && entries == st.rows
    {
      var regs := START;
      ghost var result := Run(h, t, unit.bytes, unit.base, unit.pos, State(START, entries), limit);
      var i := 0;
      while unit.pos < |unit.bytes| && i < limit
        invariant i <= limit
        invariant Run(h, t, unit.bytes, unit.base, unit.pos, State(regs, entries), limit - i) == result
        decreases limit - i
      {
        var ok, end;
        ok, end, regs := ParseOne(unit, h, t, regs);
        if !ok {
          return Failed;
        }
        if end < 0 {
          return Outside;
        }
        unit.pos := end;
        i := i + 1;
      }
      ending := if unit.pos < |unit.bytes| then Unfinished else Finished;
    }

    /** One iteration; the cursor is then at `end`, relative to the data. */
    method ParseOne(unit: Cursor, h: Header, t: Tables, r: Regs) returns (ok: bool, end: int, regs: Regs)
      requires Usable(h) && unit.pos < |unit.bytes|
      modifies this, unit
      ensures var step := Step(h, t, unit.bytes, unit.base, old(unit.pos), State(r, old(entries)));
              if step.None? then !ok && entries == old(entries) && regs == r
              else ok && step.value == (end, State(regs, entries))
    {
      regs := r;
      var op := unit.ReadU8();
      if op == 0 {
        end, regs := ParseExtended(unit, h, t, regs);
        ok := end <= |unit.bytes|;
        return;
      }
      if op < h.opcodeBase {
        regs := ParseStandard(unit, h, t, op, regs);
      } else {
        regs := regs.(line := regs.line + ToInt8(LinePart(h, op)));
        regs := regs.(address := Wrap(regs.address + OpsPart(h, op) * h.minInst));
        EmitRow(t, regs);
      }
      ok, end := true, unit.pos;
    }

    /** An extended opcode. The cursor is then to move to `end`, unless that is past the data. */
    method ParseExtended(unit: Cursor, h: Header, t: Tables, r: Regs) returns (end: int, regs: Regs)
      modifies this, unit
      ensures end == ExtendedEnd(unit.bytes, unit.base, old(unit.pos))
      ensures var step := ExtendedStep(h, t, unit.bytes, unit.base, old(unit.pos), State(r, old(entries)));
              if step.None? then end > |unit.bytes| && entries == old(entries) && regs == r
              else end <= |unit.bytes| && step.value == (end, State(regs, entries))
    {
      regs := r;
      var extLen := unit.ReadUleb128();
      end := Wrap(unit.base + unit.pos + extLen) - unit.base;
      if end > |unit.bytes| {
        return;
      }
      var sub := unit.ReadU8();
      if sub == DW_LNE_END_SEQUENCE {
        EmitRow(t, regs);
        regs := START;
      } else if sub == DW_LNE_SET_ADDRESS {
        Pow256Word();
        if h.addressSize == 8 {
          var address := unit.ReadU64();
          regs := regs.(address := address);
        } else if h.addressSize == 4 {
          var address := unit.ReadU32();
          regs := regs.(address := address);
        }
      }
    }

    method ParseStandard(unit: Cursor, h: Header, t: Tables, op: Byte, r: Regs) returns (regs: Regs)
      requires Usable(h) && 0 < op < h.opcodeBase && unit.pos <= |unit.bytes|
      modifies this, unit
      ensures (unit.pos, State(regs, entries)) ==
              StandardStep(h, t, unit.bytes, op, old(unit.pos), State(r, old(entries)))
    {
      regs := r;
      if op == DW_LNS_COPY {
        EmitRow(t, regs);
      } else if op == DW_LNS_ADVANCE_PC {
        var delta := unit.ReadUleb128();
        regs := regs.(address := Wrap(regs.address + delta * h.minInst));
      } else if op == DW_LNS_ADVANCE_LINE {
        var delta := unit.ReadSleb128();
        regs := regs.(line := regs.line + delta);
      } else if op == DW_LNS_SET_FILE {
        var file := unit.ReadUleb128();
        regs := regs.(file := file);
      } else if op == DW_LNS_SET_COLUMN {
        var column := unit.ReadUleb128();
        regs := regs.(column := column);
      } else if op == DW_LNS_CONST_ADD_PC {
        regs := regs.(address := Wrap(regs.address + OpsPart(h, 255) * h.minInst));
      } else if op == DW_LNS_FIXED_ADVANCE_PC {
        var delta := unit.ReadU16();
        regs := regs.(address := Wrap(regs.address + delta));
      } else if h.stdLengths[op] > 0 {
        unit.pos := unit.pos + h.stdLengths[op];
      }
    }
  }
}
