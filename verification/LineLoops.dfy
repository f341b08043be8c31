/** When the line-program parser moves forward, and when it never returns (src/lineno.c): an extended
    opcode's length is any 64-bit number, and adding it to the cursor may wrap. */
module LineLoops {
  import opened Basics
  import opened Leb128
  import opened LineProgram
  import opened IndexLists

  /** The extended opcode at `pos` sends the cursor back to itself or further: its end wraps around
      the address space, by at least the bytes of the opcode and its length. */
  predicate TurnsBack(s: seq<Byte>, base: Word, pos: nat) {
    pos < |s| && s[pos] == 0 &&
    var d := ReadDigits(s, pos + 1, MAX_LEB_BYTES);
    && base + d.pos + UlebValue(d) >= TWO_TO_THE_64
    && TWO_TO_THE_64 - UlebValue(d) >= d.pos - pos
  }

  /** An iteration that does not fail moves the cursor forward exactly when it does not turn back. */
  lemma StepAdvancesIff(h: Header, t: Tables, s: seq<Byte>, base: Word, pos: nat, st: State)
    requires Usable(h) && Mapped(s, base) && pos < |s| && Step(h, t, s, base, pos, st).Some?
    ensures Step(h, t, s, base, pos, st).value.0 > pos <==> !TurnsBack(s, base, pos)
  {
    if s[pos] == 0 {
      EndWraps(s, base, pos + 1);
    }
  }

  lemma EndWraps(s: seq<Byte>, base: Word, pos: nat)
    requires Mapped(s, base) && pos <= |s|
    ensures var d := ReadDigits(s, pos, MAX_LEB_BYTES);
            var end := base + d.pos + UlebValue(d);
            ExtendedEnd(s, base, pos) == (if end < TWO_TO_THE_64 then end else end - TWO_TO_THE_64) - base
  {
  }

  // ----- the path of the cursor -----

  /** Where the cursor goes next; it does not depend on the registers or the rows. */
  function Move(h: Header, s: seq<Byte>, base: Word, pos: nat): Option<int>
    requires Usable(h) && pos < |s|
  {
    match Step(h, Tables([], []), s, base, pos, State(START, []))
    case None => None
    case Some((pos', _)) => Some(pos')
  }

  lemma MoveIs(h: Header, t: Tables, s: seq<Byte>, base: Word, pos: nat, st: State)
    requires Usable(h) && pos < |s|
    ensures match Step(h, t, s, base, pos, st)
            case None => Move(h, s, base, pos).None?
            case Some((pos', _)) => Move(h, s, base, pos) == Some(pos')
  {
  }

  /** The cursor after `n` iterations, if the loop is still going on then. */
  function Trail(h: Header, s: seq<Byte>, base: Word, pos: int, n: nat): (r: Option<nat>)
    requires Usable(h)
    ensures r.Some? ==> r.value < |s|
    decreases n
  {
    if pos < 0 || pos >= |s| then None
    else if n == 0 then Some(pos)
    else match Move(h, s, base, pos)
      case None => None
      case Some(pos') => Trail(h, s, base, pos', n - 1)
  }

  lemma {:induction false} RunTrail(h: Header, t: Tables, s: seq<Byte>, base: Word, pos: int, st: State, n: nat)
    requires Usable(h)
    ensures Run(h, t, s, base, pos, st, n).0 == Unfinished <==> Trail(h, s, base, pos, n).Some?
    decreases n
  {
    if 0 <= pos < |s| && n > 0 {
      MoveIs(h, t, s, base, pos, st);
      match Step(h, t, s, base, pos, st)
      case None =>
      case Some((pos', st')) => RunTrail(h, t, s, base, pos', st', n - 1);
    }
  }

  lemma {:induction false} TrailAdd(h: Header, s: seq<Byte>, base: Word, pos: int, i: nat, j: nat)
    requires Usable(h)
    ensures Trail(h, s, base, pos, i + j) ==
            match Trail(h, s, base, pos, i)
            case None => None
            case Some(p) => Trail(h, s, base, p, j)
    decreases i
  {
    if 0 <= pos < |s| && i > 0 && Move(h, s, base, pos).Some? {
      TrailAdd(h, s, base, Move(h, s, base, pos).value, i - 1, j);
    }
  }

  /** A cursor that comes back to where it has been never stops coming back. */
  lemma {:induction false} TrailRepeats(h: Header, s: seq<Byte>, base: Word, pos: int, i: nat, j: nat, n: nat)
    requires Usable(h) && i < j
    requires Trail(h, s, base, pos, i).Some? && Trail(h, s, base, pos, i) == Trail(h, s, base, pos, j)
    ensures Trail(h, s, base, pos, n).Some?
    decreases n
  {
    hide Trail;
    if n <= j {
      TrailAdd(h, s, base, pos, n, j - n);
    } else {
      TrailAdd(h, s, base, pos, j, n - j);
      TrailAdd(h, s, base, pos, i, n - j);
      TrailRepeats(h, s, base, pos, i, j, n - j + i);
    }
  }

  /** Still going on after as many iterations as there are bytes, the cursor has been somewhere twice. */
  lemma TrailMeetsItself(h: Header, s: seq<Byte>, base: Word, pos: int) returns (i: nat, j: nat)
    requires Usable(h) && Trail(h, s, base, pos, |s|).Some?
    ensures i < j && Trail(h, s, base, pos, i).Some? && Trail(h, s, base, pos, i) == Trail(h, s, base, pos, j)
  {
    forall k: nat | k <= |s| ensures Trail(h, s, base, pos, k).Some? {
      TrailAdd(h, s, base, pos, k, |s| - k);
    }
    var visited := seq(|s| + 1, k requires 0 <= k <= |s| => Trail(h, s, base, pos, k).value);
    if Distinct(visited) {
      Pigeonhole(visited, |s|);
    }
    i, j :| 0 <= i < j < |visited| && visited[i] == visited[j];
  }

  /** The parser never returns exactly when it is still going on after as many iterations as there
      are bytes. */
  lemma NeverReturnsIff(h: Header, t: Tables, s: seq<Byte>, base: Word, pos: nat, st: State)
    requires Usable(h)
    ensures (forall n: nat :: Run(h, t, s, base, pos, st, n).0 == Unfinished) <==>
              Run(h, t, s, base, pos, st, |s|).0 == Unfinished
  {
    RunTrail(h, t, s, base, pos, st, |s|);
    if Run(h, t, s, base, pos, st, |s|).0 == Unfinished {
      var i, j := TrailMeetsItself(h, s, base, pos);
      forall n: nat ensures Run(h, t, s, base, pos, st, n).0 == Unfinished {
        TrailRepeats(h, s, base, pos, i, j, n);
        RunTrail(h, t, s, base, pos, st, n);
      }
    }
  }

  /** Data in which no extended opcode turns back is parsed to its end, or to a failure, within as
      many iterations as there are bytes. */
  lemma {:induction false} ForwardReturns(h: Header, t: Tables, s: seq<Byte>, base: Word, pos: nat, st: State, n: nat)
    requires Usable(h) && Mapped(s, base) && (forall p: nat :: !TurnsBack(s, base, p)) && n + pos >= |s|
    ensures Run(h, t, s, base, pos, st, n).0 == Finished || Run(h, t, s, base, pos, st, n).0 == Failed
    decreases n
  {
    if pos < |s| && Step(h, t, s, base, pos, st).Some? {
      var (pos', st') := Step(h, t, s, base, pos, st).value;
      StepAdvancesIff(h, t, s, base, pos, st);
      ForwardReturns(h, t, s, base, pos', st', n - 1);
    }
  }

  /** An extended opcode whose length is 2^64 - 11: eleven bytes that lead back to their start. */
  const LOOPING: seq<Byte> := [0x00, 0xf5, 0xff, 0xff, 0xff, 0xff, 0xff, 0xff, 0xff, 0xff, 0x01]

  lemma LoopingLength()
    ensures ReadDigits(LOOPING, 1, MAX_LEB_BYTES) == Digits(TWO_TO_THE_64 - 11, 10, 0x01, 11)
  {
    assert ReadDigits(LOOPING, 10, 1) == Digits(1, 1, 1, 11);
    assert ReadDigits(LOOPING, 9, 2) == Digits(127 + 128 * 1, 2, 1, 11);
    assert ReadDigits(LOOPING, 8, 3).total == 127 + 128 * ReadDigits(LOOPING, 9, 2).total;
    assert ReadDigits(LOOPING, 7, 4).total == 127 + 128 * ReadDigits(LOOPING, 8, 3).total;
    assert ReadDigits(LOOPING, 6, 5).total == 127 + 128 * ReadDigits(LOOPING, 7, 4).total;
    assert ReadDigits(LOOPING, 5, 6).total == 127 + 128 * ReadDigits(LOOPING, 6, 5).total;
    assert ReadDigits(LOOPING, 4, 7).total == 127 + 128 * ReadDigits(LOOPING, 5, 6).total;
    assert ReadDigits(LOOPING, 3, 8).total == 127 + 128 * ReadDigits(LOOPING, 4, 7).total;
    assert ReadDigits(LOOPING, 2, 9).total == 127 + 128 * ReadDigits(LOOPING, 3, 8).total;
    assert ReadDigits(LOOPING, 1, 10).total == 0x75 + 128 * ReadDigits(LOOPING, 2, 9).total;
  }

  /** An opcode whose length leads back to its own first byte changes nothing. */
  lemma BackToItself(h: Header, t: Tables, s: seq<Byte>, base: Word, st: State)
    requires Usable(h) && Mapped(s, base) && |s| == 11 && s[0] == 0
    requires var d := ReadDigits(s, 1, MAX_LEB_BYTES); d.total == TWO_TO_THE_64 - 11 && d.pos == 11
    ensures TurnsBack(s, base, 0) && Step(h, t, s, base, 0, st) == Some((0, st))
  {
    EndWraps(s, base, 1);
    assert U8(s, 11) == (0, 11);
  }

  lemma {:induction false} StaysThere(h: Header, t: Tables, s: seq<Byte>, base: Word, st: State, n: nat)
    requires Usable(h) && s != [] && Step(h, t, s, base, 0, st) == Some((0, st))
    ensures Run(h, t, s, base, 0, st, n) == (Unfinished, st)
    decreases n
  {
    if n > 0 {
      StaysThere(h, t, s, base, st, n - 1);
    }
  }

  /** Wherever they are loaded, the parser never returns from them. */
  lemma LoopingNeverReturns(h: Header, t: Tables, base: Word, st: State, n: nat)
    requires Usable(h) && Mapped(LOOPING, base)
    ensures TurnsBack(LOOPING, base, 0) && Run(h, t, LOOPING, base, 0, st, n) == (Unfinished, st)
  {
    LoopingLength();
    BackToItself(h, t, LOOPING, base, st);
    StaysThere(h, t, LOOPING, base, st, n);
  }
}
