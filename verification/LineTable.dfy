/** Searches over the (unsorted) line table (src/lineno.c). */
module LineTable {
  import opened Basics
  import opened LineProgram

  datatype Table = Table(entries: seq<Entry>, slide: Word)

  const ENTRY_REACH: nat := 128

  function Runtime(t: Table, i: nat): Word
    requires i < |t.entries|
  {
    Wrap(t.entries[i].address + t.slide)
  }

  // ----- by address -----

  /** The scan for the entry covering `pc`, over the first `n` entries. */
  function Lookup(t: Table, pc: Word, n: nat): (r: Option<nat>)
    requires n <= |t.entries|
    ensures r.Some? ==> r.value < n
  {
    if n == 0 then None
    else
      var best := Lookup(t, pc, n - 1);
      if Runtime(t, n - 1) <= pc && (best.None? || Runtime(t, n - 1) > Runtime(t, best.value))
      then Some(n - 1) else best
  }

  /** `i` is the first entry with the greatest runtime address not above `pc`. */
  ghost predicate Covers(t: Table, pc: Word, i: nat) {
    && i < |t.entries| && Runtime(t, i) <= pc
    && (forall j :: 0 <= j < |t.entries| && Runtime(t, j) <= pc ==> Runtime(t, j) <= Runtime(t, i))
    && (forall j :: 0 <= j < i && Runtime(t, j) <= pc ==> Runtime(t, j) < Runtime(t, i))
  }

  lemma {:induction false} LookupScan(t: Table, pc: Word, n: nat)
    requires n <= |t.entries|
    ensures match Lookup(t, pc, n)
            case None => forall j :: 0 <= j < n ==> Runtime(t, j) > pc
            case Some(i) =>
              && Runtime(t, i) <= pc
              && (forall j :: 0 <= j < n && Runtime(t, j) <= pc ==> Runtime(t, j) <= Runtime(t, i))
              && (forall j :: 0 <= j < i && Runtime(t, j) <= pc ==> Runtime(t, j) < Runtime(t, i))
  {
    hide Runtime;
    if n > 0 {
      LookupScan(t, pc, n - 1);
    }
  }

  /** The scan finds entry `i` exactly when `i` covers the pc. */
  lemma LookupIff(t: Table, pc: Word, i: nat)
    ensures Lookup(t, pc, |t.entries|) == Some(i) <==> Covers(t, pc, i)
  {
    LookupScan(t, pc, |t.entries|);
    var r := Lookup(t, pc, |t.entries|);
    if Covers(t, pc, i) && r.Some? {
      assert Runtime(t, r.value) == Runtime(t, i);
    }
  }

  method LookupPc(t: Table, pc: Word) returns (best: Option<nat>)
    ensures best == Lookup(t, pc, |t.entries|)
  {
    hide Runtime;
    best := None;
    for i := 0 to |t.entries|
      invariant best == Lookup(t, pc, i)
    {
      var addr := Runtime(t, i);
      if addr <= pc && (best.None? || addr > Runtime(t, best.value)) {
        best := Some(i);
      }
    }
  }

  /** Source position of a pc: the covering entry, if it has a line, reaches 128 bytes, and that
      reach does not wrap past the end of the address space. The loop that narrows the reach to the
      next entry never rejects anything, whatever the order of the table. */
  method EntryAtPc(t: Table, pc: Word) returns (r: Option<nat>)
    ensures r.Some? ==> Covers(t, pc, r.value)
    ensures forall i: nat :: Covers(t, pc, i) ==>
              (r == Some(i) <==>
                t.entries[i].line != 0 && Runtime(t, i) + ENTRY_REACH < TWO_TO_THE_64 && pc <= Runtime(t, i) + ENTRY_REACH)
  {
    var entry := LookupPc(t, pc);
    forall i: nat ensures entry == Some(i) <==> Covers(t, pc, i) {
      LookupIff(t, pc, i);
    }
    if entry.None? || t.entries[entry.value].line == 0 {
      return None;
    }
    var start := Runtime(t, entry.value);
    var maxPc: Word := Wrap(start + ENTRY_REACH);
    ghost var reach := maxPc;
    for i := 0 to |t.entries|
      invariant maxPc <= reach && (pc <= reach ==> pc <= maxPc)
    {
      var addr := Runtime(t, i);
      if addr > start && addr < maxPc {
        maxPc := addr - 1;
      }
    }
    r := if pc > maxPc then None else entry;
  }

  // ----- by line -----

  /** An empty filter matches every file, another matches a file containing it. */
  predicate FileMatches(file: string, filter: string) {
    filter == "" || exists k: nat :: k <= |file| && filter <= file[k..]
  }

  /** That is, it has something before the filter and something after it. */
  lemma FileMatchesIff(file: string, filter: string)
    ensures FileMatches(file, filter) <==> exists before, after :: file == before + filter + after
  {
    if FileMatches(file, filter) {
      var k: nat :| k <= |file| && (filter == "" || filter <= file[k..]);
      assert file == file[..k] + filter + file[k + |filter|..];
    }
    if exists before, after :: file == before + filter + after {
      var before, after :| file == before + filter + after;
      assert file[|before|..] == filter + after;
    }
  }

  predicate Matches(t: Table, filter: string, line: nat, i: nat)
    requires i < |t.entries|
  {
    t.entries[i].line == line && FileMatches(t.entries[i].file, filter)
  }

  function LineScan(t: Table, filter: string, line: nat, n: nat): (r: Option<nat>)
    requires n <= |t.entries|
    ensures r.Some? ==> r.value < n
  {
    if n == 0 then None
    else
      var best := LineScan(t, filter, line, n - 1);
      if Matches(t, filter, line, n - 1)
         && (best.None? || t.entries[n - 1].address < t.entries[best.value].address)
      then Some(n - 1) else best
  }

  /** The scan finds the first matching entry of least address. */
  lemma {:induction false} LineScanLeast(t: Table, filter: string, line: nat, n: nat)
    requires n <= |t.entries|
    ensures match LineScan(t, filter, line, n)
            case None => forall j :: 0 <= j < n ==> !Matches(t, filter, line, j)
            case Some(i) =>
              && Matches(t, filter, line, i)
              && (forall j :: 0 <= j < n && Matches(t, filter, line, j) ==> t.entries[i].address <= t.entries[j].address)
              && (forall j :: 0 <= j < i && Matches(t, filter, line, j) ==> t.entries[i].address < t.entries[j].address)
  {
    if n > 0 {
      LineScanLeast(t, filter, line, n - 1);
    }
  }

  method LookupLine(t: Table, filter: string, line: nat) returns (r: Option<nat>)
    ensures r == LineScan(t, filter, line, |t.entries|)
  {
    r := None;
    for i := 0 to |t.entries|
      invariant r == LineScan(t, filter, line, i)
    {
      if t.entries[i].line == line && FileMatches(t.entries[i].file, filter)
         && (r.None? || t.entries[i].address < t.entries[r.value].address) {
        r := Some(i);
      }
    }
  }

  /** The entry of least address on a line, provided one file only has that line. */
  method LookupLineUnique(t: Table, line: nat) returns (r: Option<nat>)
    ensures r == UniqueLine(t, line)
  {
    r := None;
    for i := 0 to |t.entries|
      invariant r == LineScan(t, "", line, i)
      invariant forall j :: 0 <= j < i && t.entries[j].line == line ==>
                  r.Some? && t.entries[j].file == t.entries[r.value].file
    {
      var e := t.entries[i];
      LineScanLeast(t, "", line, i);
      if e.line == line {
        if r.None? {
          r := Some(i);
        } else if t.entries[r.value].file != e.file {
          return None;
        } else if e.address < t.entries[r.value].address {
          r := Some(i);
        }
      }
    }
  }

  ghost function UniqueLine(t: Table, line: nat): (r: Option<nat>)
    ensures r.Some? ==> r.value < |t.entries|
  {
    if exists j, k :: 0 <= j < |t.entries| && 0 <= k < |t.entries|
        && t.entries[j].line == t.entries[k].line == line && t.entries[j].file != t.entries[k].file
    then None else LineScan(t, "", line, |t.entries|)
  }

  // ----- the next line of the same file -----

  predicate Follows(t: Table, pc: Word, current: nat, i: nat)
    requires i < |t.entries| && current < |t.entries|
  {
    && Runtime(t, i) > pc
    && t.entries[i].file == t.entries[current].file
    && t.entries[i].line != t.entries[current].line
  }

  function NextScan(t: Table, pc: Word, current: nat, n: nat): (r: Option<nat>)
    requires n <= |t.entries| && current < |t.entries|
    ensures r.Some? ==> r.value < n
  {
    if n == 0 then None
    else
      var best := NextScan(t, pc, current, n - 1);
      if Follows(t, pc, current, n - 1)
         && (best.None? || t.entries[n - 1].address < t.entries[best.value].address)
      then Some(n - 1) else best
  }

  function NextLine(t: Table, pc: Word): (r: Option<nat>)
    ensures r.Some? ==> r.value < |t.entries|
  {
    match Lookup(t, pc, |t.entries|)
    case None => None
    case Some(current) => NextScan(t, pc, current, |t.entries|)
  }

  /** The next line found is the first of the following entries of least address. */
  lemma {:induction false} NextScanLeast(t: Table, pc: Word, current: nat, n: nat)
    requires n <= |t.entries| && current < |t.entries|
    ensures match NextScan(t, pc, current, n)
            case None => forall j :: 0 <= j < n ==> !Follows(t, pc, current, j)
            case Some(i) =>
              && Follows(t, pc, current, i)
              && (forall j :: 0 <= j < n && Follows(t, pc, current, j) ==> t.entries[i].address <= t.entries[j].address)
              && (forall j :: 0 <= j < i && Follows(t, pc, current, j) ==> t.entries[i].address < t.entries[j].address)
  {
    hide Runtime;
    if n > 0 {
      NextScanLeast(t, pc, current, n - 1);
    }
  }

  method LookupNextLineAfterPc(t: Table, pc: Word) returns (next: Option<nat>)
    ensures next == NextLine(t, pc)
  {
    var current := LookupPc(t, pc);
    if current.None? {
      return None;
    }
    var c := current.value;
    next := None;
    for i := 0 to |t.entries|
      invariant next == NextScan(t, pc, c, i)
    {
      if Runtime(t, i) > pc
         && t.entries[i].file == t.entries[c].file && t.entries[i].line != t.entries[c].line
         && (next.None? || t.entries[i].address < t.entries[next.value].address) {
        next := Some(i);
      }
    }
  }
}
