/** The debuggee as the debugger sees it: code bytes, one thread, and a kernel
    that resumes it until something stops it. */
module Machine {
  import opened Basics

  type Addr = nat
  type Code = map<Addr, Byte>

  /** INT3, the byte a breakpoint writes on x86_64. */
  const TRAP_BYTE: Byte := 0xcc

  /** Thread registers and data memory. */
  datatype Core = Core(pc: Addr, regs: map<string, Word>, data: map<Addr, Byte>)

  /** An instruction set: how long the instruction at an address is, and what it
      does (None when it ends the process). */
  datatype Isa = Isa(length: (Code, Addr) -> nat, exec: (Code, Core) -> Option<Core>)

  ghost predicate Agree(c1: Code, c2: Code, lo: Addr, hi: Addr) {
    forall a :: lo <= a < hi ==> (a in c1 <==> a in c2) && (a in c1 ==> c1[a] == c2[a])
  }

  /** An instruction's effect depends on code memory only through its own bytes. */
  ghost predicate Local(isa: Isa) {
    forall c1: Code, c2: Code, core: Core ::
      Agree(c1, c2, core.pc, core.pc + isa.length(c1, core.pc)) ==>
        isa.exec(c1, core) == isa.exec(c2, core)
  }

  predicate IsTrap(code: Code, pc: Addr) {
    pc in code && code[pc] == TRAP_BYTE
  }

  datatype Outcome = Ran(core: Core) | Hit(core: Core) | Gone

  /** One instruction. A trap byte stops the thread just past itself. */
  function Execute(isa: Isa, code: Code, c: Core): Outcome {
    if IsTrap(code, c.pc) then Hit(c.(pc := c.pc + 1))
    else match isa.exec(code, c)
      case Some(c') => Ran(c')
      case None => Gone
  }

  /** The unpatched program, one instruction at a time. */
  function Next(isa: Isa, image: Code, c: Core): Option<Core> {
    match Execute(isa, image, c)
    case Ran(c') => Some(c')
    case Hit(c') => Some(c')
    case Gone => None
  }

  function Iter(isa: Isa, image: Code, c: Core, k: nat): Option<Core>
    decreases k
  {
    if k == 0 then Some(c)
    else match Next(isa, image, c)
      case None => None
      case Some(c') => Iter(isa, image, c', k - 1)
  }

  /** The program ends at its `k`-th instruction. */
  ghost predicate Ends(isa: Isa, image: Code, s: Core, k: nat) {
    k > 0 && Iter(isa, image, s, k - 1).Some? && Iter(isa, image, s, k) == None
  }

  /** A state the unpatched program gets to. */
  ghost predicate Reaches(isa: Isa, image: Code, s: Core, c: Core) {
    exists j: nat :: Iter(isa, image, s, j) == Some(c)
  }

  datatype Stop = Signalled(core: Core) | Trapped(core: Core) | Exited

  /** What `waitpid` reports after the kernel resumed the thread on `code`: a trap, an
      exit, or a signal (or completed single step) after `n` instructions. */
  function Resume(isa: Isa, code: Code, c: Core, n: nat): Stop
    decreases n
  {
    if n == 0 then Signalled(c)
    else match Execute(isa, code, c)
      case Ran(c') => Resume(isa, code, c', n - 1)
      case Hit(c') => Trapped(c')
      case Gone => Exited
  }

  /** The image with the trap byte at every address of `patched`. */
  function Patch(image: Code, patched: set<Addr>): Code {
    map a | a in image :: if a in patched then TRAP_BYTE else image[a]
  }

  /** No patched address lies strictly inside the instruction at the pc. */
  ghost predicate Aligned(isa: Isa, image: Code, patched: set<Addr>, c: Core) {
    forall a :: a in patched ==> !(c.pc < a < c.pc + isa.length(image, c.pc))
  }

  ghost predicate AlwaysAligned(isa: Isa, image: Code, patched: set<Addr>, s: Core) {
    forall j: nat :: Iter(isa, image, s, j).Some? ==> Aligned(isa, image, patched, Iter(isa, image, s, j).value)
  }

  /** Ordinary execution never arrives one byte past a breakpoint. */
  ghost predicate NeverJustAfter(isa: Isa, image: Code, addrs: set<Addr>, s: Core) {
    forall j: nat :: Iter(isa, image, s, j).Some? ==> Iter(isa, image, s, j).value.pc - 1 !in addrs
  }

  /** Execution arrives one byte past `t` only after having been at `t`. */
  ghost predicate OnlyThrough(isa: Isa, image: Code, t: Addr, s: Core) {
    forall j: nat :: Iter(isa, image, s, j).Some? && Iter(isa, image, s, j).value.pc == t + 1 ==>
      exists i: nat :: i < j && Iter(isa, image, s, i).Some? && Iter(isa, image, s, i).value.pc == t
  }

  lemma {:induction false} IterAdd(isa: Isa, image: Code, s: Core, i: nat, j: nat)
    requires Iter(isa, image, s, i).Some?
    ensures Iter(isa, image, s, i + j) == Iter(isa, image, Iter(isa, image, s, i).value, j)
    decreases i
  {
    if i > 0 {
      IterAdd(isa, image, Next(isa, image, s).value, i - 1, j);
    }
  }

  lemma EndsAdd(isa: Isa, image: Code, s: Core, i: nat, c: Core, k: nat)
    requires Iter(isa, image, s, i) == Some(c) && Ends(isa, image, c, k)
    ensures Ends(isa, image, s, i + k)
  {
    IterAdd(isa, image, s, i, k - 1);
    IterAdd(isa, image, s, i, k);
  }

  /** Off the patched addresses a patched instruction runs exactly as the original. */
  lemma PatchedExecute(isa: Isa, image: Code, patched: set<Addr>, c: Core)
    requires Local(isa) && Aligned(isa, image, patched, c) && c.pc !in patched
    ensures Execute(isa, Patch(image, patched), c) == Execute(isa, image, c)
  {
    var code := Patch(image, patched);
    if !IsTrap(image, c.pc) {
      assert Agree(image, code, c.pc, c.pc + isa.length(image, c.pc));
    }
  }

  /** Where a run of the patched program that took `k` bare steps has stopped. */
  ghost predicate Landed(isa: Isa, image: Code, patched: set<Addr>, s: Core, k: nat, stop: Stop) {
    match stop
    case Signalled(c) => Iter(isa, image, s, k) == Some(c)
    case Trapped(c) =>
      && Iter(isa, image, s, k).Some?
      && var b := Iter(isa, image, s, k).value;
      if b.pc in patched then c == b.(pc := b.pc + 1)
      else IsTrap(image, b.pc) && Some(c) == Next(isa, image, b) && Iter(isa, image, s, k + 1) == Some(c)
    case Exited => Iter(isa, image, s, k + 1) == None
  }

  /** Bare states 0 up to (not including) `k` exist and none of them sits on a patched address. */
  ghost predicate Unpatched(isa: Isa, image: Code, patched: set<Addr>, s: Core, k: nat) {
    forall j: nat :: j < k ==>
      Iter(isa, image, s, j).Some? && Iter(isa, image, s, j).value.pc !in patched
  }

  /** The kernel running patched code is the bare program, up to the first patched address reached. */
  lemma {:induction false} ResumeIsBare(isa: Isa, image: Code, patched: set<Addr>, s: Core, n: nat) returns (k: nat)
    requires Local(isa) && patched <= image.Keys
    requires AlwaysAligned(isa, image, patched, s)
    ensures Landed(isa, image, patched, s, k, Resume(isa, Patch(image, patched), s, n))
    ensures Unpatched(isa, image, patched, s, k)
    ensures k <= n && (Resume(isa, Patch(image, patched), s, n).Signalled? ==> k == n)
    ensures Resume(isa, Patch(image, patched), s, n).Exited? ==>
              Iter(isa, image, s, k).Some? && Iter(isa, image, s, k).value.pc !in patched
    ensures !Resume(isa, Patch(image, patched), s, n).Signalled? ==> k < n
    decreases n
  {
    assert Iter(isa, image, s, 0) == Some(s);
    k := 0;
    if n > 0 && s.pc !in patched {
      PatchedExecute(isa, image, patched, s);
      match Execute(isa, image, s)
      case Ran(s') =>
        AlignedAfter(isa, image, patched, s, 1);
        var k' := ResumeIsBare(isa, image, patched, s', n - 1);
        k := k' + 1;
        forall j: nat | j < k
          ensures Iter(isa, image, s, j).Some? && Iter(isa, image, s, j).value.pc !in patched
        {
          if j > 0 {
            assert Iter(isa, image, s, j) == Iter(isa, image, s', j - 1);
          }
        }
      case Hit(s') =>
        assert Iter(isa, image, s', 0) == Some(s');
      case Gone =>
    }
  }

  /** The run arrives at a patched address after `j` instructions, at none before, and executes no trap
      of its own on the way. */
  ghost predicate HitsFirst(isa: Isa, image: Code, patched: set<Addr>, s: Core, j: nat) {
    && Iter(isa, image, s, j).Some? && Iter(isa, image, s, j).value.pc in patched
    && forall i: nat :: i < j ==>
         && Iter(isa, image, s, i).Some?
         && Iter(isa, image, s, i).value.pc !in patched && !IsTrap(image, Iter(isa, image, s, i).value.pc)
  }

  /** A run allowed enough instructions stops on the first patched address it arrives at. */
  lemma {:induction false} HitStops(isa: Isa, image: Code, patched: set<Addr>, s: Core, n: nat, j: nat)
    requires Local(isa) && patched <= image.Keys && AlwaysAligned(isa, image, patched, s)
    requires HitsFirst(isa, image, patched, s, j) && j < n
    ensures var b := Iter(isa, image, s, j).value;
            Resume(isa, Patch(image, patched), s, n) == Trapped(b.(pc := b.pc + 1))
    decreases j
  {
    assert Iter(isa, image, s, 0) == Some(s);
    if j > 0 {
      assert s.pc !in patched && !IsTrap(image, s.pc);
      PatchedExecute(isa, image, patched, s);
      var s' := Next(isa, image, s).value;
      AlignedAfter(isa, image, patched, s, 1);
      forall i: nat | i < j - 1
        ensures Iter(isa, image, s', i).Some?
        ensures Iter(isa, image, s', i).value.pc !in patched && !IsTrap(image, Iter(isa, image, s', i).value.pc)
      {
        assert Iter(isa, image, s', i) == Iter(isa, image, s, i + 1);
      }
      HitStops(isa, image, patched, s', n - 1, j - 1);
    }
  }

  /** A run of `n` instructions goes to state `k`, meeting no patched address: `k` is its limit, or a trap
      instruction of the program's own has just been executed, the first. */
  ghost predicate RunsOut(isa: Isa, image: Code, patched: set<Addr>, s: Core, n: nat, k: nat) {
    && k <= n && Iter(isa, image, s, k).Some? && Unpatched(isa, image, patched, s, k)
    && (forall j: nat :: j + 1 < k ==> Iter(isa, image, s, j).Some? && !IsTrap(image, Iter(isa, image, s, j).value.pc))
    && (k == n || (k > 0 && Iter(isa, image, s, k - 1).Some? && IsTrap(image, Iter(isa, image, s, k - 1).value.pc)))
  }

  lemma RunsOutNext(isa: Isa, image: Code, patched: set<Addr>, s: Core, n: nat, s': Core, k: nat)
    requires n > 0 && s.pc !in patched && !IsTrap(image, s.pc) && Next(isa, image, s) == Some(s')
    requires RunsOut(isa, image, patched, s', n - 1, k)
    ensures RunsOut(isa, image, patched, s, n, k + 1)
  {
    assert Iter(isa, image, s, 0) == Some(s);
    assert forall j: nat :: j > 0 ==> Iter(isa, image, s, j) == Iter(isa, image, s', j - 1);
  }

  lemma HitsFirstNext(isa: Isa, image: Code, patched: set<Addr>, s: Core, s': Core, k: nat)
    requires s.pc !in patched && !IsTrap(image, s.pc) && Next(isa, image, s) == Some(s')
    requires HitsFirst(isa, image, patched, s', k)
    ensures HitsFirst(isa, image, patched, s, k + 1)
  {
    assert Iter(isa, image, s, 0) == Some(s);
    assert forall j: nat :: j > 0 ==> Iter(isa, image, s, j) == Iter(isa, image, s', j - 1);
  }

  /** Any other stop is at a bare state, with no patched address before it. */
  lemma {:induction false} StopHits(isa: Isa, image: Code, patched: set<Addr>, s: Core, n: nat) returns (j: nat)
    requires Local(isa) && patched <= image.Keys && AlwaysAligned(isa, image, patched, s)
    requires !Resume(isa, Patch(image, patched), s, n).Exited?
    ensures var stop := Resume(isa, Patch(image, patched), s, n);
            || (j < n && HitsFirst(isa, image, patched, s, j)
                && stop.core == Iter(isa, image, s, j).value.(pc := Iter(isa, image, s, j).value.pc + 1))
            || (Iter(isa, image, s, j) == Some(stop.core) && RunsOut(isa, image, patched, s, n, j))
    decreases n
  {
    assert Iter(isa, image, s, 0) == Some(s);
    j := 0;
    if n > 0 && s.pc !in patched {
      PatchedExecute(isa, image, patched, s);
      var s' := Next(isa, image, s).value;
      assert Iter(isa, image, s', 0) == Some(s') && Iter(isa, image, s, 1) == Some(s');
      if IsTrap(image, s.pc) {
        j := 1;
      } else {
        AlignedAfter(isa, image, patched, s, 1);
        var j' := StopHits(isa, image, patched, s', n - 1);
        j := j' + 1;
        if HitsFirst(isa, image, patched, s', j') {
          HitsFirstNext(isa, image, patched, s, s', j');
        }
        if RunsOut(isa, image, patched, s', n - 1, j') {
          RunsOutNext(isa, image, patched, s, n, s', j');
        }
      }
    }
  }

  /** The program ends within a run of `n` instructions, at the `k`-th, meeting no patched address and executing
      no trap of its own before. */
  ghost predicate EndsUnmet(isa: Isa, image: Code, patched: set<Addr>, s: Core, n: nat, k: nat) {
    && k <= n && Ends(isa, image, s, k) && Unpatched(isa, image, patched, s, k)
    && forall j: nat :: j < k ==> Iter(isa, image, s, j).Some? && !IsTrap(image, Iter(isa, image, s, j).value.pc)
  }

  lemma EndsUnmetNext(isa: Isa, image: Code, patched: set<Addr>, s: Core, n: nat, s': Core, k: nat)
    requires n > 0 && s.pc !in patched && !IsTrap(image, s.pc) && Next(isa, image, s) == Some(s')
    requires EndsUnmet(isa, image, patched, s', n - 1, k)
    ensures EndsUnmet(isa, image, patched, s, n, k + 1)
  {
    assert Iter(isa, image, s, 0) == Some(s);
    assert forall j: nat :: j > 0 ==> Iter(isa, image, s, j) == Iter(isa, image, s', j - 1);
  }

  /** A run that exits is of a program that ends in it. */
  lemma {:induction false} ExitEnds(isa: Isa, image: Code, patched: set<Addr>, s: Core, n: nat) returns (k: nat)
    requires Local(isa) && patched <= image.Keys && AlwaysAligned(isa, image, patched, s)
    requires Resume(isa, Patch(image, patched), s, n).Exited?
    ensures EndsUnmet(isa, image, patched, s, n, k)
    decreases n
  {
    assert Iter(isa, image, s, 0) == Some(s);
    PatchedExecute(isa, image, patched, s);
    match Execute(isa, image, s)
    case Ran(s') =>
      AlignedAfter(isa, image, patched, s, 1);
      var k' := ExitEnds(isa, image, patched, s', n - 1);
      EndsUnmetNext(isa, image, patched, s, n, s', k');
      k := k' + 1;
    case Gone => k := 1;
  }

  lemma AlignedAfter(isa: Isa, image: Code, patched: set<Addr>, s: Core, i: nat)
    requires AlwaysAligned(isa, image, patched, s) && Iter(isa, image, s, i).Some?
    ensures AlwaysAligned(isa, image, patched, Iter(isa, image, s, i).value)
  {
    var s' := Iter(isa, image, s, i).value;
    forall j: nat | Iter(isa, image, s', j).Some?
      ensures Aligned(isa, image, patched, Iter(isa, image, s', j).value)
    {
      IterAdd(isa, image, s, i, j);
    }
  }

  lemma NeverJustAfterAfter(isa: Isa, image: Code, addrs: set<Addr>, s: Core, i: nat)
    requires NeverJustAfter(isa, image, addrs, s) && Iter(isa, image, s, i).Some?
    ensures NeverJustAfter(isa, image, addrs, Iter(isa, image, s, i).value)
  {
    var s' := Iter(isa, image, s, i).value;
    forall j: nat | Iter(isa, image, s', j).Some?
      ensures Iter(isa, image, s', j).value.pc - 1 !in addrs
    {
      IterAdd(isa, image, s, i, j);
    }
  }
}
