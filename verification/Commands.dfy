/** The commands that resume the program: `continue`, `si`, `step`, `next`, and the run to
    the entry stop (src/debugger.c). Each leaves the thread at a state of the bare program. */
module Commands {
  import opened Basics
  import opened Machine
  import opened Breakpoints
  import opened WatchTable
  import opened Sessions

  datatype Result = NoProcess | Finished | Fatal | Unreported | Reported(report: Report)

  /** What `si` does to the thread, false hits included: None when the process ends. */
  ghost function SiEffect(isa: Isa, image: Code, bs: seq<Breakpoint>, s: Core): Option<Core> {
    if s.pc in EnabledAddrs(bs) then Some(s)
    else match Next(isa, image, s)
      case None => None
      case Some(s') => if s'.pc - 1 in Addrs(bs) then Some(s'.(pc := s'.pc - 1)) else Some(s')
  }

  // ----- continue -----

  lemma RanOutFrom(isa: Isa, image: Code, s: Core, k1: nat, s1: Core, k2: nat, n: nat)
    requires Iter(isa, image, s, k1) == Some(s1)
    ensures RanOut(isa, image, s1, k2, n) ==> RanOut(isa, image, s, k1 + k2, k1 + n)
  {
    if k2 > 0 {
      IterAdd(isa, image, s, k1, k2 - 1);
    }
  }

  /** A free run over the armed breakpoints. */
  lemma Freely(isa: Isa, image: Code, bs: seq<Breakpoint>, s: Core, n: nat) returns (k: nat)
    requires Local(isa) && EnabledAddrs(bs) <= image.Keys && AlwaysAligned(isa, image, Addrs(bs), s)
    ensures var stop := Resume(isa, Patch(image, EnabledAddrs(bs) + {}), s, n);
            if stop.Exited? then EndsUnmet(isa, image, EnabledAddrs(bs), s, n, k)
            else
              || (k < n && HitsFirst(isa, image, EnabledAddrs(bs), s, k)
                  && stop.core == Iter(isa, image, s, k).value.(pc := Iter(isa, image, s, k).value.pc + 1))
              || (RunsOut(isa, image, EnabledAddrs(bs), s, n, k) && Iter(isa, image, s, k) == Some(stop.core))
  {
    assert EnabledAddrs(bs) + {} == EnabledAddrs(bs);
    AlignedSubset(isa, image, Addrs(bs), EnabledAddrs(bs), s);
    if Resume(isa, Patch(image, EnabledAddrs(bs)), s, n).Exited? {
      k := ExitEnds(isa, image, EnabledAddrs(bs), s, n);
    } else {
      k := StopHits(isa, image, EnabledAddrs(bs), s, n);
    }
  }

  /** How many instructions `continue` steps before it lets the program run: off a disabled breakpoint, one. */
  ghost function Off(bs: seq<Breakpoint>, s: Core): nat {
    if DisabledAt(bs, s.pc) then 1 else 0
  }

  /** State `j` is on a breakpoint that is armed when the program gets there: not the one stepped off, unless
      it has been left since. */
  ghost predicate Meets(isa: Isa, image: Code, bs: seq<Breakpoint>, s: Core, j: nat) {
    && Iter(isa, image, s, j).Some? && Iter(isa, image, s, j).value.pc in Addrs(bs)
    && !(Iter(isa, image, s, j).value.pc == s.pc && DisabledAt(bs, s.pc) && (j == 0 || Iter(isa, image, s, 1).value.pc == s.pc))
  }

  /** Run freely, the program executes no trap of its own before state `k`. */
  ghost predicate NoOwnTrap(isa: Isa, image: Code, bs: seq<Breakpoint>, s: Core, k: nat) {
    forall j: nat :: Off(bs, s) <= j < k ==> Iter(isa, image, s, j).Some? && !IsTrap(image, Iter(isa, image, s, j).value.pc)
  }

  /** `continue`, allowed `n` instructions, comes to the armed breakpoint at state `k`. */
  ghost predicate ComesTo(isa: Isa, image: Code, bs: seq<Breakpoint>, s: Core, n: nat, k: nat) {
    && Off(bs, s) <= k < Off(bs, s) + n
    && NoneSkipped(isa, image, bs, s, k) && Meets(isa, image, bs, s, k) && NoOwnTrap(isa, image, bs, s, k)
  }

  /** It comes to none, and is stopped at state `k`: at its limit, or after the first trap instruction of the
      program's own. */
  ghost predicate GoesTo(isa: Isa, image: Code, bs: seq<Breakpoint>, s: Core, n: nat, k: nat) {
    && Off(bs, s) <= k <= Off(bs, s) + n && Iter(isa, image, s, k).Some?
    && NoneSkipped(isa, image, bs, s, k) && (k > 0 ==> NoOwnTrap(isa, image, bs, s, k - 1))
    && (k == Off(bs, s) + n || (k > Off(bs, s) && IsTrap(image, Iter(isa, image, s, k - 1).value.pc)))
  }

  /** Or the program ends first, at its `k`-th instruction. */
  ghost predicate EndsBy(isa: Isa, image: Code, bs: seq<Breakpoint>, s: Core, n: nat, k: nat) {
    k <= Off(bs, s) + n && Ends(isa, image, s, k) && NoneSkipped(isa, image, bs, s, k) && NoOwnTrap(isa, image, bs, s, k)
  }

  /** Only one of the three happens, at one state. */
  lemma GoesToOne(isa: Isa, image: Code, bs: seq<Breakpoint>, s: Core, n: nat, k: nat, m: nat)
    requires GoesTo(isa, image, bs, s, n, m)
    ensures GoesTo(isa, image, bs, s, n, k) ==> k == m
    ensures !ComesTo(isa, image, bs, s, n, k)
  {
  }

  lemma ComesToOnce(isa: Isa, image: Code, bs: seq<Breakpoint>, s: Core, n: nat, k: nat, m: nat)
    requires ComesTo(isa, image, bs, s, n, k) && ComesTo(isa, image, bs, s, n, m)
    ensures k == m
  {
  }

  lemma {:induction false} NoneAfter(isa: Isa, image: Code, s: Core, k: nat, m: nat)
    requires Iter(isa, image, s, k) == None && k <= m
    ensures Iter(isa, image, s, m) == None
    decreases k
  {
    if k > 0 {
      match Next(isa, image, s)
      case None =>
      case Some(s') => NoneAfter(isa, image, s', k - 1, m - 1);
    }
  }

  lemma EndsByOne(isa: Isa, image: Code, bs: seq<Breakpoint>, s: Core, n: nat, k: nat, m: nat)
    requires EndsBy(isa, image, bs, s, n, k)
    ensures EndsBy(isa, image, bs, s, n, m) ==> k == m
    ensures !GoesTo(isa, image, bs, s, n, m) && !ComesTo(isa, image, bs, s, n, m)
  {
    if k <= m {
      NoneAfter(isa, image, s, k, m);
      if k < m {
        NoneAfter(isa, image, s, k, m - 1);
      }
    }
  }

  /** A thread continued with table `bs` has stopped at `c`, for bare state `k`: there, or one past it, having
      trapped on its breakpoint. */
  ghost predicate Stops(isa: Isa, image: Code, bs: seq<Breakpoint>, s: Core, n: nat, k: nat, c: Core) {
    && Iter(isa, image, s, k).Some?
    && var b := Iter(isa, image, s, k).value;
    || (ComesTo(isa, image, bs, s, n, k) && c == b.(pc := b.pc + 1))
    || (GoesTo(isa, image, bs, s, n, k) && c == b)
  }

  lemma ArmedIsThere(bs: seq<Breakpoint>, bs1: seq<Breakpoint>, a: Addr)
    requires Addrs(bs1) == Addrs(bs)
    ensures a in EnabledAddrs(bs1) ==> a in Addrs(bs)
  {
    if a in EnabledAddrs(bs1) {
      assert a in Addrs(bs1);
    }
  }

  lemma ArmedMeets(isa: Isa, image: Code, bs: seq<Breakpoint>, s: Core, k1: nat, bs1: seq<Breakpoint>, s1: Core, k: nat)
    requires Iter(isa, image, s, k1) == Some(s1) && k1 == Off(bs, s) <= k && Distinct(bs)
    requires bs1 == if k1 == 0 then bs else Rearm(bs, s1.pc)
    requires Iter(isa, image, s, k).Some? && Iter(isa, image, s, k).value.pc in EnabledAddrs(bs1)
    ensures Meets(isa, image, bs, s, k)
  {
    hide Iter, EnabledAddrs;
    RearmFacts(bs, s1.pc);
    ArmedIsThere(bs, bs1, Iter(isa, image, s, k).value.pc);
    if DisabledAt(bs, s.pc) {
      UnarmedIffStays(bs, s, s1);
    }
  }

  // What became of a run after stepping off, told from before.

  lemma ComesFrom(isa: Isa, image: Code, bs: seq<Breakpoint>, s: Core, k1: nat, bs1: seq<Breakpoint>, s1: Core, n: nat, k2: nat)
    requires Iter(isa, image, s, k1) == Some(s1) && k1 == Off(bs, s) && Distinct(bs) && DisabledOnlyAt(bs, s.pc)
    requires bs1 == if k1 == 0 then bs else Rearm(bs, s1.pc)
    requires HitsFirst(isa, image, EnabledAddrs(bs1), s1, k2) && k2 < n
    ensures ComesTo(isa, image, bs, s, n, k1 + k2)
  {
    hide Iter, EnabledAddrs, Rearm, Addrs, DisabledOnlyAt;
    SkipsNone(isa, image, bs, s, k1, s1, bs1, k2);
    IterAdd(isa, image, s, k1, k2);
    ArmedMeets(isa, image, bs, s, k1, bs1, s1, k1 + k2);
    forall j: nat | k1 <= j ensures Iter(isa, image, s, j) == Iter(isa, image, s1, j - k1) {
      IterAdd(isa, image, s, k1, j - k1);
    }
  }

  lemma GoesFrom(isa: Isa, image: Code, bs: seq<Breakpoint>, s: Core, k1: nat, bs1: seq<Breakpoint>, s1: Core, n: nat, k2: nat)
    requires Iter(isa, image, s, k1) == Some(s1) && k1 == Off(bs, s) && Distinct(bs) && DisabledOnlyAt(bs, s.pc)
    requires bs1 == if k1 == 0 then bs else Rearm(bs, s1.pc)
    requires RunsOut(isa, image, EnabledAddrs(bs1), s1, n, k2)
    ensures GoesTo(isa, image, bs, s, n, k1 + k2)
  {
    hide Iter, EnabledAddrs, Rearm, Addrs, DisabledOnlyAt;
    SkipsNone(isa, image, bs, s, k1, s1, bs1, k2);
    IterAdd(isa, image, s, k1, k2);
    forall j: nat | k1 <= j ensures Iter(isa, image, s, j) == Iter(isa, image, s1, j - k1) {
      IterAdd(isa, image, s, k1, j - k1);
    }
  }

  lemma EndsFrom(isa: Isa, image: Code, bs: seq<Breakpoint>, s: Core, k1: nat, bs1: seq<Breakpoint>, s1: Core, n: nat, k2: nat)
    requires Iter(isa, image, s, k1) == Some(s1) && k1 == Off(bs, s) && Distinct(bs) && DisabledOnlyAt(bs, s.pc)
    requires bs1 == if k1 == 0 then bs else Rearm(bs, s1.pc)
    requires EndsUnmet(isa, image, EnabledAddrs(bs1), s1, n, k2)
    ensures EndsBy(isa, image, bs, s, n, k1 + k2)
  {
    hide Iter, EnabledAddrs, Rearm, Addrs, DisabledOnlyAt;
    SkipsNone(isa, image, bs, s, k1, s1, bs1, k2);
    EndsAdd(isa, image, s, k1, s1, k2);
    forall j: nat | k1 <= j ensures Iter(isa, image, s, j) == Iter(isa, image, s1, j - k1) {
      IterAdd(isa, image, s, k1, j - k1);
    }
  }

  /** A disabled breakpoint stepped off (or none), then a free run over the armed ones. */
  lemma FreeRun(isa: Isa, image: Code, bs: seq<Breakpoint>, s: Core, k1: nat, bs1: seq<Breakpoint>, s1: Core, n: nat) returns (k: nat)
    requires Local(isa) && EnabledAddrs(bs1) <= image.Keys && AlwaysAligned(isa, image, Addrs(bs), s)
    requires Iter(isa, image, s, k1) == Some(s1) && k1 == Off(bs, s)
    requires Distinct(bs) && DisabledOnlyAt(bs, s.pc)
    requires bs1 == if k1 == 0 then bs else Rearm(bs, s1.pc)
    ensures var stop := Resume(isa, Patch(image, EnabledAddrs(bs1) + {}), s1, n);
            if stop.Exited? then EndsBy(isa, image, bs, s, n, k)
            else
              && Iter(isa, image, s, k).Some? && Stops(isa, image, bs, s, n, k, stop.core)
              && (NotJustAfter(bs, Iter(isa, image, s, k).value, stop.core) ==>
                    Settled(Rearm(bs1, stop.core.pc), stop.core, Iter(isa, image, s, k).value))
  {
    hide Iter, EnabledAddrs;
    RearmFacts(bs, s1.pc);
    AlignedAfter(isa, image, Addrs(bs), s, k1);
    var k2 := Freely(isa, image, bs1, s1, n);
    k := k1 + k2;
    var stop := Resume(isa, Patch(image, EnabledAddrs(bs1) + {}), s1, n);
    if stop.Exited? {
      EndsFrom(isa, image, bs, s, k1, bs1, s1, n, k2);
    } else {
      IterAdd(isa, image, s, k1, k2);
      if RunsOut(isa, image, EnabledAddrs(bs1), s1, n, k2) && Iter(isa, image, s1, k2) == Some(stop.core) {
        GoesFrom(isa, image, bs, s, k1, bs1, s1, n, k2);
      } else {
        ComesFrom(isa, image, bs, s, k1, bs1, s1, n, k2);
      }
      var b := Iter(isa, image, s, k).value;
      if NotJustAfter(bs, b, stop.core) {
        RearmNotJustAfter(bs, s1.pc, b, stop.core);
        Settle(isa, image, bs1, s1, k2, stop.core);
      }
    }
  }

  /** The breakpoints of a thread that was resumed with table `bs` and has stopped at `pc`: all armed again, but
      for one it is still on. */
  ghost function Rested(isa: Isa, image: Code, bs: seq<Breakpoint>, s: Core, pc: Addr): seq<Breakpoint> {
    Rearm(if Off(bs, s) == 1 && Iter(isa, image, s, 1).Some? then Rearm(bs, Iter(isa, image, s, 1).value.pc) else bs, pc)
  }

  /** What is reported of a stop at `c`, the table then being `table`: a breakpoint hit exactly for a stop one
      past a breakpoint, and else the first watched value that has changed, from then on remembered. Refused, a
      report changes no watched value. */
  ghost predicate Told(r: Result, table: seq<Breakpoint>, c: Core, core: Core, bs': seq<Breakpoint>,
                       ws: seq<Watchpoint>, ws': seq<Watchpoint>) {
    match r
    case Reported(report) =>
      && (report.BreakpointHit? <==> c.pc - 1 in Addrs(table))
      && core == (if report.BreakpointHit? then c.(pc := c.pc - 1) else c)
      && Explains(report, bs', core, ws, ws') && bs' == Disarmed(table, report)
    case Unreported => core == c && ws' == ws && (c.pc - 1 !in Addrs(table) ==> bs' == table)
    case _ => ws' == ws
  }

  /** What `continue` ends with, from bare state `s` with tables `bs` and `ws` (`c` is where the thread stopped,
      and it is at `core` with tables `bs'` and `ws'` at the prompt): a breakpoint trapped on is taken back
      exactly; a stop one past a breakpoint that was not trapped on is taken back all the same. Refused, the
      report moves nothing. */
  ghost predicate Continued(isa: Isa, image: Code, bs: seq<Breakpoint>, ws: seq<Watchpoint>, s: Core, n: nat, r: Result,
                            k: nat, c: Core, core: Core, bs': seq<Breakpoint>, ws': seq<Watchpoint>) {
    && Told(r, Rested(isa, image, bs, s, c.pc), c, core, bs', ws, ws')
    && match r
       case Reported(_) => Stops(isa, image, bs, s, n, k, c)
       case Unreported => Stops(isa, image, bs, s, n, k, c)
       case Finished => EndsBy(isa, image, bs, s, n, k)
       case _ => true
  }

  lemma RestedIs(isa: Isa, image: Code, bs: seq<Breakpoint>, s: Core, k1: nat, bs1: seq<Breakpoint>, s1: Core, pc: Addr)
    requires k1 == Off(bs, s) && Iter(isa, image, s, k1) == Some(s1) && bs1 == if k1 == 0 then bs else Rearm(bs, s1.pc)
    ensures Rested(isa, image, bs, s, pc) == Rearm(bs1, pc)
  {
  }

  lemma RestedAddrs(isa: Isa, image: Code, bs: seq<Breakpoint>, s: Core, pc: Addr)
    ensures Addrs(Rested(isa, image, bs, s, pc)) == Addrs(bs)
  {
    if Iter(isa, image, s, 1).Some? {
      RearmFacts(bs, Iter(isa, image, s, 1).value.pc);
      RearmFacts(Rearm(bs, Iter(isa, image, s, 1).value.pc), pc);
    }
    RearmFacts(bs, pc);
  }

  lemma TrappingAfterRearm(bs: seq<Breakpoint>, pc: Addr)
    ensures Trapping(Rearm(bs, pc), pc) <==> pc - 1 in Addrs(bs)
  {
    var bs' := Rearm(bs, pc);
    if pc - 1 in Addrs(bs) {
      var i :| 0 <= i < |bs| && bs[i].addr == pc - 1;
      assert bs'[i] in bs' && MatchesPc(pc, bs'[i]);
    }
    if Trapping(bs', pc) {
      var i :| 0 <= i < |bs'| && MatchesPc(pc, bs'[i]);
      assert bs[i] in bs;
    }
  }

  lemma ComesToOne(isa: Isa, image: Code, bs: seq<Breakpoint>, s: Core, n: nat, k: nat)
    requires ComesTo(isa, image, bs, s, n, k)
    ensures Iter(isa, image, s, k).value.pc in Addrs(bs)
  {
  }

  /** `continue`, coming to no armed breakpoint, would be stopped one past one. */
  ghost predicate StopsJustPast(isa: Isa, image: Code, bs: seq<Breakpoint>, s: Core, n: nat) {
    exists m: nat :: GoesTo(isa, image, bs, s, n, m) && Iter(isa, image, s, m).value.pc - 1 in Addrs(bs)
  }

  /** The prompt after `continue` is at the state where the program stopped unless, allowed what it was, the
      program comes to no armed breakpoint and stops one past one; after a report that was refused, exactly
      when it comes to none. */
  lemma ContinueExactIff(isa: Isa, image: Code, bs: seq<Breakpoint>, ws: seq<Watchpoint>, s: Core, n: nat, r: Result, k: nat,
                         c: Core, core: Core, bs': seq<Breakpoint>, ws': seq<Watchpoint>)
    requires Continued(isa, image, bs, ws, s, n, r, k, c, core, bs', ws')
    ensures r.Reported? ==> (Iter(isa, image, s, k) == Some(core) <==> !StopsJustPast(isa, image, bs, s, n))
    ensures r.Unreported? ==>
              (Iter(isa, image, s, k) == Some(core) <==> exists m: nat :: GoesTo(isa, image, bs, s, n, m))
  {
    hide Iter, GoesTo, ComesTo, Rested;
    RestedAddrs(isa, image, bs, s, c.pc);
    if r.Reported? || r.Unreported? {
      var b := Iter(isa, image, s, k).value;
      forall m: nat | GoesTo(isa, image, bs, s, n, m) ensures m == k && c == b {
        GoesToOne(isa, image, bs, s, n, k, m);
      }
      if ComesTo(isa, image, bs, s, n, k) && c == b.(pc := b.pc + 1) {
        ComesToOne(isa, image, bs, s, n, k);
      }
    }
  }

  /** With nothing to mistake for a hit, a reported stop is at the state where the program stopped, and so is one
      left unreported that is one past no breakpoint. */
  lemma ContinuedBare(isa: Isa, image: Code, bs: seq<Breakpoint>, ws: seq<Watchpoint>, s: Core, n: nat, r: Result, k: nat,
                      c: Core, core: Core, bs': seq<Breakpoint>, ws': seq<Watchpoint>)
    requires Continued(isa, image, bs, ws, s, n, r, k, c, core, bs', ws') && (r.Reported? || r.Unreported?)
    requires NotJustAfter(bs, Iter(isa, image, s, k).value, c)
    ensures ComesTo(isa, image, bs, s, n, k) || GoesTo(isa, image, bs, s, n, k)
    ensures r.Reported? || core.pc - 1 !in Addrs(bs) ==> Iter(isa, image, s, k) == Some(core)
  {
    hide Iter, GoesTo, ComesTo, Rested;
    RestedAddrs(isa, image, bs, s, c.pc);
    if ComesTo(isa, image, bs, s, n, k) {
      ComesToOne(isa, image, bs, s, n, k);
    }
  }

  /** A thread whose trap was not reported is at no state of the program. */
  lemma UnreportedIsLostIff(isa: Isa, image: Code, bs: seq<Breakpoint>, s: Core, n: nat, k: nat, c: Core)
    requires Stops(isa, image, bs, s, n, k, c) && NeverJustAfter(isa, image, Addrs(bs), s)
    ensures Reaches(isa, image, s, c) <==> c.pc - 1 !in Addrs(bs)
  {
    if c.pc - 1 in Addrs(bs) {
      forall j: nat ensures Iter(isa, image, s, j) != Some(c) {
      }
    } else {
      assert Iter(isa, image, s, k) == Some(c);
    }
  }

  /** The prompt has been reached in good order: nothing was mistaken for a hit, and no trap left unreported. */
  ghost predicate Clean(bs: seq<Breakpoint>, b: Core, c: Core, r: Result) {
    NotJustAfter(bs, b, c) && (r.Reported? || (r.Unreported? && c.pc - 1 !in Addrs(bs)))
  }

  /** The report that ends a command: a stop one past a breakpoint is taken back onto it. Refused, it moves
      nothing. */
  method Conclude(d: Session, ghost bs: seq<Breakpoint>, ghost b: Core) returns (r: Result)
    requires d.Ok({}) && d.Bps() == Rearm(bs, d.core.pc)
    modifies d`requests, d`code, d`core, d`watches, d.table
    ensures d.Ok({}) && SameBreaks(old(d.Bps()), d.Bps())
    ensures (r.Reported? || r.Unreported?) && Answered(d.grants, old(d.requests), d.requests, r.Reported?)
    ensures Told(r, old(d.Bps()), old(d.core), d.core, d.Bps(), old(d.watches), d.watches)
    ensures Settled(old(d.Bps()), old(d.core), b) && (r.Reported? || old(d.core.pc) - 1 !in Addrs(bs)) ==>
              d.core == b && DisabledOnlyAt(d.Bps(), d.core.pc)
  {
    hide Overlay, DisabledOnlyAt, Rearm;
    TrappingAfterRearm(bs, d.core.pc);
    RearmFacts(bs, d.core.pc);
    var rc, report := d.ReportStop(b);
    r := if rc == 0 then Reported(report) else Unreported;
  }

  /** The wait and report that end a command; `k1` bare steps of it are already done. */
  method AwaitStop(d: Session, budget: nat, ghost bs: seq<Breakpoint>, ghost s: Core, ghost k1: nat)
    returns (r: Result, ghost k: nat, ghost c: Core)
    requires d.Ok({}) && d.request == Continue && d.state == Running
    requires AlwaysAligned(d.isa, d.image, Addrs(bs), s) && Iter(d.isa, d.image, s, k1) == Some(d.core)
    requires Distinct(bs) && DisabledOnlyAt(bs, s.pc) && k1 == Off(bs, s)
    requires d.Bps() == if k1 == 0 then bs else Rearm(bs, d.core.pc)
    modifies d`requests, d`code, d`core, d`state, d`watches, d.table
    ensures !r.NoProcess? && d.Ok({}) && SameBreaks(old(d.Bps()), d.Bps())
    ensures Answered(d.grants, old(d.requests), d.requests, r.Reported? || r.Finished?)
    ensures d.state == Idle <==> r.Finished?
    ensures Continued(d.isa, d.image, bs, old(d.watches), s, budget, r, k, c, d.core, d.Bps(), d.watches)
    ensures (r.Reported? || r.Unreported?) && Clean(bs, Iter(d.isa, d.image, s, k).value, c, r) ==> d.AtPrompt()
  {
    hide Overlay, AlwaysAligned, NoneSkipped, Stops, Settled, NotJustAfter, DisabledAt;
    hide DisabledOnlyAt, Resume, Ends, Off, EndsBy, Addrs;
    ghost var bs1, s1 := d.Bps(), d.core;
    RearmFacts(bs, s1.pc);
    OverlayFacts(d.image, bs1, {}, d.code);
    ghost var stop;
    var rc;
    rc, stop := d.Wait(budget, {});
    k, c := k1, d.core;
    if rc == -1 {
      return Fatal, k, c;
    }
    k := FreeRun(d.isa, d.image, bs, s, k1, bs1, s1, budget);
    if rc != 0 {
      return Finished, k, c;
    }
    RestedIs(d.isa, d.image, bs, s, k1, bs1, s1, c.pc);
    r := Conclude(d, bs1, Iter(d.isa, d.image, s, k).value);
  }

  /** `continue`. It is fatal when a request is refused, or when the process ends while a breakpoint is
      stepped off. */
  method ContinueCommand(d: Session, budget: nat) returns (r: Result, ghost k: nat, ghost c: Core)
    requires d.state == Idle || (d.AtPrompt() && AlwaysAligned(d.isa, d.image, Addrs(d.Bps()), d.core))
    modifies d`requests, d`code, d`core, d`state, d`request, d`watches, d.table
    ensures r.NoProcess? <==> old(d.state) == Idle
    ensures !r.NoProcess? ==> d.Ok({}) && SameBreaks(old(d.Bps()), d.Bps())
    ensures Answered(d.grants, old(d.requests), d.requests, !r.Unreported? && !(r.Fatal? && d.state != Idle))
    ensures !r.NoProcess? ==> (d.state == Idle <==> r.Finished? || (r.Fatal? && Answered(d.grants, old(d.requests), d.requests, true)))
    ensures r.Fatal? && d.state == Idle ==>
              Off(old(d.Bps()), old(d.core)) == 1 && Ends(d.isa, d.image, old(d.core), 1)
    ensures !r.NoProcess? ==>
              Continued(d.isa, d.image, old(d.Bps()), old(d.watches), old(d.core), budget, r, k, c, d.core, d.Bps(), d.watches)
    ensures (r.Reported? || r.Unreported?) && Clean(old(d.Bps()), Iter(d.isa, d.image, old(d.core), k).value, c, r) ==>
              d.AtPrompt()
  {
    k, c := 0, d.core;
    if d.state == Idle {
      return NoProcess, 0, c;
    }
    ghost var bs, s := d.Bps(), d.core;
    assert Addrs(bs) + {} == Addrs(bs);
    var rc;
    rc, k := d.ContinueProcess({});
    SameAddrs(bs, d.Bps());
    if rc != 0 {
      return Fatal, k, c;
    }
    ghost var bs1 := d.Bps();
    r, k, c := AwaitStop(d, budget, bs, s, k);
    SameAddrs(bs1, d.Bps());
  }

  /** A run that stepped off its breakpoint passes it again exactly when the instruction there leaves the pc
      in place. */
  lemma PassedAgainIff(isa: Isa, image: Code, bs: seq<Breakpoint>, s: Core, k: nat, n: nat, c: Core)
    requires Stops(isa, image, bs, s, n, k, c) && DisabledAt(bs, s.pc) && k > 1
    ensures PassedAgain(isa, image, s, k) <==> Iter(isa, image, s, 1).value.pc == s.pc
  {
    assert s.pc in Addrs(bs);
  }

  // ----- si -----

  /** The raw stop after one PT_STEP: one past an armed breakpoint, or the bare successor. */
  ghost function Stepped(isa: Isa, image: Code, bs: seq<Breakpoint>, s: Core): Option<Core> {
    if s.pc in EnabledAddrs(bs) then Some(s.(pc := s.pc + 1)) else Next(isa, image, s)
  }

  lemma StepResumes(isa: Isa, image: Code, bs: seq<Breakpoint>, code: Code, s: Core)
    requires Local(isa) && Overlay(image, bs, {}, code) && Aligned(isa, image, EnabledAddrs(bs), s)
    ensures var stop := Resume(isa, code, s, 1);
            Stepped(isa, image, bs, s) == if stop.Exited? then None else Some(stop.core)
  {
    assert EnabledAddrs(bs) + {} == EnabledAddrs(bs);
    if s.pc !in EnabledAddrs(bs) {
      PatchedExecute(isa, image, EnabledAddrs(bs), s);
    }
    assert forall c: Core :: Resume(isa, code, c, 0) == Signalled(c);
  }

  /** PT_STEP and the wait for it. */
  method StepOnce(d: Session) returns (rc: int)
    requires d.AtPrompt() && Aligned(d.isa, d.image, EnabledAddrs(d.Bps()), d.core)
    modifies d`requests, d`code, d`core, d`state, d`request, d.table
    ensures d.Ok({}) && SameBreaks(old(d.Bps()), d.Bps())
    ensures rc == 0 || rc == 1 || rc == -1
    ensures Answered(d.grants, old(d.requests), d.requests, rc >= 0)
    ensures rc == 0 ==> d.state == Stopped && Stepped(d.isa, d.image, old(d.Bps()), old(d.core)) == Some(d.core)
    ensures rc == 0 ==> d.Bps() == Rearm(old(d.Bps()), d.core.pc)
    ensures d.state == Idle <==> rc == 1
    ensures rc == 1 ==> Stepped(d.isa, d.image, old(d.Bps()), old(d.core)) == None
  {
    rc := d.SingleStep();
    if rc != 0 { return -1; }
    StepResumes(d.isa, d.image, d.Bps(), d.code, d.core);
    ghost var stop;
    rc, stop := d.Wait(0, {});
  }

  /** A single step settles at the bare state it started from (a trap) or at the next one. */
  lemma StepSettles(isa: Isa, image: Code, bs: seq<Breakpoint>, s: Core, c: Core)
    requires DisabledOnlyAt(bs, s.pc) && NeverJustAfter(isa, image, Addrs(bs), s)
    requires Stepped(isa, image, bs, s) == Some(c)
    ensures var bs' := Rearm(bs, c.pc);
            && DisabledOnlyAt(bs', c.pc)
            && Settled(bs', c, if s.pc in EnabledAddrs(bs) then s else c)
            && (Trapping(bs', c.pc) <==> s.pc in EnabledAddrs(bs))
    ensures s.pc !in EnabledAddrs(bs) ==> Iter(isa, image, s, 1) == Some(c)
  {
    assert Iter(isa, image, s, 0) == Some(s) && Iter(isa, image, c, 0) == Some(c);
    var k := if s.pc in EnabledAddrs(bs) then 0 else 1;
    RearmFacts(bs, c.pc);
    TrappingAfterRearm(bs, c.pc);
    NeverIsNot(isa, image, bs, s, k, c);
    Settle(isa, image, bs, s, k, c);
  }

  /** Whether the step was reported or not, the thread is where `si` is said to leave it. */
  lemma SiLands(isa: Isa, image: Code, bs: seq<Breakpoint>, s: Core, c: Core)
    ensures Stepped(isa, image, bs, s) == Some(c) ==>
              SiEffect(isa, image, bs, s) == Some(if c.pc - 1 in Addrs(bs) then c.(pc := c.pc - 1) else c)
    ensures Stepped(isa, image, bs, s) == None ==> SiEffect(isa, image, bs, s) == None
  {
    assert forall a :: a in EnabledAddrs(bs) ==> a in Addrs(bs);
  }

  /** What is reported of a single step from `s`. */
  ghost predicate SiTold(isa: Isa, image: Code, r: Result, bs: seq<Breakpoint>, s: Core, core: Core, bs': seq<Breakpoint>,
                         ws: seq<Watchpoint>, ws': seq<Watchpoint>) {
    if r.Reported? || r.Unreported? then
      && Stepped(isa, image, bs, s).Some?
      && var c := Stepped(isa, image, bs, s).value;
      Told(r, Rearm(bs, c.pc), c, core, bs', ws, ws')
    else ws' == ws
  }

  /** One instruction, and the report after it. */
  method StepAndReport(d: Session) returns (r: Result)
    requires d.AtPrompt() && Aligned(d.isa, d.image, EnabledAddrs(d.Bps()), d.core)
    modifies d`requests, d`code, d`core, d`state, d`request, d`watches, d.table
    ensures !r.NoProcess? && d.Ok({}) && SameBreaks(old(d.Bps()), d.Bps())
    ensures Answered(d.grants, old(d.requests), d.requests, !r.Unreported? && !r.Fatal?)
    ensures d.state == Idle <==> r.Finished?
    ensures r.Finished? ==> Stepped(d.isa, d.image, old(d.Bps()), old(d.core)) == None
    ensures SiTold(d.isa, d.image, r, old(d.Bps()), old(d.core), d.core, d.Bps(), old(d.watches), d.watches)
    ensures (r.Reported? || (r.Unreported? && old(d.core.pc) !in EnabledAddrs(old(d.Bps())))) && old(d.Debuggable()) ==>
              d.AtPrompt()
  {
    hide Overlay, NeverJustAfter, AlwaysAligned, Aligned, Settled, Stepped, EnabledAddrs, Explains, Rearm;
    ghost var bs, s := d.Bps(), d.core;
    var rc := StepOnce(d);
    if rc == -1 {
      return Fatal;
    }
    if rc != 0 {
      return Finished;
    }
    ghost var b := if s.pc in EnabledAddrs(bs) then s else d.core;
    TrappingAfterRearm(bs, d.core.pc);
    if NeverJustAfter(d.isa, d.image, Addrs(bs), s) {
      StepSettles(d.isa, d.image, bs, s, d.core);
    }
    r := Conclude(d, bs, b);
  }

  /** Where a step leaves the thread, from what is told of it. */
  lemma SiToldLands(isa: Isa, image: Code, r: Result, bs: seq<Breakpoint>, s: Core, core: Core, bs': seq<Breakpoint>,
                    ws: seq<Watchpoint>, ws': seq<Watchpoint>)
    requires SiTold(isa, image, r, bs, s, core, bs', ws, ws')
    ensures r.Reported? ==> SiEffect(isa, image, bs, s) == Some(core)
    ensures r.Unreported? ==> Stepped(isa, image, bs, s) == Some(core)
  {
    hide SiEffect, Stepped, Rearm;
    if r.Reported? || r.Unreported? {
      var c := Stepped(isa, image, bs, s).value;
      RearmFacts(bs, c.pc);
      SiLands(isa, image, bs, s, c);
    }
  }

  /** `si`. With no assumption on one-byte instructions, the thread ends exactly at `SiEffect`; when the
      report is refused it stays where the step left it, which is one past the breakpoint it trapped on. */
  method SiCommand(d: Session) returns (r: Result)
    requires d.state == Idle || (d.AtPrompt() && Aligned(d.isa, d.image, EnabledAddrs(d.Bps()), d.core))
    modifies d`requests, d`code, d`core, d`state, d`request, d`watches, d.table
    ensures r.NoProcess? <==> old(d.state) == Idle
    ensures !r.NoProcess? ==> d.Ok({}) && SameBreaks(old(d.Bps()), d.Bps())
    ensures Answered(d.grants, old(d.requests), d.requests, !r.Unreported? && !r.Fatal?)
    ensures d.state == Idle <==> r.NoProcess? || r.Finished?
    ensures r.Reported? ==> SiEffect(d.isa, d.image, old(d.Bps()), old(d.core)) == Some(d.core)
    ensures r.Unreported? ==> Stepped(d.isa, d.image, old(d.Bps()), old(d.core)) == Some(d.core)
    ensures !r.NoProcess? ==>
              SiTold(d.isa, d.image, r, old(d.Bps()), old(d.core), d.core, d.Bps(), old(d.watches), d.watches)
    ensures r.Finished? ==> SiEffect(d.isa, d.image, old(d.Bps()), old(d.core)) == None
    ensures (r.Reported? || (r.Unreported? && old(d.core.pc) !in EnabledAddrs(old(d.Bps())))) ==>
              old(d.state != Idle && d.Debuggable()) ==> d.AtPrompt()
  {
    hide Overlay, NeverJustAfter, AlwaysAligned, Aligned, Stepped, SiEffect, EnabledAddrs, SiTold;
    if d.state == Idle {
      return NoProcess;
    }
    ghost var bs, s, ws := d.Bps(), d.core, d.watches;
    r := StepAndReport(d);
    SiLands(d.isa, d.image, bs, s, s);
    SiToldLands(d.isa, d.image, r, bs, s, d.core, d.Bps(), ws, d.watches);
  }

  /** From an address without an armed breakpoint, `si` executes exactly one instruction if and
      only if that instruction does not end one byte past a breakpoint. */
  lemma SiExactIff(isa: Isa, image: Code, bs: seq<Breakpoint>, s: Core)
    requires s.pc !in EnabledAddrs(bs)
    ensures SiEffect(isa, image, bs, s) == Next(isa, image, s) <==>
              (Next(isa, image, s).Some? ==> Next(isa, image, s).value.pc - 1 !in Addrs(bs))
  {
    match Next(isa, image, s)
    case None =>
    case Some(s') => assert s'.pc - 1 in Addrs(bs) ==> s'.(pc := s'.pc - 1).pc != s'.pc;
  }

  // A program of two-byte instructions, with a breakpoint on the second.

  const STRIDE_ISA := Isa((_, _) => 2, (_, c: Core) => Some(c.(pc := c.pc + 2)))

  const STRIDE_IMAGE: Code := map[0 := 0x90, 1 := 0, 2 := 0x90, 3 := 0, 4 := 0x90, 5 := 0]

  const STRIDE_BREAKS := [Breakpoint(2, 0x90, true, "0x2")]

  lemma {:induction false} StrideIs(c: Core, k: nat)
    requires c.pc % 2 == 0
    ensures Iter(STRIDE_ISA, STRIDE_IMAGE, c, k).Some?
    ensures Iter(STRIDE_ISA, STRIDE_IMAGE, c, k).value.pc == c.pc + 2 * k
    decreases k
  {
    if k > 0 {
      StrideIs(c.(pc := c.pc + 2), k - 1);
    }
  }

  lemma StrideSuits(s: Core)
    requires s.pc == 0
    ensures Local(STRIDE_ISA) && Addrs(STRIDE_BREAKS) == {2} == EnabledAddrs(STRIDE_BREAKS)
    ensures AlwaysAligned(STRIDE_ISA, STRIDE_IMAGE, {2}, s) && NeverJustAfter(STRIDE_ISA, STRIDE_IMAGE, {2}, s)
    ensures AlwaysAligned(STRIDE_ISA, STRIDE_IMAGE, {2, 4}, s)
  {
    assert Addrs(STRIDE_BREAKS) == {2} == EnabledAddrs(STRIDE_BREAKS) by { assert STRIDE_BREAKS[0] in STRIDE_BREAKS; }
    forall k: nat
      ensures Iter(STRIDE_ISA, STRIDE_IMAGE, s, k).Some? && Iter(STRIDE_ISA, STRIDE_IMAGE, s, k).value.pc == 2 * k
    {
      StrideIs(s, k);
    }
  }

  lemma StrideArrives(s: Core)
    requires s.pc == 0
    ensures Iter(STRIDE_ISA, STRIDE_IMAGE, s, 0) == Some(s)
    ensures Iter(STRIDE_ISA, STRIDE_IMAGE, s, 1) == Some(s.(pc := 2))
  {
    assert Iter(STRIDE_ISA, STRIDE_IMAGE, s.(pc := 2), 0) == Some(s.(pc := 2));
  }

  /** Every assumption holds; `continue` traps on the breakpoint, and if the register access after that is
      refused, the prompt finds the thread at no state of the program. */
  lemma RefusedReportIsLost(s: Core, n: nat)
    requires s.pc == 0 && n >= 2
    ensures Local(STRIDE_ISA) && AlwaysAligned(STRIDE_ISA, STRIDE_IMAGE, Addrs(STRIDE_BREAKS), s)
    ensures NeverJustAfter(STRIDE_ISA, STRIDE_IMAGE, Addrs(STRIDE_BREAKS), s)
    ensures var c := s.(pc := 3);
            && Resume(STRIDE_ISA, Patch(STRIDE_IMAGE, EnabledAddrs(STRIDE_BREAKS)), s, n) == Trapped(c)
            && Continued(STRIDE_ISA, STRIDE_IMAGE, STRIDE_BREAKS, [], s, n, Unreported, 1, c, c,
                         [STRIDE_BREAKS[0].(enabled := false)], [])
            && !Reaches(STRIDE_ISA, STRIDE_IMAGE, s, c)
  {
    StrideSuits(s);
    StrideArrives(s);
    assert HitsFirst(STRIDE_ISA, STRIDE_IMAGE, {2}, s, 1);
    HitStops(STRIDE_ISA, STRIDE_IMAGE, {2}, s, n, 1);
    UnreportedIsLostIff(STRIDE_ISA, STRIDE_IMAGE, STRIDE_BREAKS, s, n, 1, s.(pc := 3));
  }

  // A program that jumps to itself, with a breakpoint that has been hit on the jump.

  const JUMP_ISA := Isa((_, _) => 2, (_, c: Core) => Some(c))

  const JUMP_IMAGE: Code := map[100 := 0xeb, 101 := 0xfe]

  const JUMP_BREAKS := [Breakpoint(100, 0xeb, false, "0x64")]

  /** Every assumption holds, and `continue` never stops at the breakpoint again; armed, it would
      stop there at once. */
  lemma SelfJumpRunsOn(n: nat)
    ensures var s := Core(100, map[], map[]);
            && Local(JUMP_ISA) && Overlay(JUMP_IMAGE, JUMP_BREAKS, {}, JUMP_IMAGE) && DisabledOnlyAt(JUMP_BREAKS, s.pc)
            && AlwaysAligned(JUMP_ISA, JUMP_IMAGE, Addrs(JUMP_BREAKS), s)
            && NeverJustAfter(JUMP_ISA, JUMP_IMAGE, Addrs(JUMP_BREAKS), s)
            && Rearm(JUMP_BREAKS, s.pc) == JUMP_BREAKS
            && Resume(JUMP_ISA, Patch(JUMP_IMAGE, EnabledAddrs(JUMP_BREAKS)), s, n) == Signalled(s)
            && (n > 0 ==> Resume(JUMP_ISA, Patch(JUMP_IMAGE, Addrs(JUMP_BREAKS)), s, n) == Trapped(s.(pc := 101)))
  {
    var s := Core(100, map[], map[]);
    assert EnabledAddrs(JUMP_BREAKS) + {} == {} && Patch(JUMP_IMAGE, {}) == JUMP_IMAGE;
    assert JUMP_BREAKS[0] in JUMP_BREAKS;
    forall k: nat ensures Iter(JUMP_ISA, JUMP_IMAGE, s, k) == Some(s) {
      SelfJumpStays(s, k);
    }
    SelfJumpResumes(s, n);
  }

  lemma {:induction false} SelfJumpStays(s: Core, k: nat)
    requires s.pc == 100
    ensures Iter(JUMP_ISA, JUMP_IMAGE, s, k) == Some(s)
    decreases k
  {
    if k > 0 {
      SelfJumpStays(s, k - 1);
    }
  }

  lemma {:induction false} SelfJumpResumes(s: Core, n: nat)
    requires s.pc == 100
    ensures Resume(JUMP_ISA, JUMP_IMAGE, s, n) == Signalled(s)
    decreases n
  {
    if n > 0 {
      SelfJumpResumes(s, n - 1);
    }
  }

  // A program of one-byte pushes, with a breakpoint that has been hit on one of them.

  function PushAt(pc: Addr, rsp: Word): Core {
    Core(pc, map["rsp" := rsp], map[])
  }

  const PUSH_ISA := Isa((_, _) => 1, (_, c: Core) =>
    Some(PushAt(c.pc + 1, if "rsp" in c.regs then Wrap(c.regs["rsp"] as int - 8) else 0)))

  const PUSH_IMAGE: Code := map[100 := 0x55]

  const PUSH_BREAKS := [Breakpoint(100, 0x55, false, "0x64")]

  /** The assumptions all hold except `NeverJustAfter`, and every `si` pushes again from the same pc. */
  lemma OneByteInstructionRunsAgain(rsp: Word)
    ensures Local(PUSH_ISA) && DisabledOnlyAt(PUSH_BREAKS, 100)
    ensures Overlay(PUSH_IMAGE, PUSH_BREAKS, {}, PUSH_IMAGE)
    ensures AlwaysAligned(PUSH_ISA, PUSH_IMAGE, Addrs(PUSH_BREAKS), PushAt(100, rsp))
    ensures SiEffect(PUSH_ISA, PUSH_IMAGE, PUSH_BREAKS, PushAt(100, rsp)) == Some(PushAt(100, Wrap(rsp - 8)))
    ensures Next(PUSH_ISA, PUSH_IMAGE, PushAt(100, rsp)) == Some(PushAt(101, Wrap(rsp - 8)))
  {
    assert EnabledAddrs(PUSH_BREAKS) + {} == {};
    assert Patch(PUSH_IMAGE, {}) == PUSH_IMAGE;
    assert PUSH_BREAKS[0] in PUSH_BREAKS;
  }

  /** `continue` from that breakpoint, stopped by a signal after the first push, takes the stop for a hit. */
  lemma ContinueRunsAgain(rsp: Word)
    ensures var (s, c) := (PushAt(100, rsp), PushAt(101, Wrap(rsp - 8)));
            && Iter(PUSH_ISA, PUSH_IMAGE, s, 1) == Some(c)
            && StopsJustPast(PUSH_ISA, PUSH_IMAGE, PUSH_BREAKS, s, 0)
            && Continued(PUSH_ISA, PUSH_IMAGE, PUSH_BREAKS, [], s, 0, Reported(BreakpointHit(0)), 1, c, c.(pc := 100),
                         PUSH_BREAKS, [])
  {
    var s, c := PushAt(100, rsp), PushAt(101, Wrap(rsp - 8));
    assert PUSH_BREAKS[0] in PUSH_BREAKS;
    assert Next(PUSH_ISA, PUSH_IMAGE, s) == Some(c);
    assert Iter(PUSH_ISA, PUSH_IMAGE, c, 0) == Some(c) && Iter(PUSH_ISA, PUSH_IMAGE, s, 0) == Some(s);
    assert GoesTo(PUSH_ISA, PUSH_IMAGE, PUSH_BREAKS, s, 0, 1);
    var armed := [PUSH_BREAKS[0].(enabled := true)];
    assert Rearm(PUSH_BREAKS, 101) == armed && Rearm(armed, 101) == armed;
    assert armed[0] in armed && Disarmed(armed, BreakpointHit(0)) == PUSH_BREAKS;
  }
}
