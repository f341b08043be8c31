/** Whole debugging sessions: any commands, in any order, over one run of the program. */
module Debugging {
  import opened Basics
  import opened Machine
  import opened WatchTable
  import opened HardwareWatch
  import opened Sessions
  import opened Commands
  import opened Stepping
  import opened NextLines
  import opened TableCommands
  import opened IndexLists

  datatype Command =
    | Go(budget: nat)
    | StepInstruction
    | StepLine
    | NextLine(budgets: nat -> nat)
    | SetBreak(addr: Addr, spec: string)
    | DeleteBreaks(numbers: seq<nat>)
    | Watching(op: WatchOp)

  /** What a command comes to. Only after the first does the session go on as promised. */
  datatype CommandEnd =
    | Done
    | Over      // the process has ended
    | Failed    // a request was refused, or `next` met a call that returns to unmapped code
    | TooLong   // `step` or `next` gave up, which ends the debugger too
    | Lost      // a trap was not reported: the debugger goes on, but not from a state of the program
    | Clash     // there are two breakpoints on one address

  /** The assumptions, for breakpoints anywhere in `places`: instructions start there, execution
      never arrives one byte past them, and every call returns to where it was made. */
  ghost predicate Suits(isa: Isa, image: Code, places: set<Addr>, s: Core) {
    && AlwaysAligned(isa, image, places, s)
    && NeverJustAfter(isa, image, places, s)
    && forall j: nat :: Iter(isa, image, s, j).Some? ==> CallSafe(isa, image, Iter(isa, image, s, j).value)
  }

  lemma SuitsAfter(isa: Isa, image: Code, places: set<Addr>, s: Core, k: nat)
    requires Suits(isa, image, places, s) && Iter(isa, image, s, k).Some?
    ensures Suits(isa, image, places, Iter(isa, image, s, k).value)
  {
    AlignedAfter(isa, image, places, s, k);
    NeverJustAfterAfter(isa, image, places, s, k);
    var s' := Iter(isa, image, s, k).value;
    forall j: nat | Iter(isa, image, s', j).Some?
      ensures CallSafe(isa, image, Iter(isa, image, s', j).value)
    {
      IterAdd(isa, image, s, k, j);
    }
  }

  lemma SuitsTable(isa: Isa, image: Code, places: set<Addr>, s: Core, bs: seq<BP.Breakpoint>)
    requires Suits(isa, image, places, s) && BP.Addrs(bs) <= places
    ensures NextDebuggable(isa, image, bs, s)
  {
    AlignedSubset(isa, image, places, BP.Addrs(bs), s);
    forall j: nat | Iter(isa, image, s, j).Some?
      ensures Iter(isa, image, s, j).value.pc - 1 !in BP.Addrs(bs)
    {
    }
  }

  // ----- one command -----

  /** The session between two commands: how far the program has got, how many requests have been made, the two
      tables, what has been reported, and what the last `step` or `next` came to. */
  datatype Prompt = Prompt(k: nat, asked: nat, bs: seq<BP.Breakpoint>, ws: seq<Watchpoint>, told: Option<Report>,
                           how: StepEnd, legs: seq<Leg>)

  /** The table after `break`, on an address without a breakpoint. */
  ghost function WithBreak(image: Code, bs: seq<BP.Breakpoint>, a: Addr, spec: string): seq<BP.Breakpoint> {
    if |bs| >= BP.MAX_BREAKPOINTS || a !in image then bs else bs + [BP.Breakpoint(a, image[a], true, spec)]
  }

  /** The table after `del`. */
  ghost function WithoutBreaks(bs: seq<BP.Breakpoint>, numbers: seq<nat>): seq<BP.Breakpoint> {
    if bs == [] || exists x :: x in numbers && x >= |bs| then bs else Without(bs, Named(numbers))
  }

  /** What is told at a prompt, the thread having come to `c` with breakpoints as in `table`: a breakpoint hit
      exactly for one trapped on, else the first watched value that has changed. Nothing only if a request was
      refused, and never after a trap. */
  ghost predicate Tells(table: seq<BP.Breakpoint>, hit: bool, ws: seq<Watchpoint>, to: Prompt, c: Core, granted: bool) {
    match to.told
    case Some(report) =>
      && (report.BreakpointHit? <==> hit)
      && to.bs == Disarmed(table, report) && Explains(report, to.bs, c, ws, to.ws)
    case None => !granted && !hit && to.bs == table && to.ws == ws
  }

  /** `continue` from bare state `s`: the program comes to an armed breakpoint, or is stopped coming to none. */
  ghost predicate ObeysGo(isa: Isa, image: Code, n: nat, bs: seq<BP.Breakpoint>, ws: seq<Watchpoint>, s: Core, to: Prompt,
                          c: Core, granted: bool) {
    var hit := ComesTo(isa, image, bs, s, n, to.k);
    && (hit || GoesTo(isa, image, bs, s, n, to.k))
    && Tells(Rested(isa, image, bs, s, if hit then c.pc + 1 else c.pc), hit, ws, to, c, granted)
  }

  /** One instruction, or none on an armed breakpoint. */
  ghost predicate ObeysOne(bs: seq<BP.Breakpoint>, ws: seq<Watchpoint>, s: Core, to: Prompt, c: Core, granted: bool) {
    var hit := s.pc in BP.EnabledAddrs(bs);
    to.k == (if hit then 0 else 1) && Tells(BP.Rearm(bs, if hit then c.pc + 1 else c.pc), hit, ws, to, c, granted)
  }

  /** What a `step` or `next` tells. */
  function Telling(end: StepEnd): Option<Report> {
    match end
    case AtBreakpoint(i) => Some(BreakpointHit(i))
    case AtWatch(i) => Some(WatchpointHit(i))
    case AtNewLine => Some(PlainStop)
    case SteppedBlind(report) => Some(report)
    case _ => None
  }

  /** What a command given at bare state `s`, with tables `bs` and `ws`, comes to when all goes well: the
      program is `to.k` instructions further, at `c`; `granted` is whether every request was. */
  ghost predicate Obeys(isa: Isa, image: Code, lineAt: Addr -> Option<Location>, command: Command, bs: seq<BP.Breakpoint>,
                        ws: seq<Watchpoint>, s: Core, to: Prompt, c: Core, granted: bool) {
    && Iter(isa, image, s, to.k) == Some(c)
    && match command
       case Go(n) => ObeysGo(isa, image, n, bs, ws, s, to, c, granted)
       case StepInstruction => ObeysOne(bs, ws, s, to, c, granted)
       case StepLine =>
         && to.told == Telling(to.how)
         && (if lineAt(s.pc).None? then ObeysOne(bs, ws, s, to, c, granted)
             else Earliest(isa, image, lineAt, lineAt(s.pc).value, bs, ws, s, to.how, to.k, c, to.bs, to.ws))
       case NextLine(_) =>
         && to.told == Telling(to.how)
         && (if lineAt(s.pc).None? then ObeysOne(bs, ws, s, to, c, granted)
             else to.k == LastLeg(bs, ws, to.legs).k
                  && Ended(isa, image, lineAt, lineAt(s.pc).value, bs, ws, s, to.how, to.legs, c, to.bs, to.ws))
       case SetBreak(a, spec) => to.k == 0 && to.bs == WithBreak(image, bs, a, spec) && to.ws == ws
       case DeleteBreaks(numbers) => to.k == 0 && to.bs == WithoutBreaks(bs, numbers) && to.ws == ws
       case Watching(op) => to.k == 0 && to.bs == bs && to.ws == After(DebugRegisters.X86_64, c.data, ws, op)
  }

  /** The program ends at the `k`-th instruction of a command given at bare state `s`, and the command would not
      have stopped before. */
  ghost predicate EndsIn(isa: Isa, image: Code, lineAt: Addr -> Option<Location>, command: Command, bs: seq<BP.Breakpoint>,
                         ws: seq<Watchpoint>, s: Core, k: nat, legs: seq<Leg>) {
    && Ends(isa, image, s, k)
    && match command
       case Go(n) => EndsBy(isa, image, bs, s, n, k)
       case StepInstruction => k == 1 && s.pc !in BP.EnabledAddrs(bs)
       case StepLine => EndsQuietly(isa, image, lineAt, bs, ws, s, k)
       case NextLine(_) => NextEnds(isa, image, lineAt, bs, ws, s, legs, k)
       case _ => false
  }

  /** Why a command given at bare state `s` with tables `bs` and `ws` did not end as it should, with the thread
      at `c`; `granted` is whether every request was. */
  ghost predicate Excused(isa: Isa, image: Code, lineAt: Addr -> Option<Location>, command: Command, bs: seq<BP.Breakpoint>,
                          ws: seq<Watchpoint>, s: Core, k: nat, legs: seq<Leg>, c: Core, granted: bool, end: CommandEnd) {
    match end
    case Done => true
    case Over => EndsIn(isa, image, lineAt, command, bs, ws, s, k, legs)
    case Failed => !granted || (command.NextLine? && NoWayOn(isa, image, lineAt, bs, ws, s, legs))
    case TooLong => command.StepLine? || command.NextLine?
    case Lost => !granted && c.pc - 1 in BP.Addrs(bs)
    case Clash => command.SetBreak? && command.addr in BP.Addrs(bs)
  }

  /** `step` or `next`, given at `s`, ended because of its limit. */
  predicate GaveUp(lineAt: Addr -> Option<Location>, command: Command, s: Core, end: StepEnd) {
    (command.StepLine? || command.NextLine?) && lineAt(s.pc).Some? && end.LimitExceeded?
  }

  lemma GrantedIff(g: Answers, lo: nat, hi: nat, ok: bool)
    requires Answered(g, lo, hi, ok)
    ensures AllGranted(g, lo, hi) <==> ok
  {
    RefusalsIff(g, lo, hi);
  }

  /** Is the thread one past a breakpoint? */
  method JustPast(d: Session) returns (past: bool)
    requires d.count <= d.table.Length
    ensures past <==> d.core.pc - 1 in BP.Addrs(d.Bps())
  {
    past := exists i :: 0 <= i < d.count && d.table[i].addr == d.core.pc - 1;
    assert forall i :: 0 <= i < d.count ==> d.table[i] in d.Bps();
  }

  lemma OffOnly(isa: Isa, image: Code, bs: seq<BP.Breakpoint>, s: Core, n: nat)
    ensures Off(bs, s) == 1 && Ends(isa, image, s, 1) ==> EndsBy(isa, image, bs, s, n, 1)
  {
    assert Iter(isa, image, s, 0) == Some(s);
  }

  /** A stop that was reported, or that was no trap, is what `continue` should come to. */
  lemma GoObeys(isa: Isa, image: Code, bs: seq<BP.Breakpoint>, ws: seq<Watchpoint>, s: Core, n: nat, r: Result, k: nat,
                c: Core, core: Core, to: Prompt, granted: bool)
    requires Continued(isa, image, bs, ws, s, n, r, k, c, core, to.bs, to.ws) && to.k == k
    requires Iter(isa, image, s, k).Some? && NotJustAfter(bs, Iter(isa, image, s, k).value, c)
    requires r.Reported? || (r.Unreported? && !granted && core.pc - 1 !in BP.Addrs(bs))
    requires to.told == if r.Reported? then Some(r.report) else None
    ensures Iter(isa, image, s, k) == Some(core) && ObeysGo(isa, image, n, bs, ws, s, to, core, granted)
  {
    hide Iter, GoesTo, ComesTo, Rested, Explains, Disarmed;
    RestedAddrs(isa, image, bs, s, c.pc);
    if ComesTo(isa, image, bs, s, n, k) {
      ComesToOne(isa, image, bs, s, n, k);
    }
    if GoesTo(isa, image, bs, s, n, k) {
      GoesToOne(isa, image, bs, s, n, k, k);
    }
  }

  method GoOn(d: Session, budget: nat) returns (end: CommandEnd, ghost to: Prompt)
    requires d.AtPrompt() && d.Debuggable()
    modifies d`requests, d`code, d`core, d`state, d`request, d`watches, d.table
    ensures d.Ok({}) && BP.SameBreaks(old(d.Bps()), d.Bps()) && old(d.requests) <= d.requests
    ensures d.state == Idle <==> end.Over?
    ensures end.Done? || end.Over? || end.Failed? || end.Lost?
    ensures to.asked == d.requests && to.bs == d.Bps() && to.ws == d.watches
    ensures end.Done? ==>
              && d.AtPrompt()
              && Obeys(d.isa, d.image, d.lineAt, Go(budget), old(d.Bps()), old(d.watches), old(d.core), to, d.core,
                       AllGranted(d.grants, old(d.requests), d.requests))
    ensures Excused(d.isa, d.image, d.lineAt, Go(budget), old(d.Bps()), old(d.watches), old(d.core), to.k, [], d.core,
                    AllGranted(d.grants, old(d.requests), d.requests), end)
  {
    hide BP.Overlay, AlwaysAligned, NeverJustAfter, NoneSkipped, ComesTo, GoesTo;
    hide Iter, BP.Addrs, Rested, ObeysGo, AllGranted;
    ghost var bs, s, ws := d.Bps(), d.core, d.watches;
    var r;
    ghost var k, c;
    r, k, c := ContinueCommand(d, budget);
    ghost var granted := AllGranted(d.grants, old(d.requests), d.requests);
    GrantedIff(d.grants, old(d.requests), d.requests, !r.Unreported? && !(r.Fatal? && d.state != Idle));
    OffOnly(d.isa, d.image, bs, s, budget);
    BP.SameAddrs(bs, d.Bps());
    var past := JustPast(d);
    match r {
      case Fatal =>
        end := if d.state == Idle then Over else Failed;
        k := 1;
      case Finished => end := Over;
      case Unreported => end := if past then Lost else Done;
      case Reported(_) => end := Done;
    }
    to := Prompt(k, d.requests, d.Bps(), d.watches, if r.Reported? then Some(r.report) else None, LimitExceeded, []);
    if r.Reported? || r.Unreported? {
      NeverIsNot(d.isa, d.image, bs, s, k, c);
      if end.Done? {
        GoObeys(d.isa, d.image, bs, ws, s, budget, r, k, c, d.core, to, granted);
      }
    }
  }

  /** A step that was reported, or that was no trap, is what `si` should come to. */
  lemma OneObeys(isa: Isa, image: Code, bs: seq<BP.Breakpoint>, ws: seq<Watchpoint>, s: Core, r: Result, core: Core,
                 to: Prompt, granted: bool)
    requires SiTold(isa, image, r, bs, s, core, to.bs, ws, to.ws) && NeverJustAfter(isa, image, BP.Addrs(bs), s)
    requires r.Reported? || (r.Unreported? && !granted && core.pc - 1 !in BP.Addrs(bs))
    requires to.told == (if r.Reported? then Some(r.report) else None) && to.k == if s.pc in BP.EnabledAddrs(bs) then 0 else 1
    ensures Iter(isa, image, s, to.k) == Some(core) && ObeysOne(bs, ws, s, to, core, granted)
  {
    hide BP.Rearm, Explains, Disarmed, NeverJustAfter;
    var c := Stepped(isa, image, bs, s).value;
    RearmFacts(bs, c.pc);
    SteppedStays(isa, image, bs, s);
    assert Iter(isa, image, s, 0) == Some(s);
  }

  method OneInstruction(d: Session) returns (end: CommandEnd, ghost to: Prompt)
    requires d.AtPrompt() && d.Debuggable()
    modifies d`requests, d`code, d`core, d`state, d`request, d`watches, d.table
    ensures d.Ok({}) && BP.SameBreaks(old(d.Bps()), d.Bps()) && old(d.requests) <= d.requests
    ensures d.state == Idle <==> end.Over?
    ensures end.Done? || end.Over? || end.Failed? || end.Lost?
    ensures to.asked == d.requests && to.bs == d.Bps() && to.ws == d.watches
    ensures end.Done? ==>
              && d.AtPrompt()
              && Obeys(d.isa, d.image, d.lineAt, StepInstruction, old(d.Bps()), old(d.watches), old(d.core), to, d.core,
                       AllGranted(d.grants, old(d.requests), d.requests))
    ensures Excused(d.isa, d.image, d.lineAt, StepInstruction, old(d.Bps()), old(d.watches), old(d.core), to.k, [], d.core,
                    AllGranted(d.grants, old(d.requests), d.requests), end)
  {
    hide BP.Overlay, AlwaysAligned, NeverJustAfter, SiEffect, Stepped;
    hide DisabledOnlyAt, BP.SameBreaks, RanOut, SiTold, ObeysOne;
    hide AllGranted;
    ghost var bs, s, ws, isa, image := d.Bps(), d.core, d.watches, d.isa, d.image;
    AlignedArmed(isa, image, bs, s);
    var r := SiCommand(d);
    ghost var granted := AllGranted(d.grants, old(d.requests), d.requests);
    BP.SameAddrs(bs, d.Bps());
    GrantedIff(d.grants, old(d.requests), d.requests, !r.Unreported? && !r.Fatal?);
    var past := JustPast(d);
    StepsBare(isa, image, bs, s);
    SteppedStays(isa, image, bs, s);
    EndsNow(isa, image, s);
    match r {
      case Fatal => end := Failed;
      case Finished => end := Over;
      case Unreported => end := if past then Lost else Done;
      case Reported(_) => end := Done;
    }
    to := Prompt(if s.pc in BP.EnabledAddrs(bs) then 0 else 1, d.requests, d.Bps(), d.watches,
                 if r.Reported? then Some(r.report) else None, LimitExceeded, []);
    if end.Done? {
      OneObeys(isa, image, bs, ws, s, r, d.core, to, granted);
    }
  }

  /** A step that was not reported has trapped exactly when it ended one past a breakpoint. */
  lemma SteppedStays(isa: Isa, image: Code, bs: seq<BP.Breakpoint>, s: Core)
    requires NeverJustAfter(isa, image, BP.Addrs(bs), s)
    ensures Stepped(isa, image, bs, s).Some? ==>
              var c := Stepped(isa, image, bs, s).value;
              && (s.pc in BP.EnabledAddrs(bs) <==> c.pc - 1 in BP.Addrs(bs))
              && (s.pc !in BP.EnabledAddrs(bs) ==> Iter(isa, image, s, 1) == Some(c))
  {
    assert forall a :: a in BP.EnabledAddrs(bs) ==> a in BP.Addrs(bs);
    match Next(isa, image, s)
    case None =>
    case Some(s') =>
      assert Iter(isa, image, s', 0) == Some(s');
      assert Iter(isa, image, s, 1) == Some(s');
  }

  method OneLine(d: Session) returns (end: CommandEnd, ghost to: Prompt)
    requires d.AtPrompt() && d.Debuggable()
    modifies d`requests, d`code, d`core, d`state, d`request, d`watches, d.table
    ensures d.Ok({}) && BP.SameBreaks(old(d.Bps()), d.Bps()) && old(d.requests) <= d.requests
    ensures d.state == Idle <==> end.Over?
    ensures to.asked == d.requests && to.bs == d.Bps() && to.ws == d.watches
    ensures end.Done? || end.TooLong? ==>
              && d.AtPrompt()
              && Obeys(d.isa, d.image, d.lineAt, StepLine, old(d.Bps()), old(d.watches), old(d.core), to, d.core,
                       AllGranted(d.grants, old(d.requests), d.requests))
    ensures end.TooLong? ==> GaveUp(d.lineAt, StepLine, old(d.core), to.how)
    ensures Excused(d.isa, d.image, d.lineAt, StepLine, old(d.Bps()), old(d.watches), old(d.core), to.k, [], d.core,
                    AllGranted(d.grants, old(d.requests), d.requests), end)
  {
    hide BP.Overlay, AlwaysAligned, NeverJustAfter, Stepped, Iter;
    hide DisabledOnlyAt, Earliest, BP.Addrs, BP.SameBreaks;
    hide AllGranted, SiTold, ObeysOne;
    ghost var bs, s, ws := d.Bps(), d.core, d.watches;
    SteppedStays(d.isa, d.image, bs, s);
    var how;
    ghost var k;
    how, k := StepNextLine(d);
    ghost var granted := AllGranted(d.grants, old(d.requests), d.requests);
    NeverFalseHit(d.isa, d.image, bs, s, k);
    BP.SameAddrs(bs, d.Bps());
    GrantedIff(d.grants, old(d.requests), d.requests, !how.StepFailed? && !how.SteppedUnreported?);
    var past := JustPast(d);
    end := EndOf(how, past);
    to := Prompt(k, d.requests, d.Bps(), d.watches, Telling(how), how, []);
    if (how.SteppedBlind? || how.SteppedUnreported?) && end.Done? {
      OneObeys(d.isa, d.image, bs, ws, s, Blind(how), d.core, to, granted);
    }
  }

  /** What the end of a `step` or `next` means for the session. */
  function EndOf(how: StepEnd, past: bool): CommandEnd {
    match how
    case StepFailed => Failed
    case StepFinished => Over
    case SteppedUnreported => if past then Lost else Done
    case LimitExceeded => TooLong
    case _ => Done
  }

  method OverLine(d: Session, budgets: nat -> nat) returns (end: CommandEnd, ghost to: Prompt)
    requires d.AtPrompt() && NextDebuggable(d.isa, d.image, d.Bps(), d.core)
    modifies d`requests, d`code, d`core, d`state, d`request, d`watches, d.table
    ensures d.Ok({}) && BP.SameBreaks(old(d.Bps()), d.Bps()) && old(d.requests) <= d.requests
    ensures d.state == Idle <==> end.Over?
    ensures to.asked == d.requests && to.bs == d.Bps() && to.ws == d.watches
    ensures end.Done? || end.TooLong? ==>
              && d.AtPrompt()
              && Obeys(d.isa, d.image, d.lineAt, NextLine(budgets), old(d.Bps()), old(d.watches), old(d.core), to, d.core,
                       AllGranted(d.grants, old(d.requests), d.requests))
    ensures end.TooLong? ==> GaveUp(d.lineAt, NextLine(budgets), old(d.core), to.how)
    ensures Excused(d.isa, d.image, d.lineAt, NextLine(budgets), old(d.Bps()), old(d.watches), old(d.core), to.k, to.legs,
                    d.core, AllGranted(d.grants, old(d.requests), d.requests), end)
  {
    hide BP.Overlay, AlwaysAligned, NeverJustAfter, CallSafe, NoReturn, Stepped;
    hide Iter, DisabledOnlyAt, BP.SameBreaks, BP.Addrs, BP.EnabledAddrs, Ended, AllGranted, SiTold, ObeysOne;
    ghost var bs, s, ws := d.Bps(), d.core, d.watches;
    SteppedStays(d.isa, d.image, bs, s);
    var how;
    ghost var k, legs;
    how, k, legs := NextSourceLine(d, budgets);
    ghost var granted := AllGranted(d.grants, old(d.requests), d.requests);
    BP.SameAddrs(bs, d.Bps());
    var past := JustPast(d);
    if Answered(d.grants, old(d.requests), d.requests, false) {
      GrantedIff(d.grants, old(d.requests), d.requests, false);
    }
    end := EndOf(how, past);
    to := Prompt(k, d.requests, d.Bps(), d.watches, Telling(how), how, legs);
    if (how.SteppedBlind? || how.SteppedUnreported?) && end.Done? {
      OneObeys(d.isa, d.image, bs, ws, s, Blind(how), d.core, to, granted);
    }
  }

  /** The commands that resume the program. */
  method Resuming(d: Session, c: Command) returns (end: CommandEnd, ghost to: Prompt)
    requires d.AtPrompt() && NextDebuggable(d.isa, d.image, d.Bps(), d.core)
    requires c.Go? || c.StepInstruction? || c.StepLine? || c.NextLine?
    modifies d`requests, d`code, d`core, d`state, d`request, d`watches, d.table
    ensures BP.SameBreaks(old(d.Bps()), d.Bps()) && old(d.requests) <= d.requests
    ensures d.Ok({}) && (end.Done? || end.TooLong? ==> d.AtPrompt())
    ensures d.state == Idle <==> end.Over?
    ensures to.asked == d.requests && to.bs == d.Bps() && to.ws == d.watches
    ensures end.TooLong? ==> GaveUp(d.lineAt, c, old(d.core), to.how)
    ensures end.Done? || end.TooLong? ==>
              Obeys(d.isa, d.image, d.lineAt, c, old(d.Bps()), old(d.watches), old(d.core), to, d.core,
                    AllGranted(d.grants, old(d.requests), d.requests))
    ensures Excused(d.isa, d.image, d.lineAt, c, old(d.Bps()), old(d.watches), old(d.core), to.k, to.legs, d.core,
                    AllGranted(d.grants, old(d.requests), d.requests), end)
  {
    hide BP.Overlay, AlwaysAligned, NeverJustAfter, CallSafe, NoReturn;
    hide Obeys, NextEnds, EndsQuietly, NoWayOn, AllGranted;
    match c {
      case Go(budget) => end, to := GoOn(d, budget);
      case StepInstruction => end, to := OneInstruction(d);
      case StepLine => end, to := OneLine(d);
      case NextLine(budgets) => end, to := OverLine(d, budgets);
    }
  }

  lemma BreakAdds(image: Code, bs: seq<BP.Breakpoint>, code: Code, a: Addr, spec: string)
    requires BP.Overlay(image, bs, {}, code) && a !in BP.Addrs(bs)
    ensures a in code <==> a in image
    ensures a in code ==> code[a] == image[a]
  {
    assert forall b :: b in bs ==> b.addr in BP.Addrs(bs);
  }

  /** `break`. A second breakpoint on one address is not rejected, and ends all promises. */
  method Setting(d: Session, a: Addr, spec: string) returns (end: CommandEnd)
    requires d.AtPrompt()
    modifies d`code, d`count, d.table
    ensures (end.Done? || end.Clash?) && d.count <= d.table.Length
    ensures end.Clash? ==>
              && a in old(BP.Addrs(d.Bps())) && !d.Ok({})
              && exists saved :: d.Bps() == old(d.Bps()) + [BP.Breakpoint(a, saved, true, spec)]
    ensures end.Done? ==> d.AtPrompt() && d.Bps() == WithBreak(d.image, old(d.Bps()), a, spec)
  {
    ghost var bs := d.Bps();
    var twice := exists i :: 0 <= i < d.count && d.table[i].addr == a;
    assert twice <==> a in BP.Addrs(bs) by {
      assert forall i :: 0 <= i < d.count ==> d.table[i] in bs;
    }
    if !twice {
      BreakAdds(d.image, bs, d.code, a, spec);
    }
    BP.OverlayFacts(d.image, bs, {}, d.code);
    var rc := Break(d, a, spec);
    end := if rc == 0 && twice then Clash else Done;
    if twice && rc == -1 {
      NoBreakSet(d.image, bs, a, spec);
    }
  }

  lemma NoBreakSet(image: Code, bs: seq<BP.Breakpoint>, a: Addr, spec: string)
    requires |bs| >= BP.MAX_BREAKPOINTS || a !in image
    ensures WithBreak(image, bs, a, spec) == bs
  {
  }

  /** `del`. */
  method Deleting(d: Session, numbers: seq<nat>)
    requires d.AtPrompt()
    modifies d`code, d`count, d.table
    ensures d.AtPrompt() && d.Bps() == WithoutBreaks(old(d.Bps()), numbers)
  {
    ghost var bs := d.Bps();
    var _ := DeleteCommand(d, numbers);
    WithoutDisabled(bs, Named(numbers), d.core.pc);
  }

  /** The commands on the tables. `watch` and `unwatch` do to the session's table what they are proved to do to
      the one the registers follow. */
  method Editing(d: Session, c: Command) returns (end: CommandEnd, ghost to: Prompt)
    requires d.AtPrompt() && (c.SetBreak? || c.DeleteBreaks? || c.Watching?)
    modifies d`code, d`count, d`watches, d.table
    ensures (end.Done? || end.Clash?) && d.count <= d.table.Length
    ensures end.Clash? ==>
              && c.SetBreak? && c.addr in old(BP.Addrs(d.Bps())) && !d.Ok({})
              && exists saved :: d.Bps() == old(d.Bps()) + [BP.Breakpoint(c.addr, saved, true, c.spec)]
    ensures to.asked == d.requests && to.bs == d.Bps() && to.ws == d.watches && to.k == 0
    ensures end.Done? ==>
              d.AtPrompt() && Obeys(d.isa, d.image, d.lineAt, c, old(d.Bps()), old(d.watches), d.core, to, d.core, true)
  {
    hide BP.Overlay, DisabledOnlyAt;
    end := Done;
    match c {
      case SetBreak(a, spec) => end := Setting(d, a, spec);
      case DeleteBreaks(numbers) => Deleting(d, numbers);
      case Watching(op) => d.watches := After(DebugRegisters.X86_64, d.core.data, d.watches, op);
    }
    to := Prompt(0, d.requests, d.Bps(), d.watches, None, LimitExceeded, []);
    assert Iter(d.isa, d.image, d.core, 0) == Some(d.core);
  }

  // ----- a session -----

  function Start(asked: nat, bs: seq<BP.Breakpoint>, ws: seq<Watchpoint>): Prompt {
    Prompt(0, asked, bs, ws, None, LimitExceeded, [])
  }

  /** Every command takes the program on from where the one before it left it. */
  ghost predicate Follows(isa: Isa, image: Code, lineAt: Addr -> Option<Location>, g: Answers, s: Core, c: Command,
                          from: Prompt, to: Prompt) {
    && from.k <= to.k && from.asked <= to.asked && Iter(isa, image, s, from.k).Some? && Iter(isa, image, s, to.k).Some?
    && Obeys(isa, image, lineAt, c, from.bs, from.ws, Iter(isa, image, s, from.k).value, to.(k := to.k - from.k),
             Iter(isa, image, s, to.k).value, AllGranted(g, from.asked, to.asked))
  }

  /** The prompts seen while the first commands ran, from the first one on. */
  ghost predicate Prompts(isa: Isa, image: Code, lineAt: Addr -> Option<Location>, g: Answers, s: Core, start: Prompt,
                          commands: seq<Command>, prompts: seq<Prompt>) {
    && 0 < |prompts| <= |commands| + 1 && prompts[0] == start
    && forall i :: 0 <= i < |prompts| - 1 ==> Follows(isa, image, lineAt, g, s, commands[i], prompts[i], prompts[i + 1])
  }

  /** The texts that breakpoints were set with. */
  ghost function Texts(bs: seq<BP.Breakpoint>): set<string> {
    set b | b in bs :: b.spec
  }

  /** The breakpoints of `bs` are at these places and were set with these texts. */
  ghost predicate Within(bs: seq<BP.Breakpoint>, places: set<Addr>, texts: set<string>) {
    BP.Addrs(bs) <= places && Texts(bs) <= texts
  }

  ghost predicate CommandWithin(c: Command, places: set<Addr>, texts: set<string>) {
    c.SetBreak? ==> c.addr in places && c.spec in texts
  }

  lemma SameWithin(bs: seq<BP.Breakpoint>, bs': seq<BP.Breakpoint>, places: set<Addr>, texts: set<string>)
    requires BP.SameBreaks(bs, bs') && Within(bs, places, texts)
    ensures Within(bs', places, texts)
  {
    forall b | b in bs' ensures b.addr in places && b.spec in texts {
      var i :| 0 <= i < |bs'| && bs'[i] == b;
      assert bs[i] in bs && bs[i].addr in BP.Addrs(bs) && bs[i].spec in Texts(bs);
    }
  }

  lemma PushWithin(bs: seq<BP.Breakpoint>, b: BP.Breakpoint, places: set<Addr>, texts: set<string>)
    requires Within(bs, places, texts) && b.addr in places && b.spec in texts
    ensures Within(bs + [b], places, texts)
  {
    forall x | x in bs + [b] ensures x.addr in places && x.spec in texts {
      assert x in bs ==> x.addr in BP.Addrs(bs) && x.spec in Texts(bs);
    }
  }

  lemma DeletionWithin(bs: seq<BP.Breakpoint>, numbers: seq<nat>, places: set<Addr>, texts: set<string>)
    requires Within(bs, places, texts)
    ensures Within(WithoutBreaks(bs, numbers), places, texts)
  {
    forall x | x in WithoutBreaks(bs, numbers) ensures x.addr in places && x.spec in texts {
      WithoutKeeps(bs, Named(numbers), x);
      assert x in bs && x.addr in BP.Addrs(bs) && x.spec in Texts(bs);
    }
  }

  lemma EditedWithin(isa: Isa, image: Code, lineAt: Addr -> Option<Location>, c: Command, bs: seq<BP.Breakpoint>,
                     ws: seq<Watchpoint>, s: Core, to: Prompt, places: set<Addr>, texts: set<string>)
    requires c.SetBreak? || c.DeleteBreaks? || c.Watching?
    requires Obeys(isa, image, lineAt, c, bs, ws, s, to, s, true)
    requires Within(bs, places, texts) && CommandWithin(c, places, texts)
    ensures Within(to.bs, places, texts)
  {
    match c
    case SetBreak(a, spec) =>
      if to.bs != bs {
        PushWithin(bs, to.bs[|bs|], places, texts);
      }
    case DeleteBreaks(numbers) => DeletionWithin(bs, numbers, places, texts);
    case Watching(_) =>
  }

  /** The session is at `p`: its tables, and the program's own state after `p.k` instructions from `s`. */
  ghost predicate Stands(d: Session, s: Core, p: Prompt)
    reads d, d.table
  {
    && d.AtPrompt() && p.asked == d.requests && p.bs == d.Bps() && p.ws == d.watches
    && Iter(d.isa, d.image, s, p.k) == Some(d.core)
  }

  lemma FollowsOn(isa: Isa, image: Code, lineAt: Addr -> Option<Location>, g: Answers, s: Core, c: Command, from: Prompt,
                  c0: Core, to: Prompt, c1: Core)
    requires Iter(isa, image, s, from.k) == Some(c0) && from.asked <= to.asked
    requires Obeys(isa, image, lineAt, c, from.bs, from.ws, c0, to, c1, AllGranted(g, from.asked, to.asked))
    ensures Iter(isa, image, s, from.k + to.k) == Some(c1)
    ensures Follows(isa, image, lineAt, g, s, c, from, to.(k := from.k + to.k))
  {
    hide Iter, AllGranted;
    IterAdd(isa, image, s, from.k, to.k);
    var at := to.(k := from.k + to.k);
    assert at.(k := at.k - from.k) == to;
  }

  lemma EditFollows(isa: Isa, image: Code, lineAt: Addr -> Option<Location>, c: Command, bs: seq<BP.Breakpoint>,
                    ws: seq<Watchpoint>, s: Core, to: Prompt, granted: bool)
    requires (c.SetBreak? || c.DeleteBreaks? || c.Watching?) && Obeys(isa, image, lineAt, c, bs, ws, s, to, s, true)
    ensures Obeys(isa, image, lineAt, c, bs, ws, s, to, s, granted)
  {
  }

  method OneCommand(d: Session, c: Command, ghost places: set<Addr>, ghost texts: set<string>, ghost s: Core, ghost from: Prompt)
    returns (end: CommandEnd, ghost to: Prompt)
    requires Suits(d.isa, d.image, places, s) && Stands(d, s, from) && Within(from.bs, places, texts)
    requires CommandWithin(c, places, texts)
    modifies d`requests, d`code, d`core, d`state, d`request, d`watches, d`count, d.table
    ensures old(d.requests) <= d.requests && d.count <= d.table.Length && (d.state == Idle <==> end.Over?)
    ensures from.k <= to.k && to.asked == d.requests && to.bs == d.Bps() && to.ws == d.watches && Within(d.Bps(), places, texts)
    ensures end.Done? || end.TooLong? ==> Stands(d, s, to) && Follows(d.isa, d.image, d.lineAt, d.grants, s, c, from, to)
    ensures end.TooLong? ==> GaveUp(d.lineAt, c, old(d.core), to.how)
    ensures Excused(d.isa, d.image, d.lineAt, c, from.bs, from.ws, old(d.core), to.k - from.k, to.legs, d.core,
                    AllGranted(d.grants, old(d.requests), d.requests), end)
  {
    hide BP.Overlay, AlwaysAligned, NeverJustAfter, CallSafe, NoReturn, EndsIn;
    hide Suits, NextDebuggable, Follows, Obeys, Within, Iter;
    ghost var isa, image, c0 := d.isa, d.image, d.core;
    if c.SetBreak? || c.DeleteBreaks? || c.Watching? {
      end, to := Editing(d, c);
      if end.Done? {
        EditedWithin(isa, image, d.lineAt, c, from.bs, from.ws, c0, to, places, texts);
        EditFollows(isa, image, d.lineAt, c, from.bs, from.ws, c0, to, AllGranted(d.grants, from.asked, to.asked));
      } else {
        ClashWithin(from.bs, d.Bps(), c, places, texts);
      }
    } else {
      SuitsAfter(isa, image, places, s, from.k);
      WithinAddrs(from.bs, places, texts);
      SuitsTable(isa, image, places, d.core, d.Bps());
      end, to := Resuming(d, c);
      SameWithin(from.bs, d.Bps(), places, texts);
    }
    if end.Done? || end.TooLong? {
      FollowsOn(isa, image, d.lineAt, d.grants, s, c, from, c0, to, d.core);
    }
    to := to.(k := from.k + to.k);
  }

  lemma WithinAddrs(bs: seq<BP.Breakpoint>, places: set<Addr>, texts: set<string>)
    requires Within(bs, places, texts)
    ensures BP.Addrs(bs) <= places
  {
  }

  lemma ClashWithin(bs: seq<BP.Breakpoint>, bs': seq<BP.Breakpoint>, c: Command, places: set<Addr>, texts: set<string>)
    requires c.SetBreak? && CommandWithin(c, places, texts) && Within(bs, places, texts)
    requires exists saved :: bs' == bs + [BP.Breakpoint(c.addr, saved, true, c.spec)]
    ensures Within(bs', places, texts)
  {
    PushWithin(bs, bs'[|bs|], places, texts);
  }

  /** Why a session that began at `s` stopped short, the thread at `c` and the program at `at.k` instructions. */
  ghost predicate Short(isa: Isa, image: Code, lineAt: Addr -> Option<Location>, s: Core, commands: seq<Command>,
                        prompts: seq<Prompt>, at: Prompt, c: Core, granted: bool, end: CommandEnd) {
    if end.TooLong? then
      && 2 <= |prompts| <= |commands| + 1 && Iter(isa, image, s, prompts[|prompts| - 2].k).Some?
      && GaveUp(lineAt, commands[|prompts| - 2], Iter(isa, image, s, prompts[|prompts| - 2].k).value, prompts[|prompts| - 1].how)
    else
      && 0 < |prompts| <= |commands| && Iter(isa, image, s, prompts[|prompts| - 1].k).Some?
      && var last, command := prompts[|prompts| - 1], commands[|prompts| - 1];
      var c0 := Iter(isa, image, s, last.k).value;
      match end
      case Over =>
        && last.k < at.k && Ends(isa, image, s, at.k)
        && EndsIn(isa, image, lineAt, command, last.bs, last.ws, c0, at.k - last.k, at.legs)
      case Failed => !granted || (command.NextLine? && NoWayOn(isa, image, lineAt, last.bs, last.ws, c0, at.legs))
      case Lost => !granted && !Reaches(isa, image, s, c)
      case Clash => command.SetBreak? && command.addr in BP.Addrs(last.bs)
      case _ => false
  }

  lemma ExcusedIsShort(isa: Isa, image: Code, lineAt: Addr -> Option<Location>, places: set<Addr>, s: Core, c0: Core,
                       commands: seq<Command>, prompts: seq<Prompt>, at: Prompt, c: Core, granted: bool, end: CommandEnd)
    requires 0 < |prompts| <= |commands| && NeverJustAfter(isa, image, places, s) && !end.Done? && !end.TooLong?
    requires var last := prompts[|prompts| - 1];
             && Iter(isa, image, s, last.k) == Some(c0) && BP.Addrs(last.bs) <= places && last.k <= at.k
             && Excused(isa, image, lineAt, commands[|prompts| - 1], last.bs, last.ws, c0, at.k - last.k, at.legs, c, granted, end)
    ensures Short(isa, image, lineAt, s, commands, prompts, at, c, granted, end)
  {
    hide Iter, NextEnds, EndsQuietly, NoneSkipped, NoWayOn;
    var last := prompts[|prompts| - 1];
    if end.Over? {
      EndsAdd(isa, image, s, last.k, c0, at.k - last.k);
    }
    if end.Lost? {
      PastIsLost(isa, image, places, s, c);
    }
  }

  lemma PastIsLost(isa: Isa, image: Code, places: set<Addr>, s: Core, c: Core)
    requires NeverJustAfter(isa, image, places, s) && c.pc - 1 in places
    ensures !Reaches(isa, image, s, c)
  {
  }

  lemma SuitsNever(isa: Isa, image: Code, places: set<Addr>, s: Core)
    requires Suits(isa, image, places, s)
    ensures NeverJustAfter(isa, image, places, s)
  {
  }

  /** A request refused to one command is one refused to the session. */
  lemma Excusing(isa: Isa, image: Code, lineAt: Addr -> Option<Location>, command: Command, bs: seq<BP.Breakpoint>,
                 ws: seq<Watchpoint>, s: Core, k: nat, legs: seq<Leg>, c: Core, g: Answers, lo: nat, mid: nat, hi: nat, end: CommandEnd)
    requires lo <= mid && Excused(isa, image, lineAt, command, bs, ws, s, k, legs, c, AllGranted(g, mid, hi), end)
    ensures Excused(isa, image, lineAt, command, bs, ws, s, k, legs, c, AllGranted(g, lo, hi), end)
  {
  }

  lemma StopsShort(isa: Isa, image: Code, lineAt: Addr -> Option<Location>, places: set<Addr>, texts: set<string>, s: Core,
                   c0: Core, commands: seq<Command>, prompts: seq<Prompt>, at: Prompt, c: Core, g: Answers,
                   lo: nat, mid: nat, hi: nat, end: CommandEnd)
    requires 0 < |prompts| <= |commands| && Suits(isa, image, places, s) && !end.Done? && !end.TooLong? && lo <= mid
    requires var last := prompts[|prompts| - 1];
             && Iter(isa, image, s, last.k) == Some(c0) && Within(last.bs, places, texts) && last.k <= at.k
             && Excused(isa, image, lineAt, commands[|prompts| - 1], last.bs, last.ws, c0, at.k - last.k, at.legs, c,
                        AllGranted(g, mid, hi), end)
    ensures Short(isa, image, lineAt, s, commands, prompts, at, c, AllGranted(g, lo, hi), end)
  {
    hide Iter, Suits, Within, Excused, Short;
    var last := prompts[|prompts| - 1];
    Excusing(isa, image, lineAt, commands[|prompts| - 1], last.bs, last.ws, c0, at.k - last.k, at.legs, c, g, lo, mid, hi, end);
    SuitsNever(isa, image, places, s);
    WithinAddrs(last.bs, places, texts);
    ExcusedIsShort(isa, image, lineAt, places, s, c0, commands, prompts, at, c, AllGranted(g, lo, hi), end);
  }

  /** After any commands the thread is at a state of the bare program, and code memory is the
      program's own overlaid with exactly the armed breakpoints. Stop by stop the program only goes
      forward, each command as it should. Where no request is refused, every command runs, unless the
      program ends in one, `step` or `next` gives up, or a breakpoint is set twice. */
  method Debug(d: Session, commands: seq<Command>, ghost places: set<Addr>, ghost texts: set<string>)
    returns (end: CommandEnd, ghost prompts: seq<Prompt>, ghost at: Prompt)
    requires d.AtPrompt() && Suits(d.isa, d.image, places, d.core) && Within(d.Bps(), places, texts)
    requires forall c :: c in commands ==> CommandWithin(c, places, texts)
    modifies d`requests, d`code, d`core, d`state, d`request, d`watches, d`count, d.table
    ensures old(d.requests) <= d.requests && d.count <= d.table.Length && (d.state == Idle <==> end.Over?)
    ensures at.bs == d.Bps() && at.ws == d.watches && Within(d.Bps(), places, texts)
    ensures Prompts(d.isa, d.image, d.lineAt, d.grants, old(d.core), Start(old(d.requests), old(d.Bps()), old(d.watches)),
                    commands, prompts)
    ensures end.Done? ==> |prompts| == |commands| + 1
    ensures end.Done? || end.TooLong? ==> at == prompts[|prompts| - 1] && Stands(d, old(d.core), at)
    ensures !end.Done? ==>
              Short(d.isa, d.image, d.lineAt, old(d.core), commands, prompts, at, d.core,
                    AllGranted(d.grants, old(d.requests), d.requests), end)
  {
    hide BP.Overlay, Suits, Follows, Excused, GaveUp, Within, CommandWithin;
    ghost var isa, image, s, start := d.isa, d.image, d.core, Start(d.requests, d.Bps(), d.watches);
    end, prompts, at := Done, [start], start;
    assert Iter(isa, image, s, 0) == Some(s);
    for i := 0 to |commands|
      invariant end.Done? && |prompts| == i + 1 && at == prompts[i] && Stands(d, s, at) && old(d.requests) <= d.requests
      invariant Within(at.bs, places, texts) && Prompts(isa, image, d.lineAt, d.grants, s, start, commands, prompts)
    {
      ghost var from, before, c0 := at, d.requests, d.core;
      end, at := OneCommand(d, commands[i], places, texts, s, from);
      if !end.Done? && !end.TooLong? {
        StopsShort(isa, image, d.lineAt, places, texts, s, c0, commands, prompts, at, d.core, d.grants,
                   old(d.requests), before, d.requests, end);
        return;
      }
      prompts := prompts + [at];
      if end.TooLong? {
        return;
      }
    }
  }

  /** A session that ends by deleting every breakpoint leaves the program's code as it was and its
      state one that it reaches by itself. */
  method DebugAndDetach(d: Session, commands: seq<Command>, ghost places: set<Addr>, ghost texts: set<string>)
    returns (end: CommandEnd, ghost prompts: seq<Prompt>, ghost at: Prompt)
    requires d.AtPrompt() && Suits(d.isa, d.image, places, d.core) && Within(d.Bps(), places, texts)
    requires forall c :: c in commands ==> CommandWithin(c, places, texts)
    modifies d`requests, d`code, d`core, d`state, d`request, d`watches, d`count, d.table
    ensures end.Done? ==>
              && d.code == d.image && d.count == 0
              && |prompts| == |commands| + 1 && Iter(d.isa, d.image, old(d.core), at.k) == Some(d.core)
              && Prompts(d.isa, d.image, d.lineAt, d.grants, old(d.core),
                         Start(old(d.requests), old(d.Bps()), old(d.watches)), commands, prompts)
    ensures !end.Done? ==>
              Short(d.isa, d.image, d.lineAt, old(d.core), commands, prompts, at, d.core,
                    AllGranted(d.grants, old(d.requests), d.requests), end)
  {
    end, prompts, at := Debug(d, commands, places, texts);
    if end.Done? {
      var _ := DeleteAll(d);
    }
  }
}
