/** `step`: single instructions until something the user would notice changes
    (src/debugger.c, cdbg_step_next_line). */
module Stepping {
  import opened Basics
  import opened Machine
  import opened Breakpoints
  import opened WatchTable
  import opened Sessions
  import opened Commands

  const MAX_STEP_ITERATIONS: nat := 100000

  datatype StepEnd =
    | AtBreakpoint(index: nat)
    | AtWatch(index: nat)
    | AtNewLine
    | LimitExceeded
    | StepFinished
    | SteppedBlind(report: Report)  // no line known at the start: one instruction only
    | SteppedUnreported             // the same, its report refused
    | StepFailed

  ghost predicate WatchChanged(ws: seq<Watchpoint>, c: Core) {
    exists w :: w in ws && Changed(c.data, w)
  }

  predicate NewLine(lineAt: Addr -> Option<Location>, start: Location, pc: Addr): (b: bool)
    ensures b <==> lineAt(pc).Some? && (lineAt(pc).value.line == start.line ==> lineAt(pc).value.file != start.file)
  {
    lineAt(pc).Some? && lineAt(pc).value != start
  }

  /** The first `i` bare successors of `s` change no watched value and reach no new line. */
  ghost predicate Quiet(isa: Isa, image: Code, lineAt: Addr -> Option<Location>, ws: seq<Watchpoint>,
                        start: Location, s: Core, i: nat) {
    forall j: nat :: 1 <= j <= i ==>
      && Iter(isa, image, s, j).Some?
      && !WatchChanged(ws, Iter(isa, image, s, j).value)
      && !NewLine(lineAt, start, Iter(isa, image, s, j).value.pc)
  }

  /** The program has not left the pc it started on during its first `i` instructions. */
  ghost predicate Stayed(isa: Isa, image: Code, s: Core, i: nat) {
    forall m: nat :: m <= i ==> Iter(isa, image, s, m).Some? && Iter(isa, image, s, m).value.pc == s.pc
  }

  /** The only breakpoint passed is the one the run started on, disabled, before it is first left. */
  ghost predicate OnlyPassedStart(isa: Isa, image: Code, bs: seq<Breakpoint>, s: Core, i: nat) {
    forall j: nat :: j < i ==>
      && Iter(isa, image, s, j).Some?
      && (Iter(isa, image, s, j).value.pc in Addrs(bs) ==> DisabledAt(bs, s.pc) && Stayed(isa, image, s, j))
  }

  function AllArmedIn(bs: seq<Breakpoint>): seq<Breakpoint> {
    seq(|bs|, i requires 0 <= i < |bs| => bs[i].(enabled := true))
  }

  /** The breakpoints after `i` single steps from `s` with table `bs`: armed, but for one never left. */
  ghost function StepTable(isa: Isa, image: Code, bs: seq<Breakpoint>, s: Core, i: nat): seq<Breakpoint> {
    if Stayed(isa, image, s, i) then bs else AllArmedIn(bs)
  }

  /** After `i` single steps from `s` with table `bs`: thread at `c`, table `bs'`. */
  ghost predicate InStep(isa: Isa, image: Code, bs: seq<Breakpoint>, s: Core, i: nat, bs': seq<Breakpoint>, c: Core) {
    && Iter(isa, image, s, i) == Some(c)
    && SameBreaks(bs, bs')
    && OnlyPassedStart(isa, image, bs, s, i)
    && DisabledOnlyAt(bs', c.pc)
    && DisabledOnlyAt(bs, s.pc) && bs' == StepTable(isa, image, bs, s, i)
  }

  lemma StepTableNext(isa: Isa, image: Code, bs: seq<Breakpoint>, s: Core, i: nat, c': Core)
    requires DisabledOnlyAt(bs, s.pc) && Iter(isa, image, s, i + 1) == Some(c')
    ensures Rearm(StepTable(isa, image, bs, s, i), c'.pc) == StepTable(isa, image, bs, s, i + 1)
  {
    hide Iter;
    assert Stayed(isa, image, s, i + 1) <==> Stayed(isa, image, s, i) && c'.pc == s.pc;
    forall j | 0 <= j < |bs| ensures bs[j].enabled || bs[j].addr == s.pc {
      assert bs[j] in bs;
    }
  }

  lemma InStepStart(isa: Isa, image: Code, bs: seq<Breakpoint>, s: Core)
    requires DisabledOnlyAt(bs, s.pc)
    ensures InStep(isa, image, bs, s, 0, bs, s)
  {
    assert Iter(isa, image, s, 0) == Some(s);
  }

  lemma StillStarting(isa: Isa, image: Code, bs: seq<Breakpoint>, s: Core, i: nat, a: Addr)
    ensures DisabledAt(StepTable(isa, image, bs, s, i), a) && DisabledOnlyAt(bs, s.pc) ==>
              DisabledAt(bs, s.pc) && Stayed(isa, image, s, i)
  {
    hide Stayed;
  }

  lemma Advance(isa: Isa, image: Code, bs: seq<Breakpoint>, s: Core, i: nat, bs': seq<Breakpoint>, c: Core, c': Core)
    requires InStep(isa, image, bs, s, i, bs', c)
    requires c.pc !in EnabledAddrs(bs') && Next(isa, image, c) == Some(c')
    ensures InStep(isa, image, bs, s, i + 1, Rearm(bs', c'.pc), c')
  {
    IterAdd(isa, image, s, i, 1);
    assert Iter(isa, image, c', 0) == Some(c');
    RearmFacts(bs', c'.pc);
    SameAddrs(bs, bs');
    if c.pc in Addrs(bs') {
      EnabledOrDisabled(bs', c.pc);
      StillStarting(isa, image, bs, s, i, c.pc);
    }
    StepTableNext(isa, image, bs, s, i, c');
  }

  lemma PassedOne(isa: Isa, image: Code, bs: seq<Breakpoint>, s: Core, i: nat, now: seq<Breakpoint>, c: Core)
    requires InStep(isa, image, bs, s, i, now, c) && c.pc !in EnabledAddrs(now)
    ensures OnlyPassedStart(isa, image, bs, s, i + 1)
  {
    SameAddrs(bs, now);
    if c.pc in Addrs(now) {
      EnabledOrDisabled(now, c.pc);
      StillStarting(isa, image, bs, s, i, c.pc);
    }
  }

  lemma AlignedNow(isa: Isa, image: Code, patched: set<Addr>, s: Core)
    requires AlwaysAligned(isa, image, patched, s)
    ensures Aligned(isa, image, patched, s)
  {
    assert Iter(isa, image, s, 0) == Some(s);
  }

  /** A step from an armed breakpoint is a trap, whatever lies before the next instruction. */
  lemma TrapSettles(bs: seq<Breakpoint>, s: Core)
    requires Distinct(bs) && DisabledOnlyAt(bs, s.pc) && s.pc in EnabledAddrs(bs)
    ensures var c := s.(pc := s.pc + 1);
            Rearm(bs, c.pc) == bs && Trapping(bs, c.pc) && Settled(bs, c, s)
  {
    var c := s.(pc := s.pc + 1);
    var i :| 0 <= i < |bs| && bs[i].enabled && bs[i].addr == s.pc;
    forall j | 0 <= j < |bs| ensures bs[j].enabled {
      if j < i { } else if i < j { }
    }
    assert Rearm(bs, c.pc) == bs && bs[i] in bs && MatchesPc(c.pc, bs[i]);
  }

  lemma AlignedArmed(isa: Isa, image: Code, bs: seq<Breakpoint>, s: Core)
    requires AlwaysAligned(isa, image, Addrs(bs), s)
    ensures Aligned(isa, image, EnabledAddrs(bs), s)
  {
    AlignedSubset(isa, image, Addrs(bs), EnabledAddrs(bs), s);
    AlignedNow(isa, image, EnabledAddrs(bs), s);
  }

  lemma EndsNow(isa: Isa, image: Code, s: Core)
    ensures Next(isa, image, s) == None <==> Ends(isa, image, s, 1)
  {
    assert Iter(isa, image, s, 0) == Some(s);
    assert forall c: Core :: Iter(isa, image, c, 0) == Some(c);
  }

  lemma AlignedThere(isa: Isa, image: Code, bs: seq<Breakpoint>, s: Core, i: nat, now: seq<Breakpoint>, c: Core)
    requires SameBreaks(bs, now) && AlwaysAligned(isa, image, Addrs(bs), s) && Iter(isa, image, s, i) == Some(c)
    ensures Addrs(now) == Addrs(bs) && Aligned(isa, image, EnabledAddrs(now), c)
  {
    SameAddrs(bs, now);
    AlignedAfter(isa, image, Addrs(bs), s, i);
    AlignedArmed(isa, image, now, c);
  }

  /** One single step of the loop: a trap on the armed breakpoint it started on, or one instruction, which
      is taken for a trap exactly when it ends one past a breakpoint. */
  method StepFrom(d: Session, ghost bs: seq<Breakpoint>, ghost s: Core, ghost i: nat) returns (rc: int)
    requires d.AtPrompt() && InStep(d.isa, d.image, bs, s, i, d.Bps(), d.core)
    requires AlwaysAligned(d.isa, d.image, Addrs(bs), s)
    modifies d`requests, d`code, d`core, d`state, d`request, d.table
    ensures d.Ok({}) && SameBreaks(bs, d.Bps())
    ensures rc == 0 || rc == 1 || rc == -1
    ensures Answered(d.grants, old(d.requests), d.requests, rc >= 0)
    ensures d.state == Idle <==> rc == 1
    ensures rc == 1 ==> Ends(d.isa, d.image, s, i + 1) && OnlyPassedStart(d.isa, d.image, bs, s, i + 1)
    ensures rc == 0 ==> d.state == Stopped && (Trapping(d.Bps(), d.core.pc) <==> d.core.pc - 1 in Addrs(bs))
    ensures rc == 0 && old(d.core.pc) in EnabledAddrs(old(d.Bps())) ==>
              Trapping(d.Bps(), d.core.pc) && Settled(d.Bps(), d.core, old(d.core)) && d.Bps() == old(d.Bps())
    ensures rc == 0 && old(d.core.pc) !in EnabledAddrs(old(d.Bps())) ==>
              InStep(d.isa, d.image, bs, s, i + 1, d.Bps(), d.core)
  {
    hide Overlay, AlwaysAligned, Settled, Trapping, Aligned, MatchesPc, Iter;
    ghost var isa, image, now, c := d.isa, d.image, d.Bps(), d.core;
    OverlayFacts(image, now, {}, d.code);
    AlignedThere(isa, image, bs, s, i, now, c);
    rc := StepOnce(d);
    if rc == 1 {
      PassedOne(isa, image, bs, s, i, now, c);
      EndsNow(isa, image, c);
      EndsAdd(isa, image, s, i, c, 1);
    }
    if rc == 0 {
      TrappingAfterRearm(now, d.core.pc);
      if c.pc in EnabledAddrs(now) {
        TrapSettles(now, c);
      } else {
        Advance(isa, image, bs, s, i, now, c, d.core);
      }
    }
  }

  method ReportTrap(d: Session, ghost c: Core, ghost bs: seq<Breakpoint>, i: nat) returns (end: StepEnd)
    requires d.Ok({}) && d.state == Stopped && i < d.count && MatchesPc(d.core.pc, d.table[i])
    requires SameBreaks(bs, d.Bps())
    modifies d`requests, d`code, d`core, d`watches, d.table
    ensures d.Ok({}) && SameBreaks(bs, d.Bps())
    ensures (end.StepFailed? || end.AtBreakpoint?) && Answered(d.grants, old(d.requests), d.requests, end.AtBreakpoint?)
    ensures end.AtBreakpoint? ==>
              && d.core == old(d.core).(pc := old(d.core.pc) - 1)
              && end.index < d.count && d.table[end.index].addr == d.core.pc
              && d.Bps() == Disarmed(old(d.Bps()), BreakpointHit(end.index))
    ensures d.watches == old(d.watches)
    ensures end.AtBreakpoint? && Settled(old(d.Bps()), old(d.core), c) ==> d.AtPrompt() && d.core == c
  {
    assert d.table[i] in d.Bps();
    var rc, report := d.ReportStop(c);
    end := if rc == 0 then AtBreakpoint(report.index) else StepFailed;
  }

  /** After a step that hit nothing: has a watched value or the source line changed? */
  method Look(d: Session, start: Location) returns (end: StepEnd)
    modifies d`watches
    ensures end.AtWatch? || end.AtNewLine? || end.LimitExceeded?
    ensures end.AtWatch? ==> WatchHit(old(d.watches), d.core, end.index, d.watches)
    ensures !end.AtWatch? ==>
              && !WatchChanged(d.watches, d.core) && d.watches == old(d.watches)
              && (end.AtNewLine? <==> NewLine(d.lineAt, start, d.core.pc))
  {
    var hit := d.FindWatchpointHit();
    if hit.Some? {
      d.ReportWatchpoint(hit.value);
      return AtWatch(hit.value);
    }
    end := if NewLine(d.lineAt, start, d.core.pc) then AtNewLine else LimitExceeded;
  }

  /** The looks after a step, in their order: a trap, a watched value, the line. LimitExceeded here means that
      there is nothing to report. */
  method LookAround(d: Session, start: Location, ghost c: Core, ghost bs: seq<Breakpoint>) returns (end: StepEnd)
    requires d.Ok({}) && d.state == Stopped && SameBreaks(bs, d.Bps())
    modifies d`requests, d`code, d`core, d`watches, d.table
    ensures d.Ok({}) && SameBreaks(bs, d.Bps()) && !end.SteppedBlind? && !end.SteppedUnreported? && !end.StepFinished?
    ensures Answered(d.grants, old(d.requests), d.requests, !end.StepFailed?)
    ensures end.AtBreakpoint? ==>
              && Trapping(old(d.Bps()), old(d.core.pc))
              && d.core == old(d.core).(pc := old(d.core.pc) - 1)
              && end.index < d.count && d.table[end.index].addr == d.core.pc
              && d.Bps() == Disarmed(old(d.Bps()), BreakpointHit(end.index))
    ensures end.AtBreakpoint? && Settled(old(d.Bps()), old(d.core), c) ==> d.AtPrompt() && d.core == c
    ensures end.AtWatch? || end.AtNewLine? || end.LimitExceeded? ==>
              && !Trapping(old(d.Bps()), old(d.core.pc)) && d.core == old(d.core) && d.Bps() == old(d.Bps())
    ensures if end.AtWatch? then WatchHit(old(d.watches), d.core, end.index, d.watches) else d.watches == old(d.watches)
    ensures end.AtNewLine? || end.LimitExceeded? ==>
              !WatchChanged(d.watches, d.core) && (end.AtNewLine? <==> NewLine(d.lineAt, start, d.core.pc))
  {
    hide Overlay, Settled, SameBreaks, WatchChanged, NewLine, WatchHit;
    var rc := d.RefreshRegs();
    if rc != 0 { return StepFailed; }
    var trap := d.FindTrap(d.core.pc);
    if trap.Some? {
      assert d.table[trap.value] in d.Bps();
      end := ReportTrap(d, c, bs, trap.value);
    } else {
      end := Look(d, start);
    }
  }

  /** The `k`-th instruction ended one past a breakpoint, and was taken for a trap on it. */
  ghost predicate FalseHit(isa: Isa, image: Code, bs: seq<Breakpoint>, s: Core, k: nat) {
    k > 0 && Iter(isa, image, s, k).Some? && Iter(isa, image, s, k).value.pc - 1 in Addrs(bs)
  }

  lemma NeverFalseHit(isa: Isa, image: Code, bs: seq<Breakpoint>, s: Core, k: nat)
    requires NeverJustAfter(isa, image, Addrs(bs), s)
    ensures !FalseHit(isa, image, bs, s, k)
  {
  }

  /** One iteration: step, wait, look. LimitExceeded here means "nothing to report, go on"; `went` that an
      instruction was executed. */
  method StepAndLook(d: Session, start: Location, ghost bs: seq<Breakpoint>, ghost s: Core, ghost i: nat)
    returns (end: StepEnd, ghost went: bool)
    requires d.AtPrompt() && InStep(d.isa, d.image, bs, s, i, d.Bps(), d.core)
    requires AlwaysAligned(d.isa, d.image, Addrs(bs), s)
    modifies d`requests, d`code, d`core, d`state, d`request, d`watches, d.table
    ensures d.Ok({}) && SameBreaks(bs, d.Bps()) && !end.SteppedBlind? && !end.SteppedUnreported?
    ensures Answered(d.grants, old(d.requests), d.requests, !end.StepFailed?)
    ensures d.state == Idle <==> end.StepFinished?
    ensures end.StepFinished? ==> Ends(d.isa, d.image, s, i + 1) && OnlyPassedStart(d.isa, d.image, bs, s, i + 1)
    ensures end.AtBreakpoint? && !went ==>
              d.AtPrompt() && d.core == old(d.core) && d.Bps() == Disarmed(old(d.Bps()), BreakpointHit(end.index))
    ensures end.AtBreakpoint? && went ==>
              && FalseHit(d.isa, d.image, bs, s, i + 1) && OnlyPassedStart(d.isa, d.image, bs, s, i + 1)
              && d.Bps() == Disarmed(StepTable(d.isa, d.image, bs, s, i + 1), BreakpointHit(end.index))
              && var b := Iter(d.isa, d.image, s, i + 1).value; d.core == b.(pc := b.pc - 1)
    ensures end.AtBreakpoint? ==> end.index < d.count && d.table[end.index].addr == d.core.pc
    ensures end.AtWatch? || end.AtNewLine? || end.LimitExceeded? ==>
              && d.AtPrompt() && went && InStep(d.isa, d.image, bs, s, i + 1, d.Bps(), d.core)
              && !FalseHit(d.isa, d.image, bs, s, i + 1)
    ensures if end.AtWatch? then WatchHit(old(d.watches), d.core, end.index, d.watches) else d.watches == old(d.watches)
    ensures end.AtNewLine? || end.LimitExceeded? ==>
              !WatchChanged(d.watches, d.core) && (end.AtNewLine? <==> NewLine(d.lineAt, start, d.core.pc))
  {
    hide Overlay, AlwaysAligned, Settled, DisabledOnlyAt;
    ghost var c, now := d.core, d.Bps();
    went := c.pc !in EnabledAddrs(now);
    var rc := StepFrom(d, bs, s, i);
    if rc == 1 { return StepFinished, went; }
    if rc != 0 { return StepFailed, went; }
    AtPromptInStep(d.isa, d.image, bs, s, i + 1, d.Bps(), d.core);
    end := LookAround(d, start, c, bs);
  }

  lemma AtPromptInStep(isa: Isa, image: Code, bs: seq<Breakpoint>, s: Core, i: nat, bs': seq<Breakpoint>, c: Core)
    ensures InStep(isa, image, bs, s, i, bs', c) ==> DisabledOnlyAt(bs', c.pc)
  {
  }

  /** A step with no line known, as the report that ends it. */
  function Blind(end: StepEnd): Result {
    match end
    case SteppedBlind(report) => Reported(report)
    case SteppedUnreported => Unreported
    case _ => Fatal
  }

  lemma BlindTold(isa: Isa, image: Code, r: Result, end: StepEnd, bs: seq<Breakpoint>, s: Core, core: Core, bs': seq<Breakpoint>,
                  ws: seq<Watchpoint>, ws': seq<Watchpoint>)
    requires SiTold(isa, image, r, bs, s, core, bs', ws, ws')
    requires r == Blind(end) || (r.Finished? && Blind(end).Fatal?)
    ensures SiTold(isa, image, Blind(end), bs, s, core, bs', ws, ws')
  {
  }

  /** One step, told on the bare program. */
  lemma StepsBare(isa: Isa, image: Code, bs: seq<Breakpoint>, s: Core)
    ensures Stepped(isa, image, bs, s) == None || SiEffect(isa, image, bs, s) == None ==>
              Ends(isa, image, s, 1) && s.pc !in EnabledAddrs(bs)
    ensures s.pc !in EnabledAddrs(bs) ==> Stepped(isa, image, bs, s) == Iter(isa, image, s, 1)
    ensures NeverJustAfter(isa, image, Addrs(bs), s) && SiEffect(isa, image, bs, s).Some? ==>
              SiEffect(isa, image, bs, s) == Iter(isa, image, s, if s.pc in EnabledAddrs(bs) then 0 else 1)
  {
    EndsNow(isa, image, s);
    match Next(isa, image, s)
    case None =>
    case Some(s') =>
      assert Iter(isa, image, s', 0) == Some(s');
      assert Iter(isa, image, s, 1) == Some(s');
  }

  /** No line known at the pc: one instruction, then an ordinary stop report, whose failure is ignored. The
      thread ends where `si` would leave it. */
  method StepBlind(d: Session) returns (end: StepEnd, ghost k: nat)
    requires d.AtPrompt() && AlwaysAligned(d.isa, d.image, Addrs(d.Bps()), d.core)
    modifies d`requests, d`code, d`core, d`state, d`request, d`watches, d.table
    ensures d.Ok({}) && SameBreaks(old(d.Bps()), d.Bps())
    ensures k <= 1 && (end.StepFailed? || end.StepFinished? || end.SteppedBlind? || end.SteppedUnreported?)
    ensures Answered(d.grants, old(d.requests), d.requests, end.SteppedBlind? || end.StepFinished?)
    ensures end.SteppedBlind? ==> SiEffect(d.isa, d.image, old(d.Bps()), old(d.core)) == Some(d.core)
    ensures end.SteppedUnreported? ==> Stepped(d.isa, d.image, old(d.Bps()), old(d.core)) == Some(d.core)
    ensures SiTold(d.isa, d.image, Blind(end), old(d.Bps()), old(d.core), d.core, d.Bps(), old(d.watches), d.watches)
    ensures end.SteppedBlind? || end.SteppedUnreported? ==> (k == 0 <==> old(d.core.pc) in EnabledAddrs(old(d.Bps())))
    ensures (end.SteppedBlind? || (end.SteppedUnreported? && k == 1)) && old(d.Debuggable()) ==>
              d.AtPrompt() && Iter(d.isa, d.image, old(d.core), k) == Some(d.core)
    ensures d.state == Idle <==> end.StepFinished?
    ensures end.StepFinished? ==>
              k == 1 && Ends(d.isa, d.image, old(d.core), 1) && old(d.core.pc) !in EnabledAddrs(old(d.Bps()))
  {
    hide Overlay, AlwaysAligned, NeverJustAfter, SiEffect, Aligned, Stepped, SiTold, Iter;
    ghost var isa, image, bs, s, ws := d.isa, d.image, d.Bps(), d.core, d.watches;
    AlignedArmed(isa, image, bs, s);
    var r := StepAndReport(d);
    StepsBare(isa, image, bs, s);
    SiToldLands(isa, image, r, bs, s, d.core, d.Bps(), ws, d.watches);
    k := if s.pc in EnabledAddrs(bs) then 0 else 1;
    match r {
      case Reported(report) => end := SteppedBlind(report);
      case Unreported => end := SteppedUnreported;
      case Finished => end := StepFinished;
      case _ => end := StepFailed;
    }
    BlindTold(isa, image, r, end, bs, s, d.core, d.Bps(), ws, d.watches);
  }

  /** The run of `k` instructions from `s` to `c` ended there for the reason `end` gives, and for no reason
      before: no breakpoint passed, no watched value changed, no new line reached. A breakpoint hit is disarmed,
      a changed value remembered. */
  ghost predicate Earliest(isa: Isa, image: Code, lineAt: Addr -> Option<Location>, start: Location, bs: seq<Breakpoint>,
                           ws: seq<Watchpoint>, s: Core, end: StepEnd, k: nat, c: Core,
                           bs': seq<Breakpoint>, ws': seq<Watchpoint>) {
    var hit := end.AtBreakpoint? && !FalseHit(isa, image, bs, s, k);
    && OnlyPassedStart(isa, image, bs, s, k)
    && Quiet(isa, image, lineAt, ws, start, s, if hit || end.LimitExceeded? || k == 0 then k else k - 1)
    && var table := StepTable(isa, image, bs, s, k);
    match end
    case AtBreakpoint(i) =>
      && ws' == ws && i < |bs'| && bs' == Disarmed(table, BreakpointHit(i))
      && bs'[i].addr == (if FalseHit(isa, image, bs, s, k) then c.pc - 1 else c.pc)
    case AtWatch(i) => k > 0 && bs' == table && WatchHit(ws, c, i, ws')
    case AtNewLine => k > 0 && bs' == table && ws' == ws && !WatchChanged(ws, c) && NewLine(lineAt, start, c.pc)
    case LimitExceeded => k == MAX_STEP_ITERATIONS && bs' == table && ws' == ws
    case _ => false
  }

  /** A `step` right after one that ended for watchpoint `i`, and that leaves the memory watched alone, does not
      end for it. */
  lemma StepMovesOn(isa: Isa, image: Code, lineAt: Addr -> Option<Location>, start: Location, bs: seq<Breakpoint>,
                    ws0: seq<Watchpoint>, ws: seq<Watchpoint>, s: Core, i: nat, end: StepEnd, k: nat, c: Core,
                    bs': seq<Breakpoint>, ws': seq<Watchpoint>)
    requires WatchHit(ws0, s, i, ws) && Unaltered(s.data, c.data, ws0[i].addr, ws0[i].size)
    requires Earliest(isa, image, lineAt, start, bs, ws, s, end, k, c, bs', ws')
    ensures end != AtWatch(i)
  {
    RememberedIsQuiet(ws0, s, i, ws, c);
  }

  /** The program ends at the `k`-th instruction of a `step` from `s`, and nothing it would have stopped for
      came before. */
  ghost predicate EndsQuietly(isa: Isa, image: Code, lineAt: Addr -> Option<Location>, bs: seq<Breakpoint>,
                              ws: seq<Watchpoint>, s: Core, k: nat) {
    && Ends(isa, image, s, k)
    && match lineAt(s.pc)
       case None => k == 1 && s.pc !in EnabledAddrs(bs)
       case Some(start) =>
         k <= MAX_STEP_ITERATIONS && OnlyPassedStart(isa, image, bs, s, k) && Quiet(isa, image, lineAt, ws, start, s, k - 1)
  }

  /** Where `step` leaves the thread after `k` instructions: at the state they lead to, or, that being one past
      a breakpoint, on the breakpoint. */
  ghost predicate StepsTo(isa: Isa, image: Code, bs: seq<Breakpoint>, s: Core, end: StepEnd, k: nat, core: Core) {
    && Iter(isa, image, s, k).Some?
    && var b := Iter(isa, image, s, k).value;
    if FalseHit(isa, image, bs, s, k) then end.AtBreakpoint? && core == b.(pc := b.pc - 1) else core == b
  }

  /** So `step` is exact unless its last instruction ended one past a breakpoint. */
  lemma StepExactIff(isa: Isa, image: Code, bs: seq<Breakpoint>, s: Core, end: StepEnd, k: nat, core: Core)
    requires StepsTo(isa, image, bs, s, end, k, core)
    ensures Iter(isa, image, s, k) == Some(core) <==> !FalseHit(isa, image, bs, s, k)
  {
    var b := Iter(isa, image, s, k).value;
    if FalseHit(isa, image, bs, s, k) {
      assert core.pc != b.pc;
    }
  }

  /** The loop, with the line it started on known. */
  method StepLoop(d: Session, start: Location) returns (end: StepEnd, ghost k: nat)
    requires d.AtPrompt() && AlwaysAligned(d.isa, d.image, Addrs(d.Bps()), d.core)
    modifies d`requests, d`code, d`core, d`state, d`request, d`watches, d.table
    ensures d.Ok({}) && SameBreaks(old(d.Bps()), d.Bps()) && !end.SteppedBlind? && !end.SteppedUnreported?
    ensures Answered(d.grants, old(d.requests), d.requests, !end.StepFailed?) && k <= MAX_STEP_ITERATIONS
    ensures d.state == Idle <==> end.StepFinished?
    ensures end.StepFinished? ==>
              && Ends(d.isa, d.image, old(d.core), k) && OnlyPassedStart(d.isa, d.image, old(d.Bps()), old(d.core), k)
              && Quiet(d.isa, d.image, d.lineAt, old(d.watches), start, old(d.core), k - 1)
    ensures !end.StepFailed? && !end.StepFinished? ==>
              && StepsTo(d.isa, d.image, old(d.Bps()), old(d.core), end, k, d.core)
              && Earliest(d.isa, d.image, d.lineAt, start, old(d.Bps()), old(d.watches), old(d.core), end, k,
                          Iter(d.isa, d.image, old(d.core), k).value, d.Bps(), d.watches)
              && (!FalseHit(d.isa, d.image, old(d.Bps()), old(d.core), k) ==> d.AtPrompt())
    ensures end.StepFailed? || end.StepFinished? ==> d.watches == old(d.watches)
    ensures end.AtBreakpoint? ==> end.index < d.count && d.table[end.index].addr == d.core.pc
  {
    hide Overlay, AlwaysAligned, Rearm, DisabledAt, WatchChanged, Iter;
    ghost var bs, s, isa, image := d.Bps(), d.core, d.isa, d.image;
    InStepStart(isa, image, bs, s);
    k := 0;
    var i := 0;
    while i < MAX_STEP_ITERATIONS
      invariant i <= MAX_STEP_ITERATIONS
      invariant d.AtPrompt() && InStep(isa, image, bs, s, i, d.Bps(), d.core)
      invariant !FalseHit(isa, image, bs, s, i)
      invariant Quiet(isa, image, d.lineAt, d.watches, start, s, i)
      invariant d.watches == old(d.watches) && Answered(d.grants, old(d.requests), d.requests, true)
    {
      k := i;
      ghost var went;
      end, went := StepAndLook(d, start, bs, s, i);
      if !end.LimitExceeded? {
        k := if went || end.StepFinished? then i + 1 else i;
        return;
      }
      i := i + 1;
    }
    k := i;
    end := LimitExceeded;
  }

  method StepNextLine(d: Session) returns (end: StepEnd, ghost k: nat)
    requires d.AtPrompt() && AlwaysAligned(d.isa, d.image, Addrs(d.Bps()), d.core)
    modifies d`requests, d`code, d`core, d`state, d`request, d`watches, d.table
    ensures d.Ok({}) && SameBreaks(old(d.Bps()), d.Bps())
    ensures k <= MAX_STEP_ITERATIONS
    ensures Answered(d.grants, old(d.requests), d.requests, !end.StepFailed? && !end.SteppedUnreported?)
    ensures d.state == Idle <==> end.StepFinished?
    ensures end.StepFinished? ==> EndsQuietly(d.isa, d.image, d.lineAt, old(d.Bps()), old(d.watches), old(d.core), k)
    // with no line known it does what `si` does
    ensures end.SteppedBlind? || end.SteppedUnreported? ==>
              d.lineAt(old(d.core.pc)).None? && k == if old(d.core.pc) in EnabledAddrs(old(d.Bps())) then 0 else 1
    ensures end.SteppedBlind? ==> SiEffect(d.isa, d.image, old(d.Bps()), old(d.core)) == Some(d.core)
    ensures end.SteppedUnreported? ==> Stepped(d.isa, d.image, old(d.Bps()), old(d.core)) == Some(d.core)
    ensures end.SteppedBlind? || end.SteppedUnreported? || end.StepFailed? || end.StepFinished? ==>
              SiTold(d.isa, d.image, Blind(end), old(d.Bps()), old(d.core), d.core, d.Bps(), old(d.watches), d.watches)
    ensures (end.SteppedBlind? || (end.SteppedUnreported? && old(d.core.pc) !in EnabledAddrs(old(d.Bps())))) && old(d.Debuggable()) ==>
              d.AtPrompt() && Iter(d.isa, d.image, old(d.core), k) == Some(d.core)
    // else the stop is the earliest step at which something happened
    ensures end.AtBreakpoint? || end.AtWatch? || end.AtNewLine? || end.LimitExceeded? ==>
              && d.lineAt(old(d.core.pc)).Some?
              && StepsTo(d.isa, d.image, old(d.Bps()), old(d.core), end, k, d.core)
              && Earliest(d.isa, d.image, d.lineAt, d.lineAt(old(d.core.pc)).value, old(d.Bps()), old(d.watches),
                          old(d.core), end, k, Iter(d.isa, d.image, old(d.core), k).value, d.Bps(), d.watches)
              && (!FalseHit(d.isa, d.image, old(d.Bps()), old(d.core), k) ==> d.AtPrompt())
    ensures end.AtBreakpoint? ==> end.index < d.count && d.table[end.index].addr == d.core.pc
  {
    hide Overlay, AlwaysAligned, NeverJustAfter, Earliest, Stepped, SiEffect, StepsTo, FalseHit;
    var rc := d.RefreshRegs();
    if rc != 0 { return StepFailed, 0; }
    var start := d.lineAt(d.core.pc);
    if start.None? {
      end, k := StepBlind(d);
    } else {
      end, k := StepLoop(d, start.value);
    }
  }
}
