/** Many runs of the program under one debugger: `run`, the stop at its entry, any commands, and `run` again
    (src/debugger.c, cmd_run and cdbg_run). */
module Runs {
  import opened Basics
  import opened Machine
  import opened Sessions
  import opened TempBreakpoints
  import opened NextLines
  import opened Debugging
  import opened Restart

  /** A new process and what is done with it: its code and first state, its tables, where it is to stop first
      (within `budget` instructions), and the commands given then. */
  datatype Run = Run(code: Code, core: Core, lines: Addr -> Option<Location>, t: LineTable.Table, syms: Symbols,
                     entry: Option<Addr>, budget: nat, commands: seq<Command>)

  /** Where a `break` with this text sets its breakpoint in this process. */
  ghost function Resolves(parse: string -> Option<Spec>, run: Run): string -> Option<Addr> {
    Resolver(parse, run.t, run.syms)
  }

  /** The assumptions on a process, for breakpoints set with `texts` anywhere in `places`. */
  ghost predicate RunSuits(isa: Isa, parse: string -> Option<Spec>, run: Run, places: set<Addr>, texts: set<string>) {
    && Suits(isa, run.code, places, run.core)
    && (run.entry.Some? ==> TempSafe(isa, run.code, run.entry.value, run.core))
    && (forall text :: text in texts && Lands(Resolves(parse, run), run.code, text) ==> Resolves(parse, run)(text).value in places)
    && forall c :: c in run.commands ==> CommandWithin(c, places, texts)
  }

  /** How a run went: two breakpoints had come together, it did not get as far as the first prompt, or the
      commands were given. */
  datatype Fate = Clashed | EntryRefused | EntryOver | EntryLost | Given(end: CommandEnd)

  /** The requests made during a run, the state and table its commands began with, its prompts, and what it left. */
  datatype Log = Log(fate: Fate, lo: nat, began: nat, hi: nat, k: nat, c: Core, bs: seq<BP.Breakpoint>,
                     prompts: seq<Prompt>, at: Prompt, last: seq<BP.Breakpoint>, core: Core)

  /** The breakpoints as they are set again in the new process. */
  ghost function First(parse: string -> Option<Spec>, run: Run, before: seq<BP.Breakpoint>): seq<BP.Breakpoint> {
    Reinserted(Specs(before), Resolves(parse, run), run.code)
  }

  /** The first prompt of a run: at once, at the entry, or, the program coming neither there nor to a breakpoint,
      where it was stopped. */
  ghost predicate Entered(isa: Isa, run: Run, first: seq<BP.Breakpoint>, k: nat, c: Core) {
    && Iter(isa, run.code, run.core, k) == Some(c)
    && match run.entry
       case None => k == 0
       case Some(entry) =>
         if EntryFirst(isa, run.code, BP.Addrs(first), entry, run.core, run.budget) then
           c.pc == entry && Avoids(isa, run.code, run.core, k, entry) && NoneSkipped(isa, run.code, first, run.core, k)
         else !UserFirst(isa, run.code, BP.Addrs(first), entry, run.core, run.budget)
  }

  /** What `log` tells of a run that began with table `before`. */
  ghost predicate Recorded(isa: Isa, parse: string -> Option<Spec>, g: Answers, run: Run, before: seq<BP.Breakpoint>, log: Log) {
    var first := First(parse, run, before);
    && (log.fate.Clashed? <==> !NoClash(Specs(before), Resolves(parse, run), run.code))
    && match log.fate
       case Clashed => log.last == first
       case EntryRefused =>
         BP.SameBreaks(first, log.last) && run.entry.Some? && (!AllGranted(g, log.lo, log.hi) || run.entry.value !in run.code)
       case EntryOver =>
         && BP.SameBreaks(first, log.last) && run.entry.Some?
         && EndsAway(isa, run.code, first, run.entry.value, run.core, run.budget, log.k)
       case EntryLost =>
         && BP.SameBreaks(first, log.last) && run.entry.Some? && !Reaches(isa, run.code, run.core, log.core)
         && UserFirst(isa, run.code, BP.Addrs(first), run.entry.value, run.core, run.budget)
         && !EntryFirst(isa, run.code, BP.Addrs(first), run.entry.value, run.core, run.budget)
       case Given(end) =>
         && BP.SameBreaks(first, log.bs) && Entered(isa, run, first, log.k, log.c)
         && Prompts(isa, run.code, run.lines, g, log.c, Start(log.began, log.bs, []), run.commands, log.prompts) && log.last == log.at.bs
         && (end.Done? ==> |log.prompts| == |run.commands| + 1)
         && (end.Done? || end.TooLong? ==>
               log.at == log.prompts[|log.prompts| - 1] && Iter(isa, run.code, log.c, log.at.k) == Some(log.core))
         && (!end.Done? ==>
               Short(isa, run.code, run.lines, log.c, run.commands, log.prompts, log.at, log.core,
                     AllGranted(g, log.lo, log.hi), end))
  }

  lemma {:induction false} ReinsertedWithin(specs: seq<string>, resolve: string -> Option<Addr>, image: Code,
                                            places: set<Addr>, texts: set<string>)
    requires (forall text :: text in specs ==> text in texts)
    requires forall text :: text in texts && Lands(resolve, image, text) ==> resolve(text).value in places
    ensures Within(Reinserted(specs, resolve, image), places, texts)
  {
    if specs != [] {
      var front, last := specs[..|specs| - 1], specs[|specs| - 1];
      ReinsertedWithin(front, resolve, image, places, texts);
      if Lands(resolve, image, last) {
        var bs, before := Reinserted(specs, resolve, image), Reinserted(front, resolve, image);
        assert bs == before + [bs[|before|]];
        PushWithin(before, bs[|before|], places, texts);
      }
    }
  }

  lemma SpecsWithin(bs: seq<BP.Breakpoint>, texts: set<string>)
    requires Texts(bs) <= texts
    ensures forall text :: text in Specs(bs) ==> text in texts
  {
    forall i | 0 <= i < |bs| ensures Specs(bs)[i] in texts {
      assert bs[i] in bs && bs[i].spec in Texts(bs);
    }
  }

  method AnyTwice(d: Session) returns (twice: bool)
    requires d.count <= d.table.Length
    ensures twice <==> !BP.Distinct(d.Bps())
  {
    twice := exists i, j :: 0 <= i < j < d.count && d.table[i].addr == d.table[j].addr;
  }

  /** The breakpoints are set again; false when two of them clash. */
  method Restarted(d: Session, run: Run, parse: string -> Option<Spec>, ghost places: set<Addr>, ghost texts: set<string>)
    returns (whole: bool)
    requires d.count <= d.table.Length == BP.MAX_BREAKPOINTS && Local(d.isa)
    requires Texts(d.Bps()) <= texts && RunSuits(d.isa, parse, run, places, texts)
    modifies d, d.table
    ensures d.count <= d.table.Length && d.requests == old(d.requests) && d.watches == [] && d.state == Stopped
    ensures d.core == run.core && d.image == run.code && d.lineAt == run.lines
    ensures d.Bps() == First(parse, run, old(d.Bps())) && Within(d.Bps(), places, texts)
    ensures whole <==> NoClash(Specs(old(d.Bps())), Resolves(parse, run), run.code)
    ensures whole ==> d.AtPrompt() && forall b :: b in d.Bps() ==> b.enabled
  {
    hide Reinserted, NoClash, Suits, TempSafe, BP.Overlay, Patch;
    hide BP.Distinct, Within, CommandWithin, Kept, DisabledOnlyAt;
    ghost var specs, resolve := Specs(d.Bps()), Resolves(parse, run);
    SpecsWithin(d.Bps(), texts);
    Rerun(d, run.code, run.core, run.lines, parse, run.t, run.syms);
    ReinsertedWithin(specs, resolve, run.code, places, texts);
    ReinsertedOrder(specs, resolve, run.code);
    ReinsertedSoundIff(specs, resolve, run.code);
    var twice := AnyTwice(d);
    whole := !twice;
  }

  /** A thread not taken back is at a state of the program exactly when it is one past no breakpoint. */
  lemma ElsewhereIff(isa: Isa, image: Code, bs: seq<BP.Breakpoint>, s: Core, k: nat, bs': seq<BP.Breakpoint>, c: Core)
    requires NeverJustAfter(isa, image, BP.Addrs(bs), s) && BP.SameBreaks(bs, bs') && Settles(isa, image, s, k, bs', c)
    ensures Reaches(isa, image, s, c) <==> c.pc - 1 !in BP.Addrs(bs')
  {
    BP.SameAddrs(bs, bs');
    UnrewoundIsNoState(isa, image, bs', s, k, c);
    if Trapping(bs', c.pc) {
      var x :| x in bs' && BP.MatchesPc(c.pc, x);
      assert x.addr in BP.Addrs(bs');
    } else if c.pc - 1 in BP.Addrs(bs') {
      PastIsLost(isa, image, BP.Addrs(bs), s, c);
    }
  }

  /** The run to the entry. */
  method Enter(d: Session, run: Run, entry: Addr, ghost places: set<Addr>) returns (fate: Fate, ghost k: nat)
    requires d.AtPrompt() && (forall b :: b in d.Bps() ==> b.enabled) && d.image == run.code && d.core == run.core
    requires run.entry == Some(entry) && Suits(d.isa, run.code, places, run.core) && BP.Addrs(d.Bps()) <= places
    requires TempSafe(d.isa, run.code, entry, run.core)
    modifies d`requests, d`code, d`core, d`state, d`request, d.table
    ensures old(d.requests) <= d.requests && d.count <= d.table.Length && BP.SameBreaks(old(d.Bps()), d.Bps()) && !fate.Clashed?
    ensures fate.Given? ==>
              fate.end.Done? && d.AtPrompt() && Entered(d.isa, run, old(d.Bps()), k, d.core)
    ensures d.state == Idle <==> fate.EntryOver?
    ensures fate.EntryRefused? ==> !AllGranted(d.grants, old(d.requests), d.requests) || entry !in run.code
    ensures fate.EntryOver? ==> EndsAway(d.isa, run.code, old(d.Bps()), entry, run.core, run.budget, k)
    ensures fate.EntryLost? ==>
              && !Reaches(d.isa, run.code, run.core, d.core)
              && UserFirst(d.isa, run.code, BP.Addrs(old(d.Bps())), entry, run.core, run.budget)
              && !EntryFirst(d.isa, run.code, BP.Addrs(old(d.Bps())), entry, run.core, run.budget)
  {
    hide Suits, TempSafe, BP.Overlay, AlwaysAligned, NeverJustAfter, NoneSkipped;
    hide Avoids, UserFirst, EntryFirst, Reaches, EndsAway;
    ghost var bs := d.Bps();
    SuitsTable(d.isa, run.code, places, run.core, bs);
    var end;
    end, k := RunToEntry(d, entry, run.budget);
    GrantedIff(d.grants, old(d.requests), d.requests, !end.EntryFailed? || Answered(d.grants, old(d.requests), d.requests, true));
    BP.SameAddrs(bs, d.Bps());
    var past := JustPast(d);
    if end.StoppedElsewhere? {
      ElsewhereIff(d.isa, run.code, bs, run.core, k, d.Bps(), d.core);
    }
    match end {
      case AtEntry => fate := Given(Done);
      case StoppedElsewhere => fate := if past then EntryLost else Given(Done);
      case EntryGone => fate := EntryOver;
      case EntryFailed => fate := EntryRefused;
    }
  }

  /** After these a debugger has ended. */
  predicate Quits(fate: Fate) {
    fate.Given? && (fate.end.Failed? || fate.end.TooLong?)
  }

  predicate ProgramOver(fate: Fate) {
    fate.EntryOver? || (fate.Given? && fate.end.Over?)
  }

  lemma EnteredAt(isa: Isa, run: Run, places: set<Addr>, first: seq<BP.Breakpoint>, k: nat, c: Core)
    requires Suits(isa, run.code, places, run.core) && Entered(isa, run, first, k, c)
    ensures Suits(isa, run.code, places, c)
  {
    SuitsAfter(isa, run.code, places, run.core, k);
  }

  lemma WithinTexts(bs: seq<BP.Breakpoint>, places: set<Addr>, texts: set<string>)
    requires Within(bs, places, texts)
    ensures BP.Addrs(bs) <= places && Texts(bs) <= texts
  {
  }

  lemma EnteredNow(isa: Isa, run: Run, first: seq<BP.Breakpoint>)
    requires run.entry.None?
    ensures Entered(isa, run, first, 0, run.core)
  {
  }

  lemma ShortLater(isa: Isa, image: Code, lineAt: Addr -> Option<Location>, s: Core, commands: seq<Command>, prompts: seq<Prompt>,
                   at: Prompt, c: Core, g: Answers, lo: nat, mid: nat, hi: nat, end: CommandEnd)
    requires lo <= mid
    ensures Short(isa, image, lineAt, s, commands, prompts, at, c, AllGranted(g, mid, hi), end) ==>
              Short(isa, image, lineAt, s, commands, prompts, at, c, AllGranted(g, lo, hi), end)
  {
    hide Iter, EndsIn, NoWayOn, Reaches;
  }

  /** The log of a run that has just begun. */
  ghost predicate Begun(fate: Fate, log: Log, lo: nat, hi: nat, k: nat, c: Core, bs: seq<BP.Breakpoint>) {
    log.fate == fate && log.lo == lo && log.hi == hi && log.k == k && log.core == c && log.last == bs
  }

  /** The process and the way to its first prompt. */
  method Begin(d: Session, run: Run, parse: string -> Option<Spec>, ghost places: set<Addr>, ghost texts: set<string>)
    returns (fate: Fate, ghost k: nat)
    requires d.count <= d.table.Length == BP.MAX_BREAKPOINTS && Local(d.isa)
    requires Texts(d.Bps()) <= texts && RunSuits(d.isa, parse, run, places, texts)
    modifies d, d.table
    ensures d.count <= d.table.Length && Within(d.Bps(), places, texts) && old(d.requests) <= d.requests
    ensures d.image == run.code && d.lineAt == run.lines && d.watches == [] && (d.state == Idle <==> fate.EntryOver?)
    ensures fate.Given? ==> fate.end.Done? && d.AtPrompt() && Suits(d.isa, run.code, places, d.core)
    ensures forall log: Log :: Begun(fate, log, old(d.requests), d.requests, k, d.core, d.Bps()) && !fate.Given? ==>
              Recorded(d.isa, parse, d.grants, run, old(d.Bps()), log)
    ensures fate.Given? ==>
              && NoClash(Specs(old(d.Bps())), Resolves(parse, run), run.code)
              && BP.SameBreaks(First(parse, run, old(d.Bps())), d.Bps())
              && Entered(d.isa, run, First(parse, run, old(d.Bps())), k, d.core)
  {
    hide Suits, TempSafe, BP.Overlay, Reinserted, NoClash, Entered, Within, CommandWithin, Reaches, AllGranted;
    hide EndsAway, UserFirst, EntryFirst, AlwaysAligned, BP.Addrs;
    var whole := Restarted(d, run, parse, places, texts);
    ghost var first := d.Bps();
    WithinTexts(first, places, texts);
    k := 0;
    if !whole {
      return Clashed, 0;
    }
    if run.entry.Some? {
      fate, k := Enter(d, run, run.entry.value, places);
    } else {
      fate := Given(Done);
      EnteredNow(d.isa, run, first);
    }
    SameWithin(first, d.Bps(), places, texts);
    if fate.Given? {
      EnteredAt(d.isa, run, places, first, k, d.core);
    }
  }

  /** `run` and the commands after it. */
  method RunOnce(d: Session, run: Run, parse: string -> Option<Spec>, ghost places: set<Addr>, ghost texts: set<string>)
    returns (quits: bool, ghost log: Log)
    requires d.count <= d.table.Length == BP.MAX_BREAKPOINTS && Local(d.isa)
    requires Texts(d.Bps()) <= texts && RunSuits(d.isa, parse, run, places, texts)
    modifies d, d.table
    ensures d.count <= d.table.Length && Texts(d.Bps()) <= texts
    ensures log.lo == old(d.requests) && log.hi == d.requests >= log.lo
    ensures log.last == d.Bps() && log.core == d.core && d.image == run.code
    ensures Recorded(d.isa, parse, d.grants, run, old(d.Bps()), log)
    ensures log.fate.Given? && (log.fate.end.Done? || log.fate.end.TooLong?) ==> d.AtPrompt()
    ensures d.state == Idle <==> ProgramOver(log.fate)
    ensures quits <==> Quits(log.fate)
  {
    hide Suits, TempSafe, BP.Overlay, Reinserted, NoClash, Short;
    hide Prompts, Entered, Within, CommandWithin, Reaches, AllGranted;
    ghost var lo := d.requests;
    var fate;
    ghost var k;
    fate, k := Begin(d, run, parse, places, texts);
    ghost var bs, c, middle := d.Bps(), d.core, d.requests;
    WithinTexts(bs, places, texts);
    log := Log(fate, lo, middle, middle, k, c, bs, [], Start(middle, bs, []), bs, c);
    if !fate.Given? {
      return false, log;
    }
    var end;
    ghost var prompts, at := [], Start(middle, bs, []);
    end, prompts, at := Debug(d, run.commands, places, texts);
    ShortLater(d.isa, run.code, run.lines, c, run.commands, prompts, at, d.core, d.grants, lo, middle, d.requests, end);
    WithinTexts(d.Bps(), places, texts);
    log := Log(Given(end), lo, middle, d.requests, k, c, bs, prompts, at, d.Bps(), d.core);
    quits := end.Failed? || end.TooLong?;
  }

  /** The table a run begins with: what the run before it left. */
  ghost function LeftBefore(bs: seq<BP.Breakpoint>, logs: seq<Log>, i: nat): seq<BP.Breakpoint>
    requires i <= |logs|
  {
    if i == 0 then bs else logs[i - 1].last
  }

  ghost predicate RecordedAt(isa: Isa, parse: string -> Option<Spec>, g: Answers, runs: seq<Run>, bs: seq<BP.Breakpoint>,
                             logs: seq<Log>, i: nat, lo: nat, hi: nat)
    requires i < |logs| <= |runs|
  {
    && Recorded(isa, parse, g, runs[i], LeftBefore(bs, logs, i), logs[i])
    && lo <= logs[i].lo <= logs[i].hi <= hi
    && (Quits(logs[i].fate) ==> i == |logs| - 1)
  }

  /** One run after another, from table `bs`, making requests `lo` to `hi`; only a refused request, or a command
      that gave up, is the end of the debugger. */
  ghost predicate Chain(isa: Isa, parse: string -> Option<Spec>, g: Answers, runs: seq<Run>, bs: seq<BP.Breakpoint>,
                        logs: seq<Log>, lo: nat, hi: nat) {
    |logs| <= |runs| && forall i :: 0 <= i < |logs| ==> RecordedAt(isa, parse, g, runs, bs, logs, i, lo, hi)
  }

  lemma ChainGrows(isa: Isa, parse: string -> Option<Spec>, g: Answers, runs: seq<Run>, bs: seq<BP.Breakpoint>,
                   logs: seq<Log>, log: Log, lo: nat, hi: nat)
    requires Chain(isa, parse, g, runs, bs, logs, lo, log.lo) && |logs| < |runs| && lo <= log.lo <= log.hi == hi
    requires logs != [] ==> !Quits(logs[|logs| - 1].fate)
    requires Recorded(isa, parse, g, runs[|logs|], LeftBefore(bs, logs, |logs|), log)
    ensures Chain(isa, parse, g, runs, bs, logs + [log], lo, hi)
  {
    hide Recorded;
    var all := logs + [log];
    forall i | 0 <= i < |all| ensures RecordedAt(isa, parse, g, runs, bs, all, i, lo, hi) {
      assert LeftBefore(bs, all, i) == LeftBefore(bs, logs, i);
      if i < |logs| {
        assert RecordedAt(isa, parse, g, runs, bs, logs, i, lo, log.lo);
      }
    }
  }

  lemma NoRuns(isa: Isa, parse: string -> Option<Spec>, g: Answers, runs: seq<Run>, bs: seq<BP.Breakpoint>, lo: nat)
    ensures Chain(isa, parse, g, runs, bs, [], lo, lo)
  {
  }

  /** Where a run has left the debugger. */
  ghost predicate At(d: Session, run: Run, log: Log)
    reads d
  {
    d.image == run.code && d.core == log.core && (d.state == Idle <==> ProgramOver(log.fate))
  }

  /** However often the program is run again, whatever commands are given each time and however each run ends:
      every run begins with the breakpoints the one before it left, set again, and goes as one session does. */
  method DebugRuns(d: Session, runs: seq<Run>, parse: string -> Option<Spec>, ghost places: seq<set<Addr>>, ghost texts: set<string>)
    returns (ghost logs: seq<Log>)
    requires d.count <= d.table.Length == BP.MAX_BREAKPOINTS && Local(d.isa) && Texts(d.Bps()) <= texts
    requires |places| == |runs| && forall i :: 0 <= i < |runs| ==> RunSuits(d.isa, parse, runs[i], places[i], texts)
    modifies d, d.table
    ensures d.count <= d.table.Length
    ensures Chain(d.isa, parse, d.grants, runs, old(d.Bps()), logs, old(d.requests), d.requests)
    ensures |logs| <= |runs|
    ensures |logs| == |runs| || (logs != [] && Quits(logs[|logs| - 1].fate))
    ensures d.Bps() == LeftBefore(old(d.Bps()), logs, |logs|)
    ensures logs != [] ==> At(d, runs[|logs| - 1], logs[|logs| - 1])
  {
    hide Recorded, RunSuits, Texts, Chain;
    ghost var bs, lo := d.Bps(), d.requests;
    logs := [];
    NoRuns(d.isa, parse, d.grants, runs, bs, lo);
    for i := 0 to |runs|
      invariant |logs| == i && d.count <= d.table.Length && Texts(d.Bps()) <= texts && lo <= d.requests
      invariant d.Bps() == LeftBefore(bs, logs, i) && (i > 0 ==> !Quits(logs[i - 1].fate) && At(d, runs[i - 1], logs[i - 1]))
      invariant Chain(d.isa, parse, d.grants, runs, bs, logs, lo, d.requests)
    {
      ghost var log;
      var quits;
      quits, log := RunOnce(d, runs[i], parse, places[i], texts);
      ChainGrows(d.isa, parse, d.grants, runs, bs, logs, log, lo, d.requests);
      logs := logs + [log];
      if quits {
        return;
      }
    }
  }
}
