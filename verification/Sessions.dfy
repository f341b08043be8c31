/** The stop-and-resume core of the debugger (src/debugger.c): one debuggee thread, the
    breakpoint table, and the calls every command is built from. */
module Sessions {
  import opened Basics
  import opened Machine
  import opened Breakpoints
  import opened WatchTable

  datatype RunState = Idle | Running | Stopped

  datatype Request = StepOne | Continue

  datatype Location = Location(file: string, line: nat)

  /** What a command reports to the user. */
  datatype Report = BreakpointHit(index: nat) | WatchpointHit(index: nat) | PlainStop

  /** The thread is where bare state `k` is, or one past it on a trap it has just hit. */
  ghost predicate Arrived(isa: Isa, image: Code, patched: set<Addr>, s: Core, k: nat, c: Core) {
    && Iter(isa, image, s, k).Some?
    && Unpatched(isa, image, patched, s, k)
    && var b := Iter(isa, image, s, k).value;
    c == b || (b.pc in patched && c == b.(pc := b.pc + 1))
  }

  /** A run stops after `n` instructions, or sooner at a trap instruction of the program's own. */
  ghost predicate RanOut(isa: Isa, image: Code, s: Core, k: nat, n: nat) {
    k == n || (0 < k < n && Iter(isa, image, s, k - 1).Some? && IsTrap(image, Iter(isa, image, s, k - 1).value.pc))
  }

  /** A resumed thread that stopped again is at a bare state, or has trapped right at one. */
  lemma Arrive(isa: Isa, image: Code, patched: set<Addr>, s: Core, n: nat) returns (k: nat)
    requires Local(isa) && patched <= image.Keys && AlwaysAligned(isa, image, patched, s)
    ensures var stop := Resume(isa, Patch(image, patched), s, n);
            if stop.Exited? then
              k < n && Ends(isa, image, s, k + 1) && Unpatched(isa, image, patched, s, k + 1)
            else Arrived(isa, image, patched, s, k, stop.core)
    ensures var stop := Resume(isa, Patch(image, patched), s, n);
            !stop.Exited? && Iter(isa, image, s, k) == Some(stop.core) ==> RanOut(isa, image, s, k, n)
    ensures n == 1 && s.pc !in patched && !Resume(isa, Patch(image, patched), s, n).Exited? ==>
              k == 1 && Iter(isa, image, s, 1) == Some(Resume(isa, Patch(image, patched), s, n).core)
  {
    k := ResumeIsBare(isa, image, patched, s, n);
    var stop := Resume(isa, Patch(image, patched), s, n);
    assert Iter(isa, image, s, 0) == Some(s);
    if stop.Trapped? && Iter(isa, image, s, k).value.pc !in patched {
      k := k + 1;
    }
  }

  ghost predicate DisabledAt(bs: seq<Breakpoint>, pc: Addr) {
    exists b :: b in bs && !b.enabled && b.addr == pc
  }

  ghost predicate DisabledOnlyAt(bs: seq<Breakpoint>, pc: Addr) {
    forall b :: b in bs && !b.enabled ==> b.addr == pc
  }

  ghost predicate Trapping(bs: seq<Breakpoint>, pc: Addr) {
    exists b :: b in bs && MatchesPc(pc, b)
  }

  /** A breakpoint address is passed only as the address the run started on, disabled there
      because it had been hit, and beyond the first instruction only if that one jumped to itself. */
  ghost predicate NoneSkipped(isa: Isa, image: Code, bs: seq<Breakpoint>, s: Core, k: nat) {
    forall j: nat :: j < k ==>
      && Iter(isa, image, s, j).Some?
      && (Iter(isa, image, s, j).value.pc in Addrs(bs) ==>
            && Iter(isa, image, s, j).value.pc == s.pc && DisabledAt(bs, s.pc)
            && (j == 0 || Iter(isa, image, s, 1).value.pc == s.pc))
  }

  /** The breakpoint a run starts on is passed again after its first instruction. */
  ghost predicate PassedAgain(isa: Isa, image: Code, s: Core, k: nat) {
    exists j: nat :: 0 < j < k && Iter(isa, image, s, j).Some? && Iter(isa, image, s, j).value.pc == s.pc
  }

  /** A breakpoint stepped off stays unarmed exactly when its instruction left the pc in place. */
  lemma UnarmedIffStays(bs: seq<Breakpoint>, s: Core, s1: Core)
    requires Distinct(bs) && DisabledAt(bs, s.pc)
    ensures s.pc !in EnabledAddrs(Rearm(bs, s1.pc)) <==> s1.pc == s.pc
  {
    var bs' := Rearm(bs, s1.pc);
    var i :| 0 <= i < |bs| && !bs[i].enabled && bs[i].addr == s.pc;
    assert bs'[i] in bs';
    forall j | 0 <= j < |bs'| && bs'[j].enabled && bs'[j].addr == s.pc ensures j == i {
      if j < i { } else if i < j { }
    }
  }

  lemma EnabledOrDisabled(bs: seq<Breakpoint>, a: Addr)
    requires a in Addrs(bs)
    ensures a in EnabledAddrs(bs) || DisabledAt(bs, a)
  {
    var b :| b in bs && b.addr == a;
  }

  lemma RearmFacts(bs: seq<Breakpoint>, pc: Addr)
    ensures SameBreaks(bs, Rearm(bs, pc)) && Addrs(Rearm(bs, pc)) == Addrs(bs)
    ensures DisabledOnlyAt(Rearm(bs, pc), pc)
    ensures forall a :: DisabledAt(Rearm(bs, pc), a) ==> DisabledAt(bs, a)
    ensures EnabledAddrs(bs) <= EnabledAddrs(Rearm(bs, pc))
  {
    var bs' := Rearm(bs, pc);
    SameAddrs(bs, bs');
    forall a | DisabledAt(bs', a) ensures DisabledAt(bs, a) {
      var i :| 0 <= i < |bs'| && !bs'[i].enabled && bs'[i].addr == a;
      assert bs[i] in bs;
    }
    forall a | a in EnabledAddrs(bs) ensures a in EnabledAddrs(bs') {
      var i :| 0 <= i < |bs| && bs[i].enabled && bs[i].addr == a;
      assert bs'[i] in bs';
    }
  }

  /** The table once its first `i` entries are armed again. */
  ghost function RearmedTo(bs: seq<Breakpoint>, pc: Addr, i: nat): (r: seq<Breakpoint>)
    requires i <= |bs|
    ensures |r| == |bs|
    decreases i
  {
    if i == 0 then bs else RearmedTo(bs, pc, i - 1)[i - 1 := Rearmed(bs[i - 1], pc)]
  }

  lemma {:induction false} RearmedToIs(bs: seq<Breakpoint>, pc: Addr, i: nat)
    requires i <= |bs|
    ensures RearmedTo(bs, pc, i) == Rearm(bs, pc)[..i] + bs[i..]
    decreases i
  {
    if i > 0 {
      RearmedToIs(bs, pc, i - 1);
    }
  }

  lemma RearmedNext(bs: seq<Breakpoint>, pc: Addr, i: nat)
    requires i < |bs|
    ensures RearmedTo(bs, pc, i)[i] == bs[i]
  {
    RearmedToIs(bs, pc, i);
  }

  /** With table `bs`, a thread at `c` has stopped for bare state `b`: it is there, or one past
      it on the trap it has just executed. */
  ghost predicate Settled(bs: seq<Breakpoint>, c: Core, b: Core) {
    if Trapping(bs, c.pc) then c == b.(pc := b.pc + 1) && (forall x :: x in bs ==> x.enabled)
    else c == b && DisabledOnlyAt(bs, c.pc)
  }

  /** Nothing to mistake for a hit: no disabled breakpoint is one past another, and a thread stopped at
      bare state `b` without a trap is one past none. */
  ghost predicate NotJustAfter(bs: seq<Breakpoint>, b: Core, c: Core) {
    && (forall y :: y in bs && !y.enabled ==> y.addr - 1 !in Addrs(bs))
    && (c == b ==> b.pc - 1 !in Addrs(bs))
  }

  lemma NeverIsNot(isa: Isa, image: Code, bs: seq<Breakpoint>, s: Core, k: nat, c: Core)
    requires NeverJustAfter(isa, image, Addrs(bs), s) && Iter(isa, image, s, k).Some? && DisabledOnlyAt(bs, s.pc)
    ensures NotJustAfter(bs, Iter(isa, image, s, k).value, c)
  {
    assert Iter(isa, image, s, 0) == Some(s);
  }

  lemma RearmNotJustAfter(bs: seq<Breakpoint>, pc: Addr, b: Core, c: Core)
    requires NotJustAfter(bs, b, c)
    ensures NotJustAfter(Rearm(bs, pc), b, c)
  {
    RearmFacts(bs, pc);
    forall y | y in Rearm(bs, pc) && !y.enabled ensures y.addr - 1 !in Addrs(bs) {
      assert DisabledAt(Rearm(bs, pc), y.addr);
      assert DisabledAt(bs, y.addr);
    }
  }

  /** A stop is then a breakpoint match exactly when the thread has trapped on one; rewinding it
      gives the bare state, and no other breakpoint is left disabled. */
  lemma Settle(isa: Isa, image: Code, bs: seq<Breakpoint>, s: Core, k: nat, c: Core)
    requires Arrived(isa, image, EnabledAddrs(bs), s, k, c)
    requires NotJustAfter(bs, Iter(isa, image, s, k).value, c)
    ensures Settled(Rearm(bs, c.pc), c, Iter(isa, image, s, k).value)
    ensures Trapping(Rearm(bs, c.pc), c.pc) ==> Iter(isa, image, s, k).value.pc in EnabledAddrs(bs)
  {
    var bs' := Rearm(bs, c.pc);
    var b := Iter(isa, image, s, k).value;
    RearmFacts(bs, c.pc);
    RearmNotJustAfter(bs, c.pc, b, c);
    if c != b {
      var x :| x in bs' && x.enabled && x.addr == b.pc;
      assert MatchesPc(c.pc, x);
    }
    if Trapping(bs', c.pc) {
      var x :| x in bs' && MatchesPc(c.pc, x);
      assert x.addr in Addrs(bs');
    }
  }

  /** Stepping off a disabled breakpoint and then running freely skips no other breakpoint. */
  lemma SkipsNone(isa: Isa, image: Code, bs: seq<Breakpoint>, s: Core, k1: nat, s1: Core, bs1: seq<Breakpoint>, k2: nat)
    requires Iter(isa, image, s, k1) == Some(s1) && k1 <= 1
    requires DisabledOnlyAt(bs, s.pc) && (k1 == 1 <==> DisabledAt(bs, s.pc))
    requires bs1 == if k1 == 0 then bs else Rearm(bs, s1.pc)
    requires Unpatched(isa, image, EnabledAddrs(bs1), s1, k2)
    ensures NoneSkipped(isa, image, bs, s, k1 + k2)
  {
    RearmFacts(bs, s1.pc);
    forall j: nat | j < k1 + k2
      ensures Iter(isa, image, s, j).Some?
      ensures Iter(isa, image, s, j).value.pc in Addrs(bs) ==>
                && Iter(isa, image, s, j).value.pc == s.pc && DisabledAt(bs, s.pc)
                && (j == 0 || Iter(isa, image, s, 1).value.pc == s.pc)
    {
      if j >= k1 {
        IterAdd(isa, image, s, k1, j - k1);
        var a := Iter(isa, image, s, j).value.pc;
        if a in Addrs(bs) {
          EnabledOrDisabled(bs1, a);
        }
      }
    }
  }

  lemma OneDisabled(bs: seq<Breakpoint>, i: nat)
    requires i < |bs|
    ensures (forall b :: b in bs ==> b.enabled) ==> DisabledOnlyAt(bs[i := bs[i].(enabled := false)], bs[i].addr)
  {
  }

  lemma OffDisabled(image: Code, bs: seq<Breakpoint>, temps: set<Addr>, code: Code, a: Addr)
    requires Overlay(image, bs, temps, code) && DisabledAt(bs, a)
    ensures a !in EnabledAddrs(bs) + temps
  {
    var i :| 0 <= i < |bs| && !bs[i].enabled && bs[i].addr == a;
    forall j | 0 <= j < |bs| && bs[j].enabled ensures bs[j].addr != a {
      if j < i { } else if i < j { }
    }
  }

  /** A single step from a disabled breakpoint is the bare instruction there. */
  lemma StepOff(isa: Isa, image: Code, bs: seq<Breakpoint>, temps: set<Addr>, code: Code, s: Core)
    requires Local(isa) && Overlay(image, bs, temps, code) && DisabledAt(bs, s.pc)
    requires AlwaysAligned(isa, image, Addrs(bs) + temps, s)
    ensures var stop := Resume(isa, code, s, 1);
            Iter(isa, image, s, 1) == if stop.Exited? then None else Some(stop.core)
  {
    OffDisabled(image, bs, temps, code, s.pc);
    AlignedSubset(isa, image, Addrs(bs) + temps, EnabledAddrs(bs) + temps, s);
    var k := Arrive(isa, image, EnabledAddrs(bs) + temps, s, 1);
    assert Iter(isa, image, s, 0) == Some(s);
  }

  lemma AlignedSubset(isa: Isa, image: Code, big: set<Addr>, small: set<Addr>, s: Core)
    requires AlwaysAligned(isa, image, big, s) && small <= big
    ensures AlwaysAligned(isa, image, small, s)
  {
    forall j: nat | Iter(isa, image, s, j).Some?
      ensures Aligned(isa, image, small, Iter(isa, image, s, j).value)
    {
      assert Aligned(isa, image, big, Iter(isa, image, s, j).value);
    }
  }

  /** Watchpoint `i` is the first whose value has changed, and that value is remembered. */
  ghost predicate WatchHit(ws: seq<Watchpoint>, c: Core, i: nat, ws': seq<Watchpoint>) {
    && i < |ws| && Changed(c.data, ws[i]) && (forall j :: 0 <= j < i ==> !Changed(c.data, ws[j]))
    && ws' == Noted(c.data, ws, i)
  }

  /** A value just reported does not count as changed until its memory is altered again. */
  lemma RememberedIsQuiet(ws: seq<Watchpoint>, c: Core, i: nat, ws': seq<Watchpoint>, c': Core)
    requires WatchHit(ws, c, i, ws') && Unaltered(c.data, c'.data, ws[i].addr, ws[i].size)
    ensures |ws'| == |ws| && !Changed(c'.data, ws'[i])
    ensures forall j :: 0 <= j < |ws| && j != i ==> ws'[j] == ws[j]
  {
    SameRead(c.data, c'.data, ws[i].addr, ws[i].size);
  }

  /** The table once a report has been made: a breakpoint hit is disarmed. */
  function Disarmed(bs: seq<Breakpoint>, report: Report): seq<Breakpoint> {
    if report.BreakpointHit? && report.index < |bs| then bs[report.index := bs[report.index].(enabled := false)] else bs
  }

  /** What a report says about the stop it was made at: table `bs`, thread at `c`, watchpoints `ws`
      before it and `ws'` after. */
  ghost predicate Explains(report: Report, bs: seq<Breakpoint>, c: Core, ws: seq<Watchpoint>, ws': seq<Watchpoint>) {
    match report
    case BreakpointHit(i) => i < |bs| && !bs[i].enabled && bs[i].addr == c.pc && ws' == ws
    case WatchpointHit(i) => WatchHit(ws, c, i, ws')
    case PlainStop => ws' == ws && forall w :: w in ws ==> !Changed(c.data, w)
  }

  class Session {
    const grants: Answers
    var requests: nat
    const isa: Isa
    var lineAt: Addr -> Option<Location>
    ghost var image: Code
    var code: Code
    var core: Core
    var state: RunState
    var request: Request
    const table: array<Breakpoint>
    var count: nat
    var watches: seq<Watchpoint>

    ghost function Bps(): seq<Breakpoint>
      requires count <= table.Length
      reads this, table
    {
      table[..count]
    }

    /** Code memory is the image overlaid with the user's breakpoints and `temps`. */
    ghost predicate Ok(temps: set<Addr>)
      reads this, table
    {
      && count <= table.Length == MAX_BREAKPOINTS
      && Overlay(image, Bps(), temps, code)
      && Local(isa)
    }

    /** Stopped, and every disabled breakpoint is one the thread is sitting on. */
    ghost predicate Ready(temps: set<Addr>)
      reads this, table
    {
      Ok(temps) && state == Stopped && DisabledOnlyAt(Bps(), core.pc)
    }

    /** The state between commands. */
    ghost predicate AtPrompt()
      reads this, table
    {
      Ready({})
    }

    /** The assumptions under which the program can be debugged at all. */
    ghost predicate Debuggable()
      requires count <= table.Length
      reads this, table
    {
      && AlwaysAligned(isa, image, Addrs(Bps()), core)
      && NeverJustAfter(isa, image, Addrs(Bps()), core)
    }

    // ----- register access, ptrace requests and waits may be refused -----

    method Ask() returns (rc: int)
      modifies this`requests
      ensures requests == old(requests) + 1 && (rc == if grants(old(requests)) then 0 else -1)
      ensures Answered(grants, old(requests), requests, rc == 0)
    {
      rc := if grants(requests) then 0 else -1;
      requests := requests + 1;
    }

    method RefreshRegs() returns (rc: int)
      modifies this`requests
      ensures requests == old(requests) + 1 && (rc == if grants(old(requests)) then 0 else -1)
      ensures Answered(grants, old(requests), requests, rc == 0)
    {
      rc := Ask();
    }

    method SetPc(pc: Addr) returns (rc: int)
      modifies this`requests, this`core
      ensures requests == old(requests) + 1 && (rc == if grants(old(requests)) then 0 else -1)
      ensures Answered(grants, old(requests), requests, rc == 0)
      ensures core == if rc == 0 then old(core).(pc := pc) else old(core)
    {
      rc := Ask();
      if rc == 0 {
        core := core.(pc := pc);
      }
    }

    method Ptrace(r: Request) returns (rc: int)
      modifies this`requests, this`state, this`request
      ensures requests == old(requests) + 1 && (rc == if grants(old(requests)) then 0 else -1)
      ensures Answered(grants, old(requests), requests, rc == 0)
      ensures if rc == 0 then state == Running && request == r else state == old(state) && request == old(request)
    {
      rc := Ask();
      if rc == 0 {
        request, state := r, Running;
      }
    }

    // ----- breakpoint records in the table -----

    method EnableAt(i: nat, ghost temps: set<Addr>) returns (rc: int)
      requires Ok(temps) && i < count && !table[i].enabled
      modifies this`code, table
      ensures rc == 0 && Ok(temps)
      ensures Bps() == old(Bps())[i := old(table[i]).(enabled := true)]
    {
      EnableKeepsOverlay(image, Bps(), temps, code, i);
      var r := Enable(code, table[i], table[i].addr);
      if r.None? { return -1; }
      ghost var before := Bps();
      code := r.value.0;
      table[i] := r.value.1;
      assert Bps() == before[i := r.value.1];
      rc := 0;
    }

    method DisableAt(i: nat, ghost temps: set<Addr>) returns (rc: int)
      requires Ok(temps) && i < count && table[i].addr !in temps
      modifies this`code, table
      ensures rc == 0 && Ok(temps)
      ensures Bps() == old(Bps())[i := old(table[i]).(enabled := false)]
    {
      DisableKeepsOverlay(image, Bps(), temps, code, i);
      var r := Disable(code, table[i]);
      if r.None? { return -1; }
      ghost var before := Bps();
      code := r.value.0;
      table[i] := r.value.1;
      assert Bps() == before[i := r.value.1];
      rc := 0;
    }

    /** The first breakpoint whose trap the thread has just executed. */
    method FindTrap(pc: Addr) returns (r: Option<nat>)
      requires count <= table.Length
      ensures r.Some? ==> r.value < count && MatchesPc(pc, table[r.value])
      ensures r.None? ==> forall b :: b in Bps() ==> !MatchesPc(pc, b)
    {
      var i := 0;
      while i < count
        invariant i <= count
        invariant forall j :: 0 <= j < i ==> !MatchesPc(pc, table[j])
      {
        if MatchesPc(pc, table[i]) { return Some(i); }
        i := i + 1;
      }
      r := None;
    }

    method FindDisabledAt(pc: Addr) returns (found: bool)
      requires count <= table.Length
      ensures found == DisabledAt(Bps(), pc)
    {
      var i := 0;
      while i < count
        invariant i <= count
        invariant forall j :: 0 <= j < i ==> table[j].enabled || table[j].addr != pc
      {
        if !table[i].enabled && table[i].addr == pc {
          assert table[i] in Bps();
          return true;
        }
        i := i + 1;
      }
      found := false;
    }

    method RearmAt(i: nat, pc: Addr, ghost temps: set<Addr>) returns (rc: int)
      requires Ok(temps) && i < count
      modifies this`code, table
      ensures rc == 0 && Ok(temps) && Bps() == old(Bps())[i := Rearmed(old(Bps())[i], pc)]
    {
      ghost var before := Bps();
      assert before[i] == table[i];
      if !table[i].enabled && table[i].addr != pc {
        rc := EnableAt(i, temps);
      } else {
        rc := 0;
        assert before == before[i := Rearmed(before[i], pc)];
      }
    }

    method RearmAll(pc: Addr, ghost temps: set<Addr>) returns (rc: int)
      requires Ok(temps)
      modifies this`code, table
      ensures rc == 0 && Ok(temps) && Bps() == Rearm(old(Bps()), pc)
    {
      hide Overlay;
      ghost var before := Bps();
      var i := 0;
      while i < count
        invariant i <= count == |before| && Ok(temps) && Bps() == RearmedTo(before, pc, i)
      {
        RearmedNext(before, pc, i);
        rc := RearmAt(i, pc, temps);
        if rc != 0 { return -1; }
        i := i + 1;
      }
      RearmedToIs(before, pc, i);
      rc := 0;
    }

    method ReenableAfterStep(ghost temps: set<Addr>) returns (rc: int)
      requires Ok(temps) && state == Stopped
      modifies this`requests, this`code, table
      ensures Ok(temps) && (rc == 0 || rc == -1)
      ensures Answered(grants, old(requests), requests, rc == 0)
      ensures Bps() == if rc == 0 then Rearm(old(Bps()), core.pc) else old(Bps())
    {
      if count == 0 || state != Stopped {
        return 0;
      }
      rc := RefreshRegs();
      if rc != 0 { return -1; }
      rc := RearmAll(core.pc, temps);
    }

    /** `waitpid`, then breakpoints stepped over are armed again. `budget` is how many instructions
        the kernel lets a continued thread run before a signal or debug register stops it; `stop` is
        what it reports. */
    method Wait(budget: nat, ghost temps: set<Addr>) returns (rc: int, ghost stop: Stop)
      requires Ok(temps)
      modifies this`requests, this`code, this`core, this`state, table
      ensures Ok(temps) && SameBreaks(old(Bps()), Bps())
      ensures rc == 0 || rc == 1 || rc == -1
      ensures Answered(grants, old(requests), requests, rc >= 0)
      ensures rc >= 0 ==> stop == Resume(isa, old(code), old(core), if request == StepOne then 1 else budget)
      ensures rc == 1 ==> stop.Exited? && state == Idle
      ensures rc == 0 ==> !stop.Exited? && state == Stopped && core == stop.core
      ensures Bps() == if rc == 0 then Rearm(old(Bps()), core.pc) else old(Bps())
      ensures rc == -1 ==>
                || (state == old(state) && core == old(core))
                || (state == Stopped && !stop.Exited? && core == stop.core
                    && stop == Resume(isa, old(code), old(core), if request == StepOne then 1 else budget))
    {
      hide Iter, EnabledAddrs, Overlay, Resume;
      stop := Signalled(core);
      rc := Ask();
      if rc != 0 { return -1, stop; }
      var s := Resume(isa, code, core, if request == StepOne then 1 else budget);
      stop := s;
      if s.Exited? {
        state := Idle;
        return 1, stop;
      }
      core := s.core;
      state := Stopped;
      rc := ReenableAfterStep(temps);
    }

    method SingleStep() returns (rc: int)
      modifies this`requests, this`state, this`request
      ensures requests == old(requests) + 1 && (rc == if grants(old(requests)) then 0 else -1)
      ensures Answered(grants, old(requests), requests, rc == 0)
      ensures if rc == 0 then state == Running && request == StepOne else state == old(state)
    {
      rc := Ptrace(StepOne);
    }

    /** A breakpoint hit earlier is stepped over while disabled: exactly one bare instruction. */
    method StepOverDisabled(ghost temps: set<Addr>) returns (rc: int, ghost k: nat)
      requires Ready(temps) && AlwaysAligned(isa, image, Addrs(Bps()) + temps, core)
      modifies this`requests, this`code, this`core, this`state, this`request, table
      ensures Ok(temps) && SameBreaks(old(Bps()), Bps())
      ensures rc == 0 || rc == 1 || rc == -1
      ensures Answered(grants, old(requests), requests, rc >= 0)
      ensures rc == 0 ==> Ready(temps) && Iter(isa, image, old(core), k) == Some(core)
      ensures rc == 0 ==> k <= 1 && (k == 1 <==> DisabledAt(old(Bps()), old(core.pc)))
      ensures rc == 0 ==> Bps() == if k == 0 then old(Bps()) else Rearm(old(Bps()), core.pc)
      ensures rc == 1 ==> state == Idle && DisabledAt(old(Bps()), old(core.pc)) && Ends(isa, image, old(core), 1)
      ensures state == Idle ==> rc == 1
      ensures !DisabledAt(old(Bps()), old(core.pc)) ==> core == old(core)
    {
      k := 0;
      if state != Stopped || count == 0 {
        return 0, 0;
      }
      rc := RefreshRegs();
      if rc != 0 { return -1, 0; }
      var disabled := FindDisabledAt(core.pc);
      if !disabled {
        return 0, 0;
      }
      rc := StepOffHere(temps);
      k := 1;
    }

    method StepOffHere(ghost temps: set<Addr>) returns (rc: int)
      requires Ready(temps) && AlwaysAligned(isa, image, Addrs(Bps()) + temps, core) && DisabledAt(Bps(), core.pc)
      modifies this`requests, this`code, this`core, this`state, this`request, table
      ensures Ok(temps) && SameBreaks(old(Bps()), Bps())
      ensures rc == 0 || rc == 1 || rc == -1
      ensures Answered(grants, old(requests), requests, rc >= 0)
      ensures rc == 0 ==>
                && Ready(temps) && Iter(isa, image, old(core), 1) == Some(core)
                && Bps() == Rearm(old(Bps()), core.pc)
      ensures rc == 1 ==> state == Idle && DisabledAt(old(Bps()), old(core.pc)) && Ends(isa, image, old(core), 1)
      ensures state == Idle ==> rc == 1
    {
      rc := SingleStep();
      if rc != 0 { return -1; }
      StepOff(isa, image, Bps(), temps, code, core);
      ghost var bs := Bps();
      ghost var stop;
      rc, stop := Wait(0, temps);
      RearmFacts(bs, core.pc);
    }

    method ContinueProcess(ghost temps: set<Addr>) returns (rc: int, ghost k: nat)
      requires Ready(temps) && AlwaysAligned(isa, image, Addrs(Bps()) + temps, core)
      modifies this`requests, this`code, this`core, this`state, this`request, table
      ensures Ok(temps) && SameBreaks(old(Bps()), Bps())
      ensures rc == 0 || rc == 1 || rc == -1
      ensures Answered(grants, old(requests), requests, rc >= 0)
      ensures rc == 0 ==> state == Running && request == Continue
      ensures rc == 0 ==> Iter(isa, image, old(core), k) == Some(core) && DisabledOnlyAt(Bps(), core.pc)
      ensures rc == 0 ==> k <= 1 && (k == 1 <==> DisabledAt(old(Bps()), old(core.pc)))
      ensures rc == 0 ==> Bps() == if k == 0 then old(Bps()) else Rearm(old(Bps()), core.pc)
      ensures rc == 1 ==> state == Idle && DisabledAt(old(Bps()), old(core.pc)) && Ends(isa, image, old(core), 1)
      ensures state == Idle ==> rc == 1
      ensures !DisabledAt(old(Bps()), old(core.pc)) ==> core == old(core)
    {
      hide Overlay, AlwaysAligned, Rearm, DisabledAt;
      rc, k := StepOverDisabled(temps);
      if rc != 0 { return; }
      if state == Idle { return 0, k; }
      rc := Ptrace(Continue);
    }

    /** The first watchpoint whose value has changed. */
    method FindWatchpointHit() returns (r: Option<nat>)
      ensures r.Some? ==> r.value < |watches| && Changed(core.data, watches[r.value])
      ensures r.Some? ==> forall j :: 0 <= j < r.value ==> !Changed(core.data, watches[j])
      ensures r.None? ==> forall w :: w in watches ==> !Changed(core.data, w)
    {
      var i := 0;
      while i < |watches|
        invariant i <= |watches|
        invariant forall j :: 0 <= j < i ==> !Changed(core.data, watches[j])
      {
        if Changed(core.data, watches[i]) { return Some(i); }
        i := i + 1;
      }
      r := None;
    }

    /** Remembers the value just reported, so the next check compares against it. */
    method ReportWatchpoint(i: nat)
      requires i < |watches| && Changed(core.data, watches[i])
      modifies this`watches
      ensures watches == Noted(core.data, old(watches), i) && !Changed(core.data, watches[i])
    {
      var w := watches[i];
      WidthFitsWord(w.size);
      watches := watches[i := w.(oldValue := ReadLittle(core.data, w.addr, w.size).value)];
    }

    method HandleBreakpointHit(i: nat) returns (rc: int)
      requires Ok({}) && i < count && MatchesPc(core.pc, table[i])
      modifies this`requests, this`code, this`core, table
      ensures Ok({}) && (rc == 0 || rc == -1)
      ensures Answered(grants, old(requests), requests, rc == 0)
      ensures Bps() == old(Bps())[i := old(table[i]).(enabled := false)]
      ensures rc == 0 ==> core == old(core).(pc := old(table[i]).addr)
      ensures rc == -1 ==> core == old(core)
    {
      rc := DisableAt(i, {});
      if rc != 0 { return -1; }
      rc := RefreshRegs();
      if rc != 0 { return -1; }
      var pc := core.pc;
      if pc > 0 {
        rc := SetPc(pc - 1);
        if rc != 0 { return -1; }
      }
      rc := 0;
    }

    /** Reports the stop; a breakpoint hit is disabled and the pc rewound onto it. */
    method ReportStop(ghost b: Core) returns (rc: int, report: Report)
      requires Ok({})
      modifies this`requests, this`code, this`core, this`watches, table
      ensures Ok({}) && SameBreaks(old(Bps()), Bps())
      ensures rc == 0 || rc == -1
      ensures Answered(grants, old(requests), requests, rc == 0)
      ensures rc == 0 && Trapping(old(Bps()), old(core.pc)) ==>
                && report.BreakpointHit? && report.index < count
                && MatchesPc(old(core.pc), old(Bps())[report.index])
                && Bps() == old(Bps())[report.index := old(Bps())[report.index].(enabled := false)]
                && core == old(core).(pc := old(Bps())[report.index].addr)
      ensures rc == 0 && !Trapping(old(Bps()), old(core.pc)) ==>
                !report.BreakpointHit? && Bps() == old(Bps()) && core == old(core)
      ensures rc == 0 ==> Explains(report, Bps(), core, old(watches), watches) && Bps() == Disarmed(old(Bps()), report)
      // refused, it has moved nothing, and has disarmed at most the breakpoint trapped on
      ensures rc == -1 ==>
                && watches == old(watches) && core == old(core)
                && (!Trapping(old(Bps()), core.pc) ==> Bps() == old(Bps()))
      ensures rc == 0 && Settled(old(Bps()), old(core), b) ==> core == b && DisabledOnlyAt(Bps(), core.pc)
    {
      hide Overlay;
      report := PlainStop;
      rc := RefreshRegs();
      if rc != 0 { return; }
      var trap := FindTrap(core.pc);
      if trap.Some? {
        assert Bps()[trap.value] == table[trap.value];
        ghost var bs := Bps();
        rc := HandleBreakpointHit(trap.value);
        OneDisabled(bs, trap.value);
        return rc, BreakpointHit(trap.value);
      }
      var hit := FindWatchpointHit();
      if hit.Some? {
        ReportWatchpoint(hit.value);
        return 0, WatchpointHit(hit.value);
      }
      rc := 0;
    }
  }
}
