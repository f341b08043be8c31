/** Temporary breakpoints laid over the user's: running a call to its return address, and the stop
    at program entry (src/debugger.c). */
module TempBreakpoints {
  import opened Basics
  import opened Machine
  import opened Breakpoints
  import opened Sessions
  import opened Commands

  const NO_BREAKPOINT := Breakpoint(0, 0, false, "")

  ghost predicate Settles(isa: Isa, image: Code, s: Core, k: nat, bs: seq<Breakpoint>, c: Core) {
    Iter(isa, image, s, k).Some? && Settled(bs, c, Iter(isa, image, s, k).value)
  }

  /** The first `k` bare states avoid address `t`. */
  ghost predicate Avoids(isa: Isa, image: Code, s: Core, k: nat, t: Addr) {
    forall j: nat :: j < k ==> Iter(isa, image, s, j).Some? && Iter(isa, image, s, j).value.pc != t
  }

  /** What a run with a temporary breakpoint at `t` has come to when it stops at `c`: it has
      trapped at its first arrival at `t`, or it has stopped for one of the ordinary reasons. */
  ghost predicate TempStop(isa: Isa, image: Code, s: Core, k: nat, t: Addr, bs: seq<Breakpoint>, c: Core) {
    if c.pc == t + 1 then
      && Iter(isa, image, s, k) == Some(c.(pc := t))
      && forall b :: b in bs ==> b.enabled
    else Settles(isa, image, s, k, bs, c)
  }

  /** The assumptions on the address of a temporary breakpoint. */
  ghost predicate TempSafe(isa: Isa, image: Code, t: Addr, s: Core) {
    AlwaysAligned(isa, image, {t}, s) && OnlyThrough(isa, image, t, s)
  }

  lemma AlignedUnion(isa: Isa, image: Code, p: set<Addr>, q: set<Addr>, s: Core)
    requires AlwaysAligned(isa, image, p, s) && AlwaysAligned(isa, image, q, s)
    ensures AlwaysAligned(isa, image, p + q, s)
  {
    forall j: nat | Iter(isa, image, s, j).Some?
      ensures Aligned(isa, image, p + q, Iter(isa, image, s, j).value)
    {
      assert Aligned(isa, image, p, Iter(isa, image, s, j).value);
      assert Aligned(isa, image, q, Iter(isa, image, s, j).value);
    }
  }

  /** A disabled breakpoint stepped off (or none), then a free run over armed and temporary ones. */
  lemma TempRun(isa: Isa, image: Code, bs: seq<Breakpoint>, s: Core, k1: nat,
                bs1: seq<Breakpoint>, s1: Core, n: nat, t: Addr) returns (k: nat)
    requires Local(isa) && EnabledAddrs(bs1) + {t} <= image.Keys && !DisabledAt(bs, t)
    requires AlwaysAligned(isa, image, Addrs(bs), s) && NeverJustAfter(isa, image, Addrs(bs), s)
    requires TempSafe(isa, image, t, s)
    requires Iter(isa, image, s, k1) == Some(s1) && k1 <= 1
    requires DisabledOnlyAt(bs, s.pc) && (k1 == 1 <==> DisabledAt(bs, s.pc))
    requires bs1 == if k1 == 0 then bs else Rearm(bs, s1.pc)
    ensures NoneSkipped(isa, image, bs, s, k) && k1 <= k && Avoids(isa, image, s, k, t)
    ensures var stop := Resume(isa, Patch(image, EnabledAddrs(bs1) + {t}), s1, n);
            if stop.Exited? then k <= k1 + n && Ends(isa, image, s, k)
            else
              && TempStop(isa, image, s, k, t, Rearm(bs1, stop.core.pc), stop.core)
              && (Iter(isa, image, s, k) == Some(stop.core) ==> RanOut(isa, image, s, k, k1 + n))
  {
    hide Iter;
    var patched := EnabledAddrs(bs1) + {t};
    var k2 := TempArrive(isa, image, bs, s, k1, bs1, s1, n, t);
    var stop := Resume(isa, Patch(image, patched), s1, n);
    SkipsNone(isa, image, bs, s, k1, s1, bs1, k2);
    k := k1 + k2;
    AvoidsTemp(isa, image, s, k1, s1, k2, patched, t);
    if stop.Exited? {
      EndsAdd(isa, image, s, k1, s1, k2);
    } else {
      IterAdd(isa, image, s, k1, k2);
      RanOutFrom(isa, image, s, k1, s1, k2, n);
      TempLands(isa, image, bs, s, k1, bs1, s1, k2, t, stop.core);
    }
  }

  lemma TempArrive(isa: Isa, image: Code, bs: seq<Breakpoint>, s: Core, k1: nat,
                   bs1: seq<Breakpoint>, s1: Core, n: nat, t: Addr) returns (k2: nat)
    requires Local(isa) && EnabledAddrs(bs1) + {t} <= image.Keys
    requires AlwaysAligned(isa, image, Addrs(bs), s) && AlwaysAligned(isa, image, {t}, s)
    requires Iter(isa, image, s, k1) == Some(s1)
    requires bs1 == if k1 == 0 then bs else Rearm(bs, s1.pc)
    ensures Unpatched(isa, image, EnabledAddrs(bs1) + {t}, s1, k2)
    ensures var stop := Resume(isa, Patch(image, EnabledAddrs(bs1) + {t}), s1, n);
            if stop.Exited? then k2 <= n && Ends(isa, image, s1, k2)
            else
              && Arrived(isa, image, EnabledAddrs(bs1) + {t}, s1, k2, stop.core)
              && (Iter(isa, image, s1, k2) == Some(stop.core) ==> RanOut(isa, image, s1, k2, n))
  {
    var patched := EnabledAddrs(bs1) + {t};
    RearmFacts(bs, s1.pc);
    AlignedUnion(isa, image, Addrs(bs), {t}, s);
    AlignedSubset(isa, image, Addrs(bs) + {t}, patched, s);
    AlignedAfter(isa, image, patched, s, k1);
    k2 := Arrive(isa, image, patched, s1, n);
    if Resume(isa, Patch(image, patched), s1, n).Exited? { k2 := k2 + 1; }
  }

  lemma TempLands(isa: Isa, image: Code, bs: seq<Breakpoint>, s: Core, k1: nat,
                  bs1: seq<Breakpoint>, s1: Core, k2: nat, t: Addr, c: Core)
    requires NeverJustAfter(isa, image, Addrs(bs), s) && OnlyThrough(isa, image, t, s)
    requires Iter(isa, image, s, k1) == Some(s1) && k1 <= 1
    requires DisabledOnlyAt(bs, s.pc) && (k1 == 1 <==> DisabledAt(bs, s.pc))
    requires bs1 == if k1 == 0 then bs else Rearm(bs, s1.pc)
    requires Arrived(isa, image, EnabledAddrs(bs1) + {t}, s1, k2, c) && Avoids(isa, image, s, k1 + k2, t)
    ensures TempStop(isa, image, s, k1 + k2, t, Rearm(bs1, c.pc), c)
  {
    hide AlwaysAligned, NoneSkipped, Rearm, DisabledOnlyAt, Addrs, EnabledAddrs, MatchesPc;
    IterAdd(isa, image, s, k1, k2);
    if c.pc == t + 1 {
      TempHit(isa, image, bs, s, k1, bs1, s1, k1 + k2, t, c);
    } else {
      RearmFacts(bs, s1.pc);
      NeverIsNot(isa, image, bs, s, k1 + k2, c);
      RearmNotJustAfter(bs, s1.pc, Iter(isa, image, s, k1 + k2).value, c);
      Settle(isa, image, bs1, s1, k2, c);
    }
  }

  lemma AvoidsTemp(isa: Isa, image: Code, s: Core, k1: nat, s1: Core, k2: nat, patched: set<Addr>, t: Addr)
    requires Iter(isa, image, s, k1) == Some(s1) && k1 <= 1 && (k1 == 1 ==> s.pc != t)
    requires Unpatched(isa, image, patched, s1, k2) && t in patched
    ensures Avoids(isa, image, s, k1 + k2, t)
  {
    forall j: nat | j < k1 + k2
      ensures Iter(isa, image, s, j).Some? && Iter(isa, image, s, j).value.pc != t
    {
      if j >= k1 {
        IterAdd(isa, image, s, k1, j - k1);
      }
    }
  }

  /** A stop one past `t` is a trap at `t`, and leaves no user breakpoint disabled. */
  lemma TempHit(isa: Isa, image: Code, bs: seq<Breakpoint>, s: Core, k1: nat, bs1: seq<Breakpoint>, s1: Core,
                k: nat, t: Addr, c: Core)
    requires DisabledOnlyAt(bs, s.pc) && (k1 == 1 <==> DisabledAt(bs, s.pc)) && k1 <= 1
    requires bs1 == if k1 == 0 then bs else Rearm(bs, s1.pc)
    requires OnlyThrough(isa, image, t, s) && Avoids(isa, image, s, k, t) && c.pc == t + 1
    requires Iter(isa, image, s, k).Some?
    requires var b := Iter(isa, image, s, k).value; c == b || c == b.(pc := b.pc + 1)
    ensures Iter(isa, image, s, k) == Some(c.(pc := t))
    ensures forall x :: x in Rearm(bs1, c.pc) ==> x.enabled
  {
    var b := Iter(isa, image, s, k).value;
    assert c != b;
    assert Iter(isa, image, s, 0) == Some(s);
    assert s.pc != t + 1;
    RearmFacts(bs, s1.pc);
    RearmFacts(bs1, c.pc);
    forall x | x in Rearm(bs1, c.pc) ensures x.enabled || x.addr == s.pc {
      if !x.enabled {
        assert DisabledAt(Rearm(bs1, c.pc), x.addr);
        assert DisabledAt(bs1, x.addr);
        assert DisabledAt(bs, x.addr);
      }
    }
  }

  /** A temporary breakpoint record that undoes itself exactly. */
  ghost predicate TempSet(d: Session, temp: Breakpoint)
    reads d, d.table
  {
    && temp.enabled
    && d.Ok({temp.addr})
    && temp.saved == Underneath(d.image, d.Bps(), temp.addr)
  }

  method SetTemp(d: Session, t: Addr) returns (rc: int, temp: Breakpoint)
    requires d.Ok({}) && !DisabledAt(d.Bps(), t)
    modifies d`code
    ensures rc == 0 || rc == -1
    ensures rc == 0 ==> TempSet(d, temp) && temp.addr == t
    ensures rc == -1 ==> d.Ok({})
    ensures rc == 0 <==> t in d.image
  {
    assert old(d.code).Keys == d.image.Keys;
    var r := Enable(d.code, NO_BREAKPOINT, t);
    if r.None? { return -1, NO_BREAKPOINT; }
    TempOn(d.image, d.Bps(), d.code, NO_BREAKPOINT, t);
    d.code := r.value.0;
    rc, temp := 0, r.value.1;
  }

  method DropTemp(d: Session, temp: Breakpoint) returns (rc: int)
    requires TempSet(d, temp)
    modifies d`code
    ensures rc == 0 && d.Ok({})
  {
    TempOff(d.image, d.Bps(), d.code, temp);
    var r := Disable(d.code, temp);
    if r.None? { return -1; }
    d.code := r.value.0;
    rc := 0;
  }

  /** Nothing the run did to the user's breakpoints disturbs what lies under `temp`. */
  lemma StillSet(image: Code, bs: seq<Breakpoint>, bs': seq<Breakpoint>, code: Code, code': Code, temp: Breakpoint)
    requires SameBreaks(bs, bs')
    requires Overlay(image, bs, {temp.addr}, code) && Overlay(image, bs', {temp.addr}, code')
    requires temp.saved == Underneath(image, bs, temp.addr)
    ensures temp.saved == Underneath(image, bs', temp.addr)
  {
    UnderneathStable(image, bs, bs', temp.addr);
  }

  /** Where a run from `s` to the entry stops the thread, before anything is taken back. */
  ghost function EntryStop(isa: Isa, image: Code, bs: seq<Breakpoint>, entry: Addr, s: Core, n: nat): Core {
    var stop := Resume(isa, Patch(image, EnabledAddrs(bs) + {entry}), s, n);
    if stop.Exited? then s else stop.core
  }

  /** The program ends at its `k`-th instruction, one of the `n` it is allowed (besides one off a disabled
      breakpoint), having come to no armed breakpoint and not to `t`. */
  ghost predicate EndsAway(isa: Isa, image: Code, bs: seq<Breakpoint>, t: Addr, s: Core, n: nat, k: nat) {
    && Ends(isa, image, s, k) && k <= Off(bs, s) + n
    && NoneSkipped(isa, image, bs, s, k) && Avoids(isa, image, s, k, t)
  }

  lemma OffEnds(isa: Isa, image: Code, bs: seq<Breakpoint>, t: Addr, s: Core, n: nat)
    requires !DisabledAt(bs, t)
    ensures DisabledAt(bs, s.pc) && Ends(isa, image, s, 1) ==> EndsAway(isa, image, bs, t, s, n, 1)
  {
    assert Iter(isa, image, s, 0) == Some(s);
  }

  /** Of the breakpoints armed before, none is disarmed but one the report tells of. */
  ghost predicate OnlyDisarmed(bs: seq<Breakpoint>, bs': seq<Breakpoint>, report: Report) {
    && |bs'| == |bs|
    && forall j :: 0 <= j < |bs'| && !bs'[j].enabled ==> !bs[j].enabled || report == BreakpointHit(j)
  }

  /** Resume over `temp` and wait. */
  method RunOver(d: Session, temp: Breakpoint, budget: nat) returns (rc: int, ghost k: nat)
    requires TempSet(d, temp) && d.Ready({temp.addr}) && d.Debuggable() && TempSafe(d.isa, d.image, temp.addr, d.core)
    modifies d`requests, d`code, d`core, d`state, d`request, d.table
    ensures TempSet(d, temp) && SameBreaks(old(d.Bps()), d.Bps())
    ensures rc == 0 || rc == 1 || rc == -1
    ensures Answered(d.grants, old(d.requests), d.requests, rc >= 0)
    ensures d.state == Idle <==> rc == 1
    ensures rc == 1 ==> EndsAway(d.isa, d.image, old(d.Bps()), temp.addr, old(d.core), budget, k)
    ensures rc == 0 ==>
              && d.state == Stopped && OnlyDisarmed(old(d.Bps()), d.Bps(), PlainStop)
              && NoneSkipped(d.isa, d.image, old(d.Bps()), old(d.core), k)
              && Avoids(d.isa, d.image, old(d.core), k, temp.addr)
              && TempStop(d.isa, d.image, old(d.core), k, temp.addr, d.Bps(), d.core)
              && (Iter(d.isa, d.image, old(d.core), k) == Some(d.core) ==>
                    RanOut(d.isa, d.image, old(d.core), k, budget + if DisabledAt(old(d.Bps()), old(d.core.pc)) then 1 else 0))
    ensures rc == 0 && !DisabledAt(old(d.Bps()), old(d.core.pc)) ==>
              && var stop := Resume(d.isa, Patch(d.image, EnabledAddrs(old(d.Bps())) + {temp.addr}), old(d.core), budget);
              !stop.Exited? && d.core == stop.core && d.Bps() == Rearm(old(d.Bps()), d.core.pc)
    ensures rc == -1 && !DisabledAt(old(d.Bps()), old(d.core.pc)) ==>
              d.core == old(d.core) || d.core == EntryStop(d.isa, d.image, old(d.Bps()), temp.addr, old(d.core), budget)
  {
    hide Addrs, Patch;
    ghost var bs, s, code := d.Bps(), d.core, d.code;
    ghost var t := temp.addr;
    AlignedUnion(d.isa, d.image, Addrs(bs), {t}, s);
    rc, k := d.ContinueProcess({t});
    StillSet(d.image, bs, d.Bps(), code, d.code, temp);
    if rc != 0 {
      OffEnds(d.isa, d.image, bs, t, s, budget);
      return rc, 1;
    }
    ghost var bs1, s1, k1, code1 := d.Bps(), d.core, k, d.code;
    ghost var stop;
    rc, stop := d.Wait(budget, {t});
    StillSet(d.image, bs1, d.Bps(), code1, d.code, temp);
    if rc >= 0 {
      k := TempRun(d.isa, d.image, bs, s, k1, bs1, s1, budget, t);
    }
  }

  datatype TempEnd = AtTemp | Other(report: Report) | TempGone | TempFailed

  /** Disables `temp`; a thread that has trapped on it is put back onto it. */
  method FinishTemp(d: Session, temp: Breakpoint, ghost s: Core, ghost k: nat) returns (end: TempEnd)
    requires TempSet(d, temp) && d.state == Stopped
    requires TempStop(d.isa, d.image, s, k, temp.addr, d.Bps(), d.core)
    modifies d`requests, d`code, d`core, d`watches, d.table
    ensures d.Ok({}) && SameBreaks(old(d.Bps()), d.Bps()) && !end.TempGone?
    ensures Answered(d.grants, old(d.requests), d.requests, !end.TempFailed?)
    ensures !end.TempFailed? ==> d.AtPrompt() && Iter(d.isa, d.image, s, k) == Some(d.core)
    ensures end.AtTemp? ==> d.core.pc == temp.addr && d.Bps() == old(d.Bps()) && old(d.core.pc) == temp.addr + 1
    ensures !end.Other? ==> d.watches == old(d.watches)
    ensures end.Other? ==>
              && (end.report.BreakpointHit? <==> Trapping(old(d.Bps()), old(d.core.pc)))
              && d.Bps() == Disarmed(old(d.Bps()), end.report)
              && Explains(end.report, d.Bps(), d.core, old(d.watches), d.watches)
    ensures end.Other? && !end.report.BreakpointHit? ==> d.core == old(d.core)
  {
    hide Overlay, Settled, Explains;
    var rc := d.RefreshRegs();
    if rc != 0 {
      rc := DropTemp(d, temp);
      return TempFailed;
    }
    if !MatchesPc(d.core.pc, temp) {
      rc := DropTemp(d, temp);
      var report;
      rc, report := d.ReportStop(Iter(d.isa, d.image, s, k).value);
      return if rc == 0 then Other(report) else TempFailed;
    }
    rc := DropTemp(d, temp);
    if rc != 0 { return TempFailed; }
    rc := d.SetPc(temp.addr);
    if rc != 0 { return TempFailed; }
    end := AtTemp;
  }

  /** Run a call to its return address. Whatever ended the run, if the process is still there its
      code is again the image overlaid with the user's breakpoints alone. */
  method StepOverCall(d: Session, returnAddr: Addr, budget: nat) returns (end: TempEnd, ghost k: nat)
    requires d.AtPrompt() && d.Debuggable() && !DisabledAt(d.Bps(), returnAddr)
    requires TempSafe(d.isa, d.image, returnAddr, d.core)
    modifies d`requests, d`code, d`core, d`state, d`request, d`watches, d.table
    ensures d.Ok({}) && SameBreaks(old(d.Bps()), d.Bps())
    ensures Answered(d.grants, old(d.requests), d.requests, !end.TempFailed? || returnAddr !in d.image)
    ensures returnAddr !in d.image ==> end.TempFailed?
    ensures d.state == Idle <==> end.TempGone?
    ensures end.TempGone? ==> EndsAway(d.isa, d.image, old(d.Bps()), returnAddr, old(d.core), budget, k)
    ensures end.AtTemp? || end.Other? ==>
              && d.AtPrompt() && Iter(d.isa, d.image, old(d.core), k) == Some(d.core)
              && NoneSkipped(d.isa, d.image, old(d.Bps()), old(d.core), k)
              && Avoids(d.isa, d.image, old(d.core), k, returnAddr)
    ensures end.AtTemp? ==> d.core.pc == returnAddr && forall b :: b in d.Bps() ==> b.enabled
    ensures !end.Other? ==> d.watches == old(d.watches)
    ensures end.Other? ==>
              && Explains(end.report, d.Bps(), d.core, old(d.watches), d.watches)
              && OnlyDisarmed(old(d.Bps()), d.Bps(), end.report)
    ensures end.Other? && !end.report.BreakpointHit? ==>
              RanOut(d.isa, d.image, old(d.core), k, budget + if DisabledAt(old(d.Bps()), old(d.core.pc)) then 1 else 0)
  {
    hide Overlay, AlwaysAligned, NeverJustAfter, NoneSkipped, Avoids, Settled, Explains, Underneath, DisabledAt;
    k := 0;
    var rc, temp := SetTemp(d, returnAddr);
    if rc != 0 { return TempFailed, 0; }
    ghost var bs, s := d.Bps(), d.core;
    rc, k := RunOver(d, temp, budget);
    if rc != 0 {
      var _ := DropTemp(d, temp);
      return if d.state == Idle then TempGone else TempFailed, k;
    }
    end := FinishTemp(d, temp, s, k);
  }

  datatype EntryEnd = AtEntry | StoppedElsewhere | EntryGone | EntryFailed

  lemma UnrewoundIsNoState(isa: Isa, image: Code, bs: seq<Breakpoint>, s: Core, k: nat, c: Core)
    requires NeverJustAfter(isa, image, Addrs(bs), s) && Settles(isa, image, s, k, bs, c)
    ensures Reaches(isa, image, s, c) <==> !Trapping(bs, c.pc)
  {
    if Trapping(bs, c.pc) {
      var x :| x in bs && MatchesPc(c.pc, x);
      assert c.pc - 1 in Addrs(bs);
      forall j: nat ensures Iter(isa, image, s, j) != Some(c) {
      }
    } else {
      assert Iter(isa, image, s, k) == Some(c);
    }
  }

  lemma SettlesThere(isa: Isa, image: Code, s: Core, k: nat, bs: seq<Breakpoint>, c: Core)
    requires Settles(isa, image, s, k, bs, c) && !Trapping(bs, c.pc)
    ensures DisabledOnlyAt(bs, c.pc) && Iter(isa, image, s, k) == Some(c)
  {
  }

  /** Within `n` instructions the program arrives at a user breakpoint, and at the entry not before. */
  ghost predicate UserFirst(isa: Isa, image: Code, addrs: set<Addr>, entry: Addr, s: Core, n: nat) {
    exists j: nat :: j < n && HitsFirst(isa, image, addrs + {entry}, s, j) && Iter(isa, image, s, j).value.pc != entry
  }

  ghost predicate EntryFirst(isa: Isa, image: Code, addrs: set<Addr>, entry: Addr, s: Core, n: nat) {
    exists j: nat :: j < n && HitsFirst(isa, image, addrs + {entry}, s, j) && Iter(isa, image, s, j).value.pc == entry
  }

  /** Which of the two it was can be told from where the run stopped. */
  lemma EntryRun(isa: Isa, image: Code, bs: seq<Breakpoint>, entry: Addr, s: Core, n: nat, c: Core)
    requires Local(isa) && Addrs(bs) + {entry} <= image.Keys
    requires AlwaysAligned(isa, image, Addrs(bs), s) && NeverJustAfter(isa, image, Addrs(bs), s)
    requires TempSafe(isa, image, entry, s)
    requires var stop := Resume(isa, Patch(image, Addrs(bs) + {entry}), s, n); !stop.Exited? && c == stop.core
    ensures c.pc == entry + 1 <==> EntryFirst(isa, image, Addrs(bs), entry, s, n)
    ensures c.pc != entry + 1 ==> (c.pc - 1 in Addrs(bs) <==> UserFirst(isa, image, Addrs(bs), entry, s, n))
  {
    hide AlwaysAligned, NoneSkipped, Patch, Iter;
    var patched := Addrs(bs) + {entry};
    AlignedUnion(isa, image, Addrs(bs), {entry}, s);
    var k := StopHits(isa, image, patched, s, n);
    if HitsFirst(isa, image, patched, s, k) && k < n {
      HitStops(isa, image, patched, s, n, k);
    }
    if EntryFirst(isa, image, Addrs(bs), entry, s, n) {
      var j: nat :| j < n && HitsFirst(isa, image, patched, s, j) && Iter(isa, image, s, j).value.pc == entry;
      HitStops(isa, image, patched, s, n, j);
    }
    if UserFirst(isa, image, Addrs(bs), entry, s, n) {
      var j: nat :| j < n && HitsFirst(isa, image, patched, s, j) && Iter(isa, image, s, j).value.pc != entry;
      HitStops(isa, image, patched, s, n, j);
    }
  }

  lemma AllArmed(bs: seq<Breakpoint>)
    requires forall b :: b in bs ==> b.enabled
    ensures EnabledAddrs(bs) == Addrs(bs) && forall a :: !DisabledAt(bs, a) && DisabledOnlyAt(bs, a)
  {
  }

  /** What becomes of a run to the entry, with every breakpoint of `bs` armed, is decided by where the program
      goes first; at the end the table is `bs'` and the thread at `c`. */
  ghost predicate EntryOutcome(isa: Isa, image: Code, bs: seq<Breakpoint>, entry: Addr, s: Core, n: nat,
                               end: EntryEnd, k: nat, bs': seq<Breakpoint>, c: Core) {
    match end
    case AtEntry =>
      && EntryFirst(isa, image, Addrs(bs), entry, s, n)
      && c.pc == entry && Iter(isa, image, s, k) == Some(c)
      && Avoids(isa, image, s, k, entry) && NoneSkipped(isa, image, bs, s, k)
    case StoppedElsewhere =>
      && !EntryFirst(isa, image, Addrs(bs), entry, s, n)
      && Settles(isa, image, s, k, bs', c) && NoneSkipped(isa, image, bs, s, k)
      && (Reaches(isa, image, s, c) <==> !UserFirst(isa, image, Addrs(bs), entry, s, n))
    case EntryGone => EndsAway(isa, image, bs, entry, s, n, k)
    case EntryFailed => c == s || c == EntryStop(isa, image, bs, entry, s, n)
  }

  /** After the run: the temporary breakpoint goes, and a thread that trapped on it is put back onto it. */
  method LeaveEntry(d: Session, temp: Breakpoint, ghost bs: seq<Breakpoint>, ghost s: Core, ghost n: nat, ghost k: nat)
    returns (end: EntryEnd)
    requires TempSet(d, temp) && d.state == Stopped && SameBreaks(bs, d.Bps()) && d.Bps() == Rearm(bs, d.core.pc)
    requires NeverJustAfter(d.isa, d.image, Addrs(bs), s)
    requires TempStop(d.isa, d.image, s, k, temp.addr, d.Bps(), d.core)
    requires NoneSkipped(d.isa, d.image, bs, s, k) && Avoids(d.isa, d.image, s, k, temp.addr)
    requires d.core == EntryStop(d.isa, d.image, bs, temp.addr, s, n)
    requires d.core.pc == temp.addr + 1 <==> EntryFirst(d.isa, d.image, Addrs(bs), temp.addr, s, n)
    requires d.core.pc != temp.addr + 1 ==>
               (d.core.pc - 1 in Addrs(bs) <==> UserFirst(d.isa, d.image, Addrs(bs), temp.addr, s, n))
    modifies d`requests, d`code, d`core
    ensures d.Ok({}) && !end.EntryGone?
    ensures Answered(d.grants, old(d.requests), d.requests, !end.EntryFailed?)
    ensures end.AtEntry? || (end.StoppedElsewhere? && Reaches(d.isa, d.image, s, d.core)) ==> d.AtPrompt()
    ensures end.StoppedElsewhere? && Reaches(d.isa, d.image, s, d.core) ==> Iter(d.isa, d.image, s, k) == Some(d.core)
    ensures EntryOutcome(d.isa, d.image, bs, temp.addr, s, n, end, k, d.Bps(), d.core)
  {
    hide Overlay, NeverJustAfter, NoneSkipped, Avoids, UserFirst;
    hide EntryFirst, EntryStop, Underneath, Settled, SameBreaks;
    SameAddrs(bs, d.Bps());
    TrappingAfterRearm(bs, d.core.pc);
    var rc := d.RefreshRegs();
    var pc := d.core.pc;
    var hit := MatchesPc(pc, temp);
    var _ := DropTemp(d, temp);
    if rc != 0 { return EntryFailed; }
    if hit {
      if pc > 0 {
        rc := d.SetPc(pc - 1);
        if rc != 0 { return EntryFailed; }
      }
      return AtEntry;
    }
    UnrewoundIsNoState(d.isa, d.image, d.Bps(), s, k, d.core);
    if !Trapping(d.Bps(), d.core.pc) {
      SettlesThere(d.isa, d.image, s, k, d.Bps(), d.core);
    }
    end := StoppedElsewhere;
  }

  /** The run to the entry, its temporary breakpoint set. */
  method RunToTemp(d: Session, temp: Breakpoint, budget: nat) returns (end: EntryEnd, ghost k: nat)
    requires TempSet(d, temp) && d.state == Stopped && (forall b :: b in d.Bps() ==> b.enabled)
    requires d.Debuggable() && TempSafe(d.isa, d.image, temp.addr, d.core)
    modifies d`requests, d`code, d`core, d`state, d`request, d.table
    ensures d.Ok({}) && SameBreaks(old(d.Bps()), d.Bps())
    ensures Answered(d.grants, old(d.requests), d.requests, !end.EntryFailed?)
    ensures d.state == Idle <==> end.EntryGone?
    ensures end.AtEntry? || (end.StoppedElsewhere? && Reaches(d.isa, d.image, old(d.core), d.core)) ==>
              d.AtPrompt() && Iter(d.isa, d.image, old(d.core), k) == Some(d.core)
    ensures EntryOutcome(d.isa, d.image, old(d.Bps()), temp.addr, old(d.core), budget, end, k, d.Bps(), d.core)
  {
    hide Overlay, AlwaysAligned, NeverJustAfter, OnlyThrough, NoneSkipped;
    hide Avoids, UserFirst, EntryFirst, Underneath;
    hide Rearm, Iter, Trapping, DisabledOnlyAt, Settled, Addrs, EnabledAddrs, Patch, Reaches;
    ghost var bs, s := d.Bps(), d.core;
    AllArmed(bs);
    OverlayFacts(d.image, bs, {temp.addr}, d.code);
    var rc;
    rc, k := RunOver(d, temp, budget);
    if rc != 0 {
      var _ := DropTemp(d, temp);
      return if d.state == Idle then EntryGone else EntryFailed, k;
    }
    EntryRun(d.isa, d.image, bs, temp.addr, s, budget, d.core);
    end := LeaveEntry(d, temp, bs, s, budget, k);
  }

  /** Run a fresh process (every breakpoint armed) to its entry stop. A stop somewhere else is
      returned without a report, so a user breakpoint hit on the way is never rewound: the thread
      then stands one byte past it, which is no state of the program at all. */
  method RunToEntry(d: Session, entry: Addr, budget: nat) returns (end: EntryEnd, ghost k: nat)
    requires d.Ok({}) && d.state == Stopped && (forall b :: b in d.Bps() ==> b.enabled)
    requires d.Debuggable() && TempSafe(d.isa, d.image, entry, d.core)
    modifies d`requests, d`code, d`core, d`state, d`request, d.table
    ensures d.Ok({}) && SameBreaks(old(d.Bps()), d.Bps())
    ensures Answered(d.grants, old(d.requests), d.requests, !end.EntryFailed? || entry !in d.image)
    ensures entry !in d.image ==> end.EntryFailed?
    ensures d.state == Idle <==> end.EntryGone?
    ensures end.AtEntry? || (end.StoppedElsewhere? && Reaches(d.isa, d.image, old(d.core), d.core)) ==>
              d.AtPrompt() && Iter(d.isa, d.image, old(d.core), k) == Some(d.core)
    ensures EntryOutcome(d.isa, d.image, old(d.Bps()), entry, old(d.core), budget, end, k, d.Bps(), d.core)
  {
    hide Overlay, AlwaysAligned, NeverJustAfter, TempSafe, EndsAway;
    hide UserFirst, EntryFirst, Reaches, EntryStop, Underneath;
    AllArmed(d.Bps());
    var rc, temp := SetTemp(d, entry);
    if rc != 0 { return EntryFailed, 0; }
    end, k := RunToTemp(d, temp, budget);
  }

  // The program of two-byte instructions with a breakpoint on the second, its entry at the third.

  lemma StrideEntry(s: Core)
    requires s.pc == 0
    ensures TempSafe(STRIDE_ISA, STRIDE_IMAGE, 4, s)
  {
    StrideSuits(s);
    AlignedSubset(STRIDE_ISA, STRIDE_IMAGE, {2, 4}, {4}, s);
    forall k: nat
      ensures Iter(STRIDE_ISA, STRIDE_IMAGE, s, k).Some? && Iter(STRIDE_ISA, STRIDE_IMAGE, s, k).value.pc == 2 * k
    {
      StrideIs(s, k);
    }
  }

  /** Every assumption of `RunToEntry` holds, and the breakpoint comes first. */
  lemma EntryStopLost(s: Core, n: nat)
    requires s.pc == 0 && n >= 2
    ensures Local(STRIDE_ISA) && TempSafe(STRIDE_ISA, STRIDE_IMAGE, 4, s)
    ensures AlwaysAligned(STRIDE_ISA, STRIDE_IMAGE, Addrs(STRIDE_BREAKS), s)
    ensures NeverJustAfter(STRIDE_ISA, STRIDE_IMAGE, Addrs(STRIDE_BREAKS), s)
    ensures UserFirst(STRIDE_ISA, STRIDE_IMAGE, Addrs(STRIDE_BREAKS), 4, s, n)
  {
    StrideSuits(s);
    StrideEntry(s);
    StrideArrives(s);
    assert HitsFirst(STRIDE_ISA, STRIDE_IMAGE, {2} + {4}, s, 1);
  }
}
