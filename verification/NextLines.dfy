/** `next`: like `step`, but over calls (src/debugger.c, cdbg_next_source_line). */
module NextLines {
  import opened Basics
  import opened Machine
  import opened Breakpoints
  import opened WatchTable
  import opened Sessions
  import opened Commands
  import opened Stepping
  import opened TempBreakpoints

  const CALL_OPCODE: Byte := 0xe8

  /** The assumptions of `next`: those of stepping, and sound return addresses for every call. */
  ghost predicate NextDebuggable(isa: Isa, image: Code, bs: seq<Breakpoint>, s: Core) {
    && AlwaysAligned(isa, image, Addrs(bs), s)
    && NeverJustAfter(isa, image, Addrs(bs), s)
    && forall j: nat :: Iter(isa, image, s, j).Some? ==> CallSafe(isa, image, Iter(isa, image, s, j).value)
  }

  ghost predicate CallSafe(isa: Isa, image: Code, c: Core) {
    c.pc in image && image[c.pc] == CALL_OPCODE ==> TempSafe(isa, image, c.pc + 5, c)
  }

  lemma NextDebuggableAfter(isa: Isa, image: Code, bs: seq<Breakpoint>, s: Core, i: nat, bs': seq<Breakpoint>)
    requires NextDebuggable(isa, image, bs, s) && Iter(isa, image, s, i).Some? && SameBreaks(bs, bs')
    ensures NextDebuggable(isa, image, bs', Iter(isa, image, s, i).value)
  {
    SameAddrs(bs, bs');
    AlignedAfter(isa, image, Addrs(bs), s, i);
    NeverJustAfterAfter(isa, image, Addrs(bs), s, i);
    var s' := Iter(isa, image, s, i).value;
    forall j: nat | Iter(isa, image, s', j).Some?
      ensures CallSafe(isa, image, Iter(isa, image, s', j).value)
    {
      IterAdd(isa, image, s, i, j);
    }
  }

  /** The return address of the direct call at `pc`, read from code memory as it stands. */
  function CallReturnAddress(code: Code, pc: Addr): Option<Addr> {
    if pc in code && code[pc] == CALL_OPCODE then Some(pc + 5) else None
  }

  lemma NotTrapping(isa: Isa, image: Code, bs: seq<Breakpoint>, s: Core, k: nat)
    requires NeverJustAfter(isa, image, Addrs(bs), s) && Iter(isa, image, s, k).Some?
    requires DisabledOnlyAt(bs, Iter(isa, image, s, k).value.pc)
    ensures Settles(isa, image, s, k, bs, Iter(isa, image, s, k).value)
    ensures !Trapping(bs, Iter(isa, image, s, k).value.pc)
  {
    var c := Iter(isa, image, s, k).value;
    forall x | x in bs ensures !MatchesPc(c.pc, x) {
      assert x.addr in Addrs(bs);
    }
  }

  /** An iteration of `next`: how far the program has got by its end, the two tables as they then are,
      and the report made inside a call that did not return. */
  datatype Leg = Leg(k: nat, bs: seq<Breakpoint>, ws: seq<Watchpoint>, inside: Option<Report>)

  /** From bare state `k0` with tables `bs0` and `ws0`: one instruction, or a call run to its first
      arrival at the return address or to another stop, passing no armed breakpoint. */
  ghost predicate LegFrom(isa: Isa, image: Code, s: Core, k0: nat, bs0: seq<Breakpoint>, ws0: seq<Watchpoint>, leg: Leg) {
    && k0 <= leg.k && Iter(isa, image, s, k0).Some? && Iter(isa, image, s, leg.k).Some?
    && var c0, c := Iter(isa, image, s, k0).value, Iter(isa, image, s, leg.k).value;
    && c0.pc !in EnabledAddrs(bs0)
    && SameBreaks(bs0, leg.bs) && DisabledOnlyAt(leg.bs, c.pc)
    && NoneSkipped(isa, image, bs0, c0, leg.k - k0)
    && match CallReturnAddress(image, c0.pc)
       case None => leg.k == k0 + 1 && leg.inside.None? && leg.bs == Rearm(bs0, c.pc) && leg.ws == ws0
       case Some(ret) =>
         && Avoids(isa, image, c0, leg.k - k0, ret)
         && match leg.inside
            case None => c.pc == ret && leg.ws == ws0 && forall b :: b in leg.bs ==> b.enabled
            case Some(report) => OnlyDisarmed(bs0, leg.bs, report) && Explains(report, leg.bs, c, ws0, leg.ws)
  }

  /** From bare state `k0` with table `bs0` the program ends in an iteration, at its `k`-th instruction, having
      come to no armed breakpoint. */
  ghost predicate LegEnds(isa: Isa, image: Code, s: Core, k0: nat, bs0: seq<Breakpoint>, k: nat) {
    && k0 < k && Iter(isa, image, s, k0).Some? && Ends(isa, image, s, k)
    && var c0 := Iter(isa, image, s, k0).value;
    && c0.pc !in EnabledAddrs(bs0) && NoneSkipped(isa, image, bs0, c0, k - k0)
    && match CallReturnAddress(image, c0.pc)
       case None => k == k0 + 1
       case Some(ret) => Avoids(isa, image, c0, k - k0, ret)
  }

  lemma LegEndsAfter(isa: Isa, image: Code, s: Core, k0: nat, c: Core, bs0: seq<Breakpoint>, k: nat)
    requires Iter(isa, image, s, k0) == Some(c) && LegEnds(isa, image, c, 0, bs0, k)
    ensures LegEnds(isa, image, s, k0, bs0, k0 + k)
  {
    EndsAdd(isa, image, s, k0, c, k);
    assert Iter(isa, image, c, 0) == Some(c);
  }

  lemma LegAfter(isa: Isa, image: Code, s: Core, k0: nat, c: Core, bs0: seq<Breakpoint>, ws0: seq<Watchpoint>, leg: Leg)
    requires Iter(isa, image, s, k0) == Some(c) && LegFrom(isa, image, c, 0, bs0, ws0, leg)
    ensures LegFrom(isa, image, s, k0, bs0, ws0, leg.(k := k0 + leg.k))
  {
    IterAdd(isa, image, s, k0, leg.k);
    assert Iter(isa, image, c, 0) == Some(c);
  }

  /** What iteration `i` started from. */
  ghost function Before(bs0: seq<Breakpoint>, ws0: seq<Watchpoint>, legs: seq<Leg>, i: nat): Leg
    requires i <= |legs|
  {
    if i == 0 then Leg(0, bs0, ws0, None) else legs[i - 1]
  }

  ghost predicate LegAt(isa: Isa, image: Code, s: Core, bs0: seq<Breakpoint>, ws0: seq<Watchpoint>, legs: seq<Leg>, i: nat)
    requires i < |legs|
  {
    var from := Before(bs0, ws0, legs, i);
    LegFrom(isa, image, s, from.k, from.bs, from.ws, legs[i])
  }

  /** Iterations follow one another from `s`. */
  ghost predicate Journey(isa: Isa, image: Code, s: Core, bs0: seq<Breakpoint>, ws0: seq<Watchpoint>, legs: seq<Leg>) {
    forall i :: 0 <= i < |legs| ==> LegAt(isa, image, s, bs0, ws0, legs, i)
  }

  /** Nothing to stop for: no watched value has changed and the pc is not on another line. */
  ghost predicate GoesOn(lineAt: Addr -> Option<Location>, start: Location, ws: seq<Watchpoint>, c: Core) {
    !WatchChanged(ws, c) && !NewLine(lineAt, start, c.pc)
  }

  /** There was nothing to stop for after the first `n` iterations. */
  ghost predicate QuietLegs(isa: Isa, image: Code, lineAt: Addr -> Option<Location>, start: Location, s: Core,
                            legs: seq<Leg>, n: nat) {
    n <= |legs| && forall i :: 0 <= i < n ==>
      && Iter(isa, image, s, legs[i].k).Some?
      && GoesOn(lineAt, start, legs[i].ws, Iter(isa, image, s, legs[i].k).value)
  }

  ghost function LastLeg(bs0: seq<Breakpoint>, ws0: seq<Watchpoint>, legs: seq<Leg>): Leg {
    Before(bs0, ws0, legs, |legs|)
  }

  /** What the patched code has at an unarmed address is what the program has there. */
  lemma CallUnarmed(image: Code, bs: seq<Breakpoint>, code: Code, pc: Addr)
    requires Overlay(image, bs, {}, code)
    ensures CallReturnAddress(code, pc).Some? ==>
              pc !in EnabledAddrs(bs) && CallReturnAddress(image, pc) == CallReturnAddress(code, pc)
    ensures CallReturnAddress(code, pc).None? && pc !in EnabledAddrs(bs) ==> CallReturnAddress(image, pc).None?
  {
  }

  lemma LegAtPrompt(isa: Isa, image: Code, s: Core, bs: seq<Breakpoint>, ws: seq<Watchpoint>, leg: Leg, c: Core)
    ensures LegFrom(isa, image, s, 0, bs, ws, leg) && Iter(isa, image, s, leg.k) == Some(c) ==> DisabledOnlyAt(leg.bs, c.pc)
  {
  }

  /** The direct call at `c` would return to unmapped code: no breakpoint can be set there. */
  predicate NoReturn(image: Code, c: Core) {
    CallReturnAddress(image, c.pc).Some? && CallReturnAddress(image, c.pc).value !in image
  }

  lemma CallLeg(isa: Isa, image: Code, bs: seq<Breakpoint>, ws: seq<Watchpoint>, s: Core, ret: Addr, leg: Leg, c: Core)
    requires CallReturnAddress(image, s.pc) == Some(ret) && s.pc !in EnabledAddrs(bs)
    requires SameBreaks(bs, leg.bs) && Iter(isa, image, s, leg.k) == Some(c) && DisabledOnlyAt(leg.bs, c.pc)
    requires NoneSkipped(isa, image, bs, s, leg.k) && Avoids(isa, image, s, leg.k, ret)
    requires match leg.inside
             case None => c.pc == ret && leg.ws == ws && forall b :: b in leg.bs ==> b.enabled
             case Some(report) => OnlyDisarmed(bs, leg.bs, report) && Explains(report, leg.bs, c, ws, leg.ws)
    ensures LegFrom(isa, image, s, 0, bs, ws, leg)
  {
    assert Iter(isa, image, s, 0) == Some(s);
  }

  lemma EndsInCall(isa: Isa, image: Code, bs: seq<Breakpoint>, s: Core, ret: Addr, n: nat, k: nat)
    requires CallReturnAddress(image, s.pc) == Some(ret) && s.pc !in EnabledAddrs(bs)
    requires EndsAway(isa, image, bs, ret, s, n, k)
    ensures LegEnds(isa, image, s, 0, bs, k)
  {
    assert Iter(isa, image, s, 0) == Some(s);
  }

  /** An iteration over a call. */
  method OverCall(d: Session, ret: Addr, budget: nat) returns (rc: int, ghost leg: Leg)
    requires d.AtPrompt() && NextDebuggable(d.isa, d.image, d.Bps(), d.core)
    requires CallReturnAddress(d.image, d.core.pc) == Some(ret) && d.core.pc !in EnabledAddrs(d.Bps())
    modifies d`requests, d`code, d`core, d`state, d`request, d`watches, d.table
    ensures d.Ok({}) && SameBreaks(old(d.Bps()), d.Bps())
    ensures rc == 0 || rc == 1 || rc == -1
    ensures Answered(d.grants, old(d.requests), d.requests, rc >= 0 || ret !in d.image)
    ensures d.state == Idle <==> rc == 1
    ensures rc == 1 ==> LegEnds(d.isa, d.image, old(d.core), 0, old(d.Bps()), leg.k)
    ensures rc == 0 ==>
              && d.state == Stopped && !Trapping(d.Bps(), d.core.pc)
              && LegFrom(d.isa, d.image, old(d.core), 0, old(d.Bps()), old(d.watches), leg)
              && leg.bs == d.Bps() && leg.ws == d.watches && Iter(d.isa, d.image, old(d.core), leg.k) == Some(d.core)
  {
    hide Overlay, AlwaysAligned, NeverJustAfter, NoneSkipped, Avoids, Explains, TempSafe, LegFrom;
    ghost var isa, image, bs, s, ws := d.isa, d.image, d.Bps(), d.core, d.watches;
    leg := Leg(0, bs, ws, None);
    CallSafeNow(isa, image, bs, s);
    var end;
    ghost var k;
    end, k := StepOverCall(d, ret, budget);
    SameAddrs(bs, d.Bps());
    leg := Leg(k, d.Bps(), d.watches, if end.Other? then Some(end.report) else None);
    if end.TempGone? {
      EndsInCall(isa, image, bs, s, ret, budget, k);
      return 1, leg;
    }
    if end.TempFailed? { return -1, leg; }
    NotTrapping(isa, image, d.Bps(), s, k);
    CallLeg(isa, image, bs, ws, s, ret, leg, d.core);
    rc := 0;
  }

  lemma CallSafeNow(isa: Isa, image: Code, bs: seq<Breakpoint>, s: Core)
    requires NextDebuggable(isa, image, bs, s)
    ensures CallSafe(isa, image, s)
  {
    assert Iter(isa, image, s, 0) == Some(s);
  }

  lemma SingleUnskipped(isa: Isa, image: Code, bs: seq<Breakpoint>, s: Core)
    requires s.pc !in EnabledAddrs(bs)
    ensures NoneSkipped(isa, image, bs, s, 1)
  {
    assert Iter(isa, image, s, 0) == Some(s);
    if s.pc in Addrs(bs) {
      EnabledOrDisabled(bs, s.pc);
    }
  }

  /** An iteration without a call: one instruction, or a trap on the armed breakpoint under it. */
  method OneStep(d: Session) returns (rc: int, ghost leg: Leg)
    requires d.AtPrompt() && NextDebuggable(d.isa, d.image, d.Bps(), d.core)
    requires d.core.pc !in EnabledAddrs(d.Bps()) ==> CallReturnAddress(d.image, d.core.pc).None?
    modifies d`requests, d`code, d`core, d`state, d`request, d.table
    ensures d.Ok({}) && SameBreaks(old(d.Bps()), d.Bps())
    ensures rc == 0 || rc == 1 || rc == -1
    ensures Answered(d.grants, old(d.requests), d.requests, rc >= 0)
    ensures d.state == Idle <==> rc == 1
    ensures rc == 1 ==> LegEnds(d.isa, d.image, old(d.core), 0, old(d.Bps()), leg.k)
    ensures rc == 0 ==> d.state == Stopped
    ensures rc == 0 && Trapping(d.Bps(), d.core.pc) ==>
              && old(d.core.pc) in EnabledAddrs(old(d.Bps())) && Settled(d.Bps(), d.core, old(d.core))
              && d.Bps() == old(d.Bps())
    ensures rc == 0 && !Trapping(d.Bps(), d.core.pc) ==>
              && LegFrom(d.isa, d.image, old(d.core), 0, old(d.Bps()), d.watches, leg)
              && leg.bs == d.Bps() && leg.ws == d.watches && Iter(d.isa, d.image, old(d.core), leg.k) == Some(d.core)
  {
    hide Overlay, AlwaysAligned, NeverJustAfter, NoneSkipped;
    ghost var isa, image, bs, s, ws := d.isa, d.image, d.Bps(), d.core, d.watches;
    leg := Leg(1, bs, ws, None);
    assert Iter(isa, image, s, 0) == Some(s);
    AlignedArmed(isa, image, bs, s);
    OverlayFacts(image, bs, {}, d.code);
    rc := StepOnce(d);
    if rc == 1 {
      EndsNow(isa, image, s);
      SingleUnskipped(isa, image, bs, s);
    }
    if rc == 0 {
      StepSettles(isa, image, bs, s, d.core);
      leg := Leg(1, d.Bps(), ws, None);
      if s.pc !in EnabledAddrs(bs) {
        SingleUnskipped(isa, image, bs, s);
      } else {
        TrapSettles(bs, s);
      }
    }
  }

  /** One iteration of `next`: over a call, or a single instruction. */
  method NextAdvance(d: Session, budget: nat) returns (rc: int, ghost leg: Leg)
    requires d.AtPrompt() && NextDebuggable(d.isa, d.image, d.Bps(), d.core)
    modifies d`requests, d`code, d`core, d`state, d`request, d`watches, d.table
    ensures d.Ok({}) && SameBreaks(old(d.Bps()), d.Bps())
    ensures rc == 0 || rc == 1 || rc == -1
    ensures rc >= 0 ==> Answered(d.grants, old(d.requests), d.requests, true)
    ensures rc == -1 ==>
              || Answered(d.grants, old(d.requests), d.requests, false)
              || (Answered(d.grants, old(d.requests), d.requests, true) && NoReturn(d.image, old(d.core)))
    ensures d.state == Idle <==> rc == 1
    ensures rc == 1 ==> LegEnds(d.isa, d.image, old(d.core), 0, old(d.Bps()), leg.k)
    ensures rc == 0 ==> d.state == Stopped
    ensures rc == 0 && Trapping(d.Bps(), d.core.pc) ==>
              && old(d.core.pc) in EnabledAddrs(old(d.Bps())) && Settled(d.Bps(), d.core, old(d.core))
              && d.watches == old(d.watches) && d.Bps() == old(d.Bps())
    ensures rc == 0 && !Trapping(d.Bps(), d.core.pc) ==>
              && LegFrom(d.isa, d.image, old(d.core), 0, old(d.Bps()), old(d.watches), leg)
              && leg.bs == d.Bps() && leg.ws == d.watches && Iter(d.isa, d.image, old(d.core), leg.k) == Some(d.core)
  {
    hide Overlay, NextDebuggable, LegFrom, Settled, Trapping;
    CallUnarmed(d.image, d.Bps(), d.code, d.core.pc);
    var ret := CallReturnAddress(d.code, d.core.pc);
    if ret.Some? {
      rc, leg := OverCall(d, ret.value, budget);
    } else {
      rc, leg := OneStep(d);
    }
  }

  /** One iteration and the looks after it. LimitExceeded here means "nothing to report, go on". */
  method NextAndLook(d: Session, start: Location, budget: nat) returns (end: StepEnd, ghost leg: Leg)
    requires d.AtPrompt() && NextDebuggable(d.isa, d.image, d.Bps(), d.core)
    modifies d`requests, d`code, d`core, d`state, d`request, d`watches, d.table
    ensures d.Ok({}) && SameBreaks(old(d.Bps()), d.Bps()) && !end.SteppedBlind? && !end.SteppedUnreported?
    ensures !end.StepFailed? ==> Answered(d.grants, old(d.requests), d.requests, true)
    ensures end.StepFailed? ==>
              || Answered(d.grants, old(d.requests), d.requests, false)
              || (Answered(d.grants, old(d.requests), d.requests, true) && NoReturn(d.image, old(d.core)))
    ensures d.state == Idle <==> end.StepFinished?
    ensures end.StepFinished? ==> LegEnds(d.isa, d.image, old(d.core), 0, old(d.Bps()), leg.k)
    ensures end.AtBreakpoint? ==>
              && d.AtPrompt() && d.core == old(d.core) && d.core.pc in EnabledAddrs(old(d.Bps()))
              && end.index < d.count && d.table[end.index].addr == d.core.pc
              && d.Bps() == Disarmed(old(d.Bps()), BreakpointHit(end.index)) && d.watches == old(d.watches)
    ensures end.AtWatch? || end.AtNewLine? || end.LimitExceeded? ==>
              && d.AtPrompt() && Iter(d.isa, d.image, old(d.core), leg.k) == Some(d.core) && leg.bs == d.Bps()
              && LegFrom(d.isa, d.image, old(d.core), 0, old(d.Bps()), old(d.watches), leg)
              && Looked(d.lineAt, start, leg.ws, d.core, end, d.watches)
  {
    hide Overlay, NextDebuggable, LegFrom, Iter;
    ghost var bs, s, ws := d.Bps(), d.core, d.watches;
    var rc;
    rc, leg := NextAdvance(d, budget);
    if rc == 1 { return StepFinished, leg; }
    if rc != 0 { return StepFailed, leg; }
    LegAtPrompt(d.isa, d.image, s, bs, ws, leg, d.core);
    end := LookAround(d, start, s, bs);
  }

  /** What the looks after an iteration find, in their order. */
  ghost predicate Looked(lineAt: Addr -> Option<Location>, start: Location, ws: seq<Watchpoint>, c: Core, end: StepEnd,
                         ws': seq<Watchpoint>) {
    match end
    case AtWatch(i) => WatchHit(ws, c, i, ws')
    case AtNewLine => !WatchChanged(ws, c) && NewLine(lineAt, start, c.pc) && ws' == ws
    case LimitExceeded => GoesOn(lineAt, start, ws, c) && ws' == ws
    case _ => false
  }

  /** A breakpoint hit inside a call has been reported, and `next` passes it exactly when no watched value
      has changed and the breakpoint is on no other known line. */
  lemma PassesHitIff(isa: Isa, image: Code, lineAt: Addr -> Option<Location>, start: Location, s: Core, k0: nat,
                     bs: seq<Breakpoint>, ws: seq<Watchpoint>, leg: Leg, end: StepEnd, ws': seq<Watchpoint>)
    requires LegFrom(isa, image, s, k0, bs, ws, leg)
    requires Looked(lineAt, start, leg.ws, Iter(isa, image, s, leg.k).value, end, ws')
    requires leg.inside.Some? && leg.inside.value.BreakpointHit?
    ensures leg.inside.value.index < |leg.bs|
    ensures var b := leg.bs[leg.inside.value.index];
            && Iter(isa, image, s, leg.k).value.pc == b.addr
            && (end.LimitExceeded? <==>
                  !WatchChanged(ws, Iter(isa, image, s, leg.k).value) && !NewLine(lineAt, start, b.addr))
  {
    assert CallReturnAddress(image, Iter(isa, image, s, k0).value.pc).Some?;
  }

  function StackPointer(c: Core): Option<Word> {
    if "rsp" in c.regs then Some(c.regs["rsp"]) else None
  }

  /** `m` instructions after the call at `c`, and no sooner, its own frame is back at the return address. */
  ghost predicate OwnReturn(isa: Isa, image: Code, c: Core, ret: Addr, m: nat) {
    && Iter(isa, image, c, m).Some?
    && Iter(isa, image, c, m).value.pc == ret && StackPointer(Iter(isa, image, c, m).value) == StackPointer(c)
    && forall j: nat :: j < m ==>
         && Iter(isa, image, c, j).Some?
         && !(Iter(isa, image, c, j).value.pc == ret && StackPointer(Iter(isa, image, c, j).value) == StackPointer(c))
  }

  /** A call gone over to its return address ends in the frame it was made from exactly when no deeper
      frame returns to the same address first. */
  lemma SameFrameIff(isa: Isa, image: Code, s: Core, k0: nat, bs: seq<Breakpoint>, ws: seq<Watchpoint>, leg: Leg, m: nat)
    requires LegFrom(isa, image, s, k0, bs, ws, leg) && leg.inside.None?
    requires var c0 := Iter(isa, image, s, k0).value;
             CallReturnAddress(image, c0.pc).Some? && OwnReturn(isa, image, c0, CallReturnAddress(image, c0.pc).value, m)
    ensures var c0 := Iter(isa, image, s, k0).value;
            && leg.k <= k0 + m
            && (leg.k == k0 + m <==> Avoids(isa, image, c0, m, CallReturnAddress(image, c0.pc).value))
            && (leg.k == k0 + m <==> StackPointer(Iter(isa, image, s, leg.k).value) == StackPointer(c0))
  {
    IterAdd(isa, image, s, k0, leg.k - k0);
  }

  /** An iteration of the loop, told from where `next` began. */
  method NextLeg(d: Session, start: Location, budget: nat, ghost bs: seq<Breakpoint>, ghost s: Core,
                 ghost ws: seq<Watchpoint>, ghost legs: seq<Leg>)
    returns (end: StepEnd, ghost leg: Leg)
    requires d.AtPrompt() && SameBreaks(bs, d.Bps()) && NextDebuggable(d.isa, d.image, bs, s)
    requires var last := LastLeg(bs, ws, legs);
             Iter(d.isa, d.image, s, last.k) == Some(d.core) && d.Bps() == last.bs && d.watches == last.ws
    modifies d`requests, d`code, d`core, d`state, d`request, d`watches, d.table
    ensures d.Ok({}) && SameBreaks(bs, d.Bps()) && !end.SteppedBlind? && !end.SteppedUnreported?
    ensures !end.StepFailed? ==> Answered(d.grants, old(d.requests), d.requests, true)
    ensures end.StepFailed? ==>
              || Answered(d.grants, old(d.requests), d.requests, false)
              || (Answered(d.grants, old(d.requests), d.requests, true) && NoReturn(d.image, old(d.core)))
    ensures d.state == Idle <==> end.StepFinished?
    ensures end.StepFinished? ==> LegEnds(d.isa, d.image, s, LastLeg(bs, ws, legs).k, old(d.Bps()), leg.k)
    ensures end.AtBreakpoint? ==>
              && d.AtPrompt() && d.core == old(d.core) && d.core.pc in EnabledAddrs(LastLeg(bs, ws, legs).bs)
              && end.index < d.count && d.table[end.index].addr == d.core.pc
              && d.Bps() == Disarmed(old(d.Bps()), BreakpointHit(end.index)) && d.watches == old(d.watches)
    ensures end.AtWatch? || end.AtNewLine? || end.LimitExceeded? ==>
              && d.AtPrompt() && Iter(d.isa, d.image, s, leg.k) == Some(d.core) && leg.bs == d.Bps()
              && LegFrom(d.isa, d.image, s, LastLeg(bs, ws, legs).k, old(d.Bps()), old(d.watches), leg)
              && Looked(d.lineAt, start, leg.ws, d.core, end, d.watches)
  {
    hide Overlay, LegFrom, LegEnds, NextDebuggable, Looked, LastLeg, Iter;
    ghost var isa, image, c, last, now, ws0 := d.isa, d.image, d.core, LastLeg(bs, ws, legs), d.Bps(), d.watches;
    NextDebuggableAfter(isa, image, bs, s, last.k, now);
    end, leg := NextAndLook(d, start, budget);
    if end.StepFinished? {
      LegEndsAfter(isa, image, s, last.k, c, now, leg.k);
    } else if end.AtWatch? || end.AtNewLine? || end.LimitExceeded? {
      LegAfter(isa, image, s, last.k, c, now, ws0, leg);
      IterAdd(isa, image, s, last.k, leg.k);
    }
    leg := leg.(k := last.k + leg.k);
  }

  lemma JourneyGrows(isa: Isa, image: Code, s: Core, bs: seq<Breakpoint>, ws: seq<Watchpoint>, legs: seq<Leg>, leg: Leg)
    requires Journey(isa, image, s, bs, ws, legs)
    requires var last := LastLeg(bs, ws, legs); LegFrom(isa, image, s, last.k, last.bs, last.ws, leg)
    ensures Journey(isa, image, s, bs, ws, legs + [leg])
  {
    var all := legs + [leg];
    forall i | 0 <= i < |all| ensures LegAt(isa, image, s, bs, ws, all, i) {
      if i < |legs| {
        assert Before(bs, ws, all, i) == Before(bs, ws, legs, i);
        assert LegAt(isa, image, s, bs, ws, legs, i);
      }
    }
  }

  lemma QuietGrows(isa: Isa, image: Code, lineAt: Addr -> Option<Location>, start: Location, s: Core, legs: seq<Leg>, leg: Leg, c: Core)
    requires QuietLegs(isa, image, lineAt, start, s, legs, |legs|)
    ensures QuietLegs(isa, image, lineAt, start, s, legs + [leg], |legs|)
    ensures Iter(isa, image, s, leg.k) == Some(c) && GoesOn(lineAt, start, leg.ws, c) ==>
              QuietLegs(isa, image, lineAt, start, s, legs + [leg], |legs| + 1)
  {
    assert forall i :: 0 <= i < |legs| ==> (legs + [leg])[i] == legs[i];
  }

  /** `next` has run through `legs` from `s` and ended at `c` for the reason `end` gives: the first iteration
      with something to stop for, an armed breakpoint it stands on, or the limit. */
  ghost predicate Ended(isa: Isa, image: Code, lineAt: Addr -> Option<Location>, start: Location, bs: seq<Breakpoint>,
                        ws: seq<Watchpoint>, s: Core, end: StepEnd, legs: seq<Leg>, c: Core,
                        bs': seq<Breakpoint>, ws': seq<Watchpoint>) {
    var last := LastLeg(bs, ws, legs);
    && Journey(isa, image, s, bs, ws, legs) && Iter(isa, image, s, last.k) == Some(c)
    && |legs| <= MAX_STEP_ITERATIONS
    && match end
       case AtBreakpoint(i) =>
         && c.pc in EnabledAddrs(last.bs) && QuietLegs(isa, image, lineAt, start, s, legs, |legs|) && ws' == last.ws
         && i < |bs'| && bs'[i].addr == c.pc && bs' == Disarmed(last.bs, BreakpointHit(i))
       case LimitExceeded =>
         && |legs| == MAX_STEP_ITERATIONS && QuietLegs(isa, image, lineAt, start, s, legs, |legs|)
         && bs' == last.bs && ws' == last.ws
       case _ =>
         && legs != [] && Looked(lineAt, start, last.ws, c, end, ws') && bs' == last.bs
         && QuietLegs(isa, image, lineAt, start, s, legs, |legs| - 1)
  }

  /** `next` has run through `legs` from `s`, fewer than its limit, with nothing to stop for. */
  ghost predicate Travelled(isa: Isa, image: Code, lineAt: Addr -> Option<Location>, start: Location, bs: seq<Breakpoint>,
                            ws: seq<Watchpoint>, s: Core, legs: seq<Leg>) {
    && |legs| < MAX_STEP_ITERATIONS && Iter(isa, image, s, LastLeg(bs, ws, legs).k).Some?
    && Journey(isa, image, s, bs, ws, legs) && QuietLegs(isa, image, lineAt, start, s, legs, |legs|)
  }

  /** A `next` from `s` in which the program ends, at its `k`-th instruction, with nothing to stop for before. */
  ghost predicate NextEnds(isa: Isa, image: Code, lineAt: Addr -> Option<Location>, bs: seq<Breakpoint>, ws: seq<Watchpoint>,
                           s: Core, legs: seq<Leg>, k: nat) {
    match lineAt(s.pc)
    case None => k == 1 && Ends(isa, image, s, 1) && s.pc !in EnabledAddrs(bs)
    case Some(start) =>
      var last := LastLeg(bs, ws, legs);
      Travelled(isa, image, lineAt, start, bs, ws, s, legs) && LegEnds(isa, image, s, last.k, last.bs, k)
  }

  /** A `next` from `s` that comes to a call returning to unmapped code. */
  ghost predicate NoWayOn(isa: Isa, image: Code, lineAt: Addr -> Option<Location>, bs: seq<Breakpoint>, ws: seq<Watchpoint>,
                          s: Core, legs: seq<Leg>) {
    && lineAt(s.pc).Some? && Travelled(isa, image, lineAt, lineAt(s.pc).value, bs, ws, s, legs)
    && NoReturn(image, Iter(isa, image, s, LastLeg(bs, ws, legs).k).value)
  }

  /** The loop, with the line it started on known. Iteration `i` may run `budgets(i)` instructions inside a
      call before the kernel stops it. */
  method NextLoop(d: Session, start: Location, budgets: nat -> nat) returns (end: StepEnd, ghost k: nat, ghost legs: seq<Leg>)
    requires d.AtPrompt() && NextDebuggable(d.isa, d.image, d.Bps(), d.core)
    modifies d`requests, d`code, d`core, d`state, d`request, d`watches, d.table
    ensures d.Ok({}) && SameBreaks(old(d.Bps()), d.Bps()) && !end.SteppedBlind? && !end.SteppedUnreported?
    ensures !end.StepFailed? ==> Answered(d.grants, old(d.requests), d.requests, true)
    ensures d.state == Idle <==> end.StepFinished?
    ensures end.StepFailed? || end.StepFinished? ==>
              Travelled(d.isa, d.image, d.lineAt, start, old(d.Bps()), old(d.watches), old(d.core), legs)
    ensures end.StepFailed? ==>
              || Answered(d.grants, old(d.requests), d.requests, false)
              || (Answered(d.grants, old(d.requests), d.requests, true)
                  && NoReturn(d.image, Iter(d.isa, d.image, old(d.core), LastLeg(old(d.Bps()), old(d.watches), legs).k).value))
    ensures end.StepFinished? ==>
              var last := LastLeg(old(d.Bps()), old(d.watches), legs);
              LegEnds(d.isa, d.image, old(d.core), last.k, last.bs, k)
    ensures !end.StepFailed? && !end.StepFinished? ==>
              && d.AtPrompt() && k == LastLeg(old(d.Bps()), old(d.watches), legs).k
              && Ended(d.isa, d.image, d.lineAt, start, old(d.Bps()), old(d.watches), old(d.core), end, legs, d.core,
                       d.Bps(), d.watches)
    ensures end.AtBreakpoint? ==> end.index < d.count && d.table[end.index].addr == d.core.pc
  {
    hide Overlay, NextDebuggable, LegFrom, LegEnds, Journey, QuietLegs, Iter, EnabledAddrs;
    ghost var bs, s, ws, isa, image := d.Bps(), d.core, d.watches, d.isa, d.image;
    k, legs := 0, [];
    LoopStart(isa, image, d.lineAt, start, bs, ws, s);
    var i := 0;
    while i < MAX_STEP_ITERATIONS
      invariant i == |legs| <= MAX_STEP_ITERATIONS && k == LastLeg(bs, ws, legs).k
      invariant d.AtPrompt() && SameBreaks(bs, d.Bps()) && Iter(isa, image, s, k) == Some(d.core)
      invariant d.Bps() == LastLeg(bs, ws, legs).bs && d.watches == LastLeg(bs, ws, legs).ws
      invariant Journey(isa, image, s, bs, ws, legs) && QuietLegs(isa, image, d.lineAt, start, s, legs, |legs|)
      invariant Answered(d.grants, old(d.requests), d.requests, true)
    {
      ghost var leg;
      end, leg := NextLeg(d, start, budgets(i), bs, s, ws, legs);
      if end.StepFailed? || end.AtBreakpoint? {
        return;
      }
      k := leg.k;
      if end.StepFinished? {
        return;
      }
      JourneyGrows(isa, image, s, bs, ws, legs, leg);
      QuietGrows(isa, image, d.lineAt, start, s, legs, leg, d.core);
      LastIs(bs, ws, legs, leg);
      legs := legs + [leg];
      if !end.LimitExceeded? {
        return;
      }
      i := i + 1;
    }
    end := LimitExceeded;
  }

  lemma LoopStart(isa: Isa, image: Code, lineAt: Addr -> Option<Location>, start: Location, bs: seq<Breakpoint>,
                  ws: seq<Watchpoint>, s: Core)
    ensures Journey(isa, image, s, bs, ws, []) && QuietLegs(isa, image, lineAt, start, s, [], 0)
    ensures LastLeg(bs, ws, []) == Leg(0, bs, ws, None) && Iter(isa, image, s, 0) == Some(s)
  {
  }

  lemma LastIs(bs: seq<Breakpoint>, ws: seq<Watchpoint>, legs: seq<Leg>, leg: Leg)
    ensures LastLeg(bs, ws, legs + [leg]) == leg
  {
  }

  /** `next`. */
  method NextSourceLine(d: Session, budgets: nat -> nat) returns (end: StepEnd, ghost k: nat, ghost legs: seq<Leg>)
    requires d.AtPrompt() && NextDebuggable(d.isa, d.image, d.Bps(), d.core)
    modifies d`requests, d`code, d`core, d`state, d`request, d`watches, d.table
    ensures d.Ok({}) && SameBreaks(old(d.Bps()), d.Bps())
    // it fails only on a refused request, or on a call whose return address is not mapped
    ensures !end.StepFailed? && !end.SteppedUnreported? ==> Answered(d.grants, old(d.requests), d.requests, true)
    ensures end.StepFailed? ==>
              || Answered(d.grants, old(d.requests), d.requests, false)
              || (Answered(d.grants, old(d.requests), d.requests, true)
                  && NoWayOn(d.isa, d.image, d.lineAt, old(d.Bps()), old(d.watches), old(d.core), legs))
    ensures d.state == Idle <==> end.StepFinished?
    ensures end.StepFinished? ==> NextEnds(d.isa, d.image, d.lineAt, old(d.Bps()), old(d.watches), old(d.core), legs, k)
    ensures !end.StepFailed? && !end.StepFinished? && !end.SteppedUnreported? ==>
              d.AtPrompt() && Iter(d.isa, d.image, old(d.core), k) == Some(d.core)
    ensures end.SteppedBlind? || end.SteppedUnreported? ==>
              SiTold(d.isa, d.image, Blind(end), old(d.Bps()), old(d.core), d.core, d.Bps(), old(d.watches), d.watches)
    ensures end.SteppedBlind? || end.SteppedUnreported? ==>
              d.lineAt(old(d.core.pc)).None? && k == if old(d.core.pc) in EnabledAddrs(old(d.Bps())) then 0 else 1
    ensures end.SteppedUnreported? ==>
              && Answered(d.grants, old(d.requests), d.requests, false)
              && Stepped(d.isa, d.image, old(d.Bps()), old(d.core)) == Some(d.core)
              && (old(d.core.pc) !in EnabledAddrs(old(d.Bps())) ==>
                    d.AtPrompt() && Iter(d.isa, d.image, old(d.core), k) == Some(d.core))
    ensures end.AtBreakpoint? || end.AtWatch? || end.AtNewLine? || end.LimitExceeded? ==>
              && d.lineAt(old(d.core.pc)).Some? && k == LastLeg(old(d.Bps()), old(d.watches), legs).k
              && Ended(d.isa, d.image, d.lineAt, d.lineAt(old(d.core.pc)).value, old(d.Bps()), old(d.watches),
                       old(d.core), end, legs, d.core,
                       d.Bps(), d.watches)
    ensures end.AtBreakpoint? ==> end.index < d.count && d.table[end.index].addr == d.core.pc
  {
    hide Overlay, AlwaysAligned, NeverJustAfter, Journey, QuietLegs, Looked, Stepped, NoReturn, Iter, EnabledAddrs;
    k, legs := 0, [];
    var rc := d.RefreshRegs();
    if rc != 0 { return StepFailed, 0, []; }
    var start := d.lineAt(d.core.pc);
    if start.None? {
      end, k := StepBlind(d);
    } else {
      end, k, legs := NextLoop(d, start.value, budgets);
    }
  }

  // A program that calls, and a breakpoint on the first instruction of what it calls, whose line is
  // not known.

  const CALL_ISA := Isa((_, pc) => if pc == 0 then 5 else 2, (_, c: Core) => Some(c.(pc := if c.pc == 0 then 10 else 5)))

  const CALL_IMAGE: Code := map[0 := 0xe8, 5 := 0x90, 6 := 0, 10 := 0x90, 11 := 0]

  const CALL_BREAKS := [Breakpoint(10, 0x90, true, "0xa")]

  const CALL_LINE := Location("main.c", 1)

  lemma {:induction false} CallStaysIn(c: Core, k: nat)
    requires c.pc == 0 || c.pc == 5 || c.pc == 10
    ensures Iter(CALL_ISA, CALL_IMAGE, c, k).Some?
    ensures Iter(CALL_ISA, CALL_IMAGE, c, k).value.pc in {0, 5, 10}
    decreases k
  {
    if k > 0 {
      CallStaysIn(Next(CALL_ISA, CALL_IMAGE, c).value, k - 1);
    }
  }

  lemma CallAlwaysAligned(s: Core)
    requires s.pc == 0
    ensures AlwaysAligned(CALL_ISA, CALL_IMAGE, {10}, s) && NeverJustAfter(CALL_ISA, CALL_IMAGE, {10}, s)
  {
    forall k: nat
      ensures Iter(CALL_ISA, CALL_IMAGE, s, k).Some? && Iter(CALL_ISA, CALL_IMAGE, s, k).value.pc in {0, 5, 10}
    {
      CallStaysIn(s, k);
    }
  }

  lemma CallIsSafe(c: Core)
    requires c.pc in {0, 5, 10}
    ensures TempSafe(CALL_ISA, CALL_IMAGE, 5, c)
  {
    forall k: nat
      ensures Iter(CALL_ISA, CALL_IMAGE, c, k).Some? && Iter(CALL_ISA, CALL_IMAGE, c, k).value.pc in {0, 5, 10}
    {
      CallStaysIn(c, k);
    }
  }

  lemma CallSuits(s: Core)
    requires s.pc == 0
    ensures Local(CALL_ISA) && Addrs(CALL_BREAKS) == {10} && NextDebuggable(CALL_ISA, CALL_IMAGE, CALL_BREAKS, s)
    ensures TempSafe(CALL_ISA, CALL_IMAGE, 5, s)
  {
    hide TempSafe, AlwaysAligned, NeverJustAfter;
    assert Addrs(CALL_BREAKS) == {10} by { assert CALL_BREAKS[0] in CALL_BREAKS; }
    CallAlwaysAligned(s);
    forall j: nat
      ensures Iter(CALL_ISA, CALL_IMAGE, s, j).Some?
      ensures CallSafe(CALL_ISA, CALL_IMAGE, Iter(CALL_ISA, CALL_IMAGE, s, j).value)
    {
      CallStaysIn(s, j);
      CallIsSafe(Iter(CALL_ISA, CALL_IMAGE, s, j).value);
    }
    CallIsSafe(s);
  }

  /** Every assumption of `next` holds; the kernel, allowed two instructions or more, stops the call on
      the breakpoint; and with no watchpoint set there is nothing to make `next` stop there. */
  lemma NextPassesBreakpoint(n: nat)
    requires n >= 2
    ensures var s := Core(0, map[], map[]);
            var hit := CALL_BREAKS[0 := CALL_BREAKS[0].(enabled := false)];
            var lineAt := (pc: Addr) => if pc < 10 then Some(CALL_LINE) else None;
            && NextDebuggable(CALL_ISA, CALL_IMAGE, CALL_BREAKS, s)
            && CallReturnAddress(CALL_IMAGE, s.pc) == Some(5)
            && Resume(CALL_ISA, Patch(CALL_IMAGE, Addrs(CALL_BREAKS) + {5}), s, n) == Trapped(s.(pc := 11))
            && LegFrom(CALL_ISA, CALL_IMAGE, s, 0, CALL_BREAKS, [], Leg(1, hit, [], Some(BreakpointHit(0))))
            && lineAt(s.pc) == Some(CALL_LINE)
            && GoesOn(lineAt, CALL_LINE, [], s.(pc := 10))
  {
    hide Patch, NextDebuggable, AlwaysAligned;
    var s := Core(0, map[], map[]);
    CallSuits(s);
    CallAlwaysAligned(s);
    assert Iter(CALL_ISA, CALL_IMAGE, s, 0) == Some(s);
    assert Next(CALL_ISA, CALL_IMAGE, s) == Some(s.(pc := 10));
    assert Iter(CALL_ISA, CALL_IMAGE, s.(pc := 10), 0) == Some(s.(pc := 10));
    assert Iter(CALL_ISA, CALL_IMAGE, s, 1) == Some(s.(pc := 10));
    AllArmed(CALL_BREAKS);
    assert HitsFirst(CALL_ISA, CALL_IMAGE, {10} + {5}, s, 1);
    AlignedUnion(CALL_ISA, CALL_IMAGE, {10}, {5}, s);
    HitStops(CALL_ISA, CALL_IMAGE, {10} + {5}, s, n, 1);
  }

  // A function at 0 that counts "rcx" down and calls itself from 4 until it is zero:
  // 0: loop 4; 2: ret; 4: call 0; 9: ret. A return address is one byte of data memory here.

  function Frame(pc: Addr, sp: Word, n: Word, data: map<Addr, Byte>): Core {
    Core(pc, map["rsp" := sp, "rcx" := n], data)
  }

  function RecurStep(c: Core): Option<Core> {
    var sp, n := if "rsp" in c.regs then c.regs["rsp"] else 0, if "rcx" in c.regs then c.regs["rcx"] else 0;
    if c.pc == 0 then Some(Frame(if n == 1 then 2 else 4, sp, Wrap(n as int - 1), c.data))
    else if c.pc == 4 then Some(Frame(0, Wrap(sp as int - 8), n, c.data[Wrap(sp as int - 8) := 9]))
    else if sp in c.data then Some(Frame(c.data[sp], Wrap(sp as int + 8), n, c.data))
    else None
  }

  const RECUR_ISA := Isa((_, pc) => if pc == 4 then 5 else if pc == 0 then 2 else 1, (_, c: Core) => RecurStep(c))

  const RECUR_IMAGE: Code :=
    map[0 := 0xe2, 1 := 2, 2 := 0xc3, 4 := CALL_OPCODE, 5 := 0xf7, 6 := 0xff, 7 := 0xff, 8 := 0xff, 9 := 0xc3]

  ghost predicate InRecur(c: Core) {
    c.pc in {0, 2, 4, 9} && forall a :: a in c.data ==> c.data[a] == 9
  }

  lemma RecurNext(c: Core)
    requires InRecur(c)
    ensures Next(RECUR_ISA, RECUR_IMAGE, c) == RecurStep(c) && (RecurStep(c).Some? ==> InRecur(RecurStep(c).value))
  {
  }

  lemma {:induction false} RecurStaysIn(c: Core, k: nat)
    requires InRecur(c)
    ensures Iter(RECUR_ISA, RECUR_IMAGE, c, k).Some? ==> InRecur(Iter(RECUR_ISA, RECUR_IMAGE, c, k).value)
    decreases k
  {
    hide RecurStep, InRecur;
    if k > 0 {
      RecurNext(c);
      if RecurStep(c).Some? {
        RecurStaysIn(RecurStep(c).value, k - 1);
      }
    }
  }

  lemma RecurCallSafe(c: Core)
    requires InRecur(c)
    ensures CallSafe(RECUR_ISA, RECUR_IMAGE, c)
  {
    hide Iter;
    forall k: nat | Iter(RECUR_ISA, RECUR_IMAGE, c, k).Some?
      ensures Iter(RECUR_ISA, RECUR_IMAGE, c, k).value.pc in {0, 2, 4, 9}
    {
      RecurStaysIn(c, k);
    }
  }

  lemma RecurSuits(s: Core)
    requires InRecur(s)
    ensures Local(RECUR_ISA) && NextDebuggable(RECUR_ISA, RECUR_IMAGE, [], s)
  {
    hide Iter, CallSafe, InRecur;
    assert Addrs([]) == {};
    forall k: nat | Iter(RECUR_ISA, RECUR_IMAGE, s, k).Some?
      ensures CallSafe(RECUR_ISA, RECUR_IMAGE, Iter(RECUR_ISA, RECUR_IMAGE, s, k).value)
    {
      RecurStaysIn(s, k);
      RecurCallSafe(Iter(RECUR_ISA, RECUR_IMAGE, s, k).value);
    }
  }

  /** The states it goes through with two calls to make, up to the return of its own frame. */
  function RecurAt(k: nat): Core {
    var (outer, both) := (map[92 := 9 as Byte], map[92 := 9 as Byte, 84 := 9]);
    if k == 0 then Frame(4, 100, 2, map[])
    else if k == 1 then Frame(0, 92, 2, outer)
    else if k == 2 then Frame(4, 92, 1, outer)
    else if k == 3 then Frame(0, 84, 1, both)
    else if k == 4 then Frame(2, 84, 0, both)
    else if k == 5 then Frame(9, 92, 0, both)
    else Frame(9, 100, 0, both)
  }

  lemma RecurSteps(k: nat)
    requires k < 6
    ensures RecurStep(RecurAt(k)) == Some(RecurAt(k + 1))
  {
  }

  lemma RecurPlaces(k: nat)
    requires k <= 6
    ensures InRecur(RecurAt(k))
    ensures RecurAt(k).pc == if k == 0 || k == 2 then 4 else if k == 1 || k == 3 then 0 else if k == 4 then 2 else 9
    ensures StackPointer(RecurAt(k)) == Some(if k == 0 || k == 6 then 100 else if k == 3 || k == 4 then 84 else 92)
  {
  }

  lemma {:induction false} RecurRun(k: nat)
    requires k <= 6
    ensures Iter(RECUR_ISA, RECUR_IMAGE, RecurAt(0), k) == Some(RecurAt(k))
    decreases k
  {
    hide RecurAt, RecurStep, InRecur;
    if k > 0 {
      RecurRun(k - 1);
      RecurSteps(k - 1);
      RecurPlaces(k - 1);
      RecurNext(RecurAt(k - 1));
      IterAdd(RECUR_ISA, RECUR_IMAGE, RecurAt(0), k - 1, 1);
      OneMore(RECUR_ISA, RECUR_IMAGE, RecurAt(k - 1), RecurAt(k));
    }
  }

  lemma OneMore(isa: Isa, image: Code, c: Core, c': Core)
    requires Next(isa, image, c) == Some(c')
    ensures Iter(isa, image, c, 1) == Some(c')
  {
    assert Iter(isa, image, c', 0) == Some(c');
  }

  lemma RecurReturns()
    ensures OwnReturn(RECUR_ISA, RECUR_IMAGE, RecurAt(0), 9, 6)
  {
    hide Iter, RecurAt, StackPointer;
    forall k: nat | k <= 6
      ensures Iter(RECUR_ISA, RECUR_IMAGE, RecurAt(0), k) == Some(RecurAt(k))
      ensures RecurAt(k).pc == 9 <==> k >= 5
      ensures StackPointer(RecurAt(k)) == StackPointer(RecurAt(0)) <==> k == 0 || k == 6
    {
      RecurRun(k);
      RecurPlaces(k);
      RecurPlaces(0);
    }
  }

  lemma RecurLeg()
    ensures LegFrom(RECUR_ISA, RECUR_IMAGE, RecurAt(0), 0, [], [], Leg(5, [], [], None))
  {
    hide Iter, RecurAt;
    RecurPlaces(0);
    forall k: nat | k <= 5
      ensures Iter(RECUR_ISA, RECUR_IMAGE, RecurAt(0), k) == Some(RecurAt(k)) && (RecurAt(k).pc == 9 <==> k == 5)
    {
      RecurRun(k);
      RecurPlaces(k);
    }
  }

  /** Every assumption of `next` holds. With two calls to make the function returns to 9 in the deeper frame
      after five instructions, and in its own only after six: `next` stops at the first. */
  lemma NextStopsDeeper()
    ensures var s := Frame(4, 100, 2, map[]);
            && Local(RECUR_ISA) && NextDebuggable(RECUR_ISA, RECUR_IMAGE, [], s)
            && CallReturnAddress(RECUR_IMAGE, s.pc) == Some(9)
            && OwnReturn(RECUR_ISA, RECUR_IMAGE, s, 9, 6)
            && LegFrom(RECUR_ISA, RECUR_IMAGE, s, 0, [], [], Leg(5, [], [], None))
            && StackPointer(Iter(RECUR_ISA, RECUR_IMAGE, s, 5).value) == Some(92)
  {
    hide Iter, OwnReturn, LegFrom, NextDebuggable, InRecur, Local;
    RecurPlaces(0);
    RecurSuits(RecurAt(0));
    RecurReturns();
    RecurLeg();
    RecurRun(5);
    RecurPlaces(5);
  }
}
