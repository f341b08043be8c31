/** The watchpoint table and the debug registers of every thread (src/watchpoint.c, and cmd_watch,
    cmd_unwatch and report_stop in src/debugger.c). A table index is a hardware slot. */
module HardwareWatch {
  import opened Basics
  import opened WatchTable
  import opened DebugRegisters
  import opened IndexLists

  /** Rounds a value's size up to a hardware width; wider values are capped. */
  function RoundedWidth(requested: nat): (w: Width)
    ensures requested == 0 || requested > 8 ==> w == 8
    ensures 0 < requested <= 8 ==> requested <= w < 2 * requested
  {
    if requested == 0 then 8
    else if requested <= 1 then 1
    else if requested <= 2 then 2
    else if requested <= 4 then 4
    else 8
  }

  /** The widest hardware range at `addr` within `limit`: nothing wider is representable. */
  ghost predicate WidestFit(arch: Arch, addr: Word, limit: Width, size: Width) {
    && size <= limit && Representable(arch, addr, size)
    && forall w: Width :: size < w <= limit ==> !Representable(arch, addr, w)
  }

  /** The registers of all threads. */
  type Bank = s: seq<DebugState> | forall t :: t in s ==> WellFormed(t)

  predicate Fits(arch: Arch, slot: nat, w: Watchpoint) {
    slot < MAX_WATCHPOINTS && Representable(arch, w.addr, w.size)
  }

  /** Every thread has `slot` programmed for `w`. */
  ghost predicate AllWatch(arch: Arch, bank: Bank, slot: nat, w: Watchpoint) {
    slot < MAX_WATCHPOINTS && forall t :: t in bank ==> Watches(arch, t, slot, w)
  }

  /** Every thread's registers decode to the table, slot by slot. */
  ghost predicate Agrees(arch: Arch, bank: Bank, wps: seq<Watchpoint>) {
    forall i :: 0 <= i < |wps| ==> AllWatch(arch, bank, i, wps[i])
  }

  ghost predicate InstalledAll(arch: Arch, before: Bank, after: Bank, slot: nat, w: Watchpoint)
    requires Fits(arch, slot, w)
  {
    |before| == |after| && forall j :: 0 <= j < |after| ==> after[j] == Install(arch, before[j], slot, w.addr, w.size, w.mode)
  }

  lemma InstalledSets(arch: Arch, before: Bank, after: Bank, slot: nat, w: Watchpoint)
    requires Fits(arch, slot, w) && InstalledAll(arch, before, after, slot, w)
    ensures AllWatch(arch, after, slot, w)
  {
    forall j | 0 <= j < |after| ensures Watches(arch, after[j], slot, w) {
      InstallWatches(arch, before[j], slot, w);
    }
  }

  lemma InstalledKeeps(arch: Arch, before: Bank, after: Bank, slot: nat, w: Watchpoint, i: nat, v: Watchpoint)
    requires Fits(arch, slot, w) && InstalledAll(arch, before, after, slot, w)
    requires i != slot && AllWatch(arch, before, i, v)
    ensures AllWatch(arch, after, i, v)
  {
    forall j | 0 <= j < |after| ensures Watches(arch, after[j], i, v) {
      assert before[j] in before;
      InstallKeepsOthers(arch, before[j], slot, w.addr, w.size, w.mode, i, v);
    }
  }

  /** Agreement everywhere except, perhaps, on one slot. */
  ghost predicate AgreesBut(arch: Arch, bank: Bank, wps: seq<Watchpoint>, slot: int) {
    forall i :: 0 <= i < |wps| && i != slot ==> AllWatch(arch, bank, i, wps[i])
  }

  lemma InstalledKeepsRest(arch: Arch, before: Bank, after: Bank, slot: nat, w: Watchpoint, wps: seq<Watchpoint>)
    requires Fits(arch, slot, w) && InstalledAll(arch, before, after, slot, w) && AgreesBut(arch, before, wps, slot)
    ensures AgreesBut(arch, after, wps, slot)
  {
    forall i | 0 <= i < |wps| && i != slot ensures AllWatch(arch, after, i, wps[i]) {
      InstalledKeeps(arch, before, after, slot, w, i, wps[i]);
    }
  }

  /** Moving entry `i` one slot down moves the gap up, and leaves slot `i` itself programmed. */
  lemma ShiftStep(arch: Arch, before: Bank, after: Bank, now: seq<Watchpoint>, i: nat)
    requires 0 < i < |now| && Fits(arch, i - 1, now[i]) && InstalledAll(arch, before, after, i - 1, now[i])
    requires AgreesBut(arch, before, now, i - 1)
    ensures AgreesBut(arch, after, now[i - 1 := now[i]], i) && AllWatch(arch, after, i, now[i])
  {
    hide Representable, InstalledAll, AllWatch;
    InstalledKeepsRest(arch, before, after, i - 1, now[i], now);
    InstalledSets(arch, before, after, i - 1, now[i]);
  }

  ghost predicate UninstalledAll(arch: Arch, before: Bank, after: Bank, slot: nat)
    requires slot < MAX_WATCHPOINTS
  {
    |before| == |after| && forall j :: 0 <= j < |after| ==> after[j] == Uninstall(arch, before[j], slot)
  }

  ghost predicate AllDisarmed(arch: Arch, bank: Bank, slot: nat) {
    slot < MAX_WATCHPOINTS && forall t :: t in bank ==> !Armed(arch, t, slot)
  }

  lemma UninstalledClears(arch: Arch, before: Bank, after: Bank, slot: nat, wps: seq<Watchpoint>)
    requires slot < MAX_WATCHPOINTS && UninstalledAll(arch, before, after, slot) && Agrees(arch, before, wps)
    ensures AllDisarmed(arch, after, slot)
    ensures forall i :: 0 <= i < |wps| && i != slot ==> AllWatch(arch, after, i, wps[i])
  {
    forall j | 0 <= j < |after| ensures !Armed(arch, after[j], slot) {
      UninstallKeepsOthers(arch, before[j], slot, if slot == 0 then 1 else 0, Watchpoint(true, 0, 1, 0, Write));
    }
    forall i, j | 0 <= i < |wps| && i != slot && 0 <= j < |after| ensures Watches(arch, after[j], i, wps[i]) {
      assert AllWatch(arch, before, i, wps[i]) && before[j] in before;
      UninstallKeepsOthers(arch, before[j], slot, i, wps[i]);
    }
  }

  /** The table once the entries after `index` and below `i` have moved one slot down. */
  ghost function Shifted(bs: seq<Watchpoint>, index: nat, i: nat): (r: seq<Watchpoint>)
    requires index < i <= |bs|
    ensures |r| == |bs|
    decreases i
  {
    if i == index + 1 then bs else Shifted(bs, index, i - 1)[i - 2 := bs[i - 1]]
  }

  lemma {:induction false} ShiftedIs(bs: seq<Watchpoint>, index: nat, i: nat)
    requires index < i <= |bs|
    ensures Shifted(bs, index, i) == Remove(bs, index)[..i - 1] + bs[i - 1..]
    decreases i
  {
    if i > index + 1 {
      ShiftedIs(bs, index, i - 1);
    }
  }

  lemma ShiftedNext(bs: seq<Watchpoint>, index: nat, i: nat)
    requires index < i < |bs|
    ensures var now := Shifted(bs, index, i);
            now[i] == bs[i] && now[i - 1 := now[i]] == Shifted(bs, index, i + 1)
  {
    ShiftedIs(bs, index, i);
  }

  lemma AllMoved(arch: Arch, bank: Bank, bs: seq<Watchpoint>, index: nat, last: seq<Watchpoint>)
    requires index < |bs| == |last| && AgreesBut(arch, bank, last, |last| - 1)
    requires last == Shifted(bs, index, |bs|)
    ensures last[..|last| - 1] == Remove(bs, index) && Agrees(arch, bank, Remove(bs, index))
    ensures forall w :: w in Remove(bs, index) ==> w in bs
  {
    ShiftedIs(bs, index, |bs|);
  }

  // Two watchpoints, on the eight bytes at 0 and at 8.

  const WATCH_LOW := Watchpoint(true, 0, 8, 0, Write)

  const WATCH_HIGH := Watchpoint(true, 8, 8, 0, Write)

  /** The registers of a thread through `watch`, `watch`, `unwatch 0` and `unwatch 0`. */
  function BothSet(arch: Arch): (s: DebugState)
    ensures WellFormed(s)
  {
    Install(arch, Install(arch, ZEROED, 0, 0, 8, Write), 1, 8, 8, Write)
  }

  function FirstGone(arch: Arch): (s: DebugState)
    ensures WellFormed(s)
  {
    Install(arch, Uninstall(arch, BothSet(arch), 0), 0, 8, 8, Write)
  }

  /** With the first of two deleted, both slots watch the second; with that deleted too the table is empty
      and the thread still traps on it. */
  lemma StaleSlot(arch: Arch)
    ensures Watches(arch, BothSet(arch), 0, WATCH_LOW) && Watches(arch, BothSet(arch), 1, WATCH_HIGH)
    ensures Watches(arch, FirstGone(arch), 0, WATCH_HIGH) && Watches(arch, FirstGone(arch), 1, WATCH_HIGH)
    ensures Watches(arch, Uninstall(arch, FirstGone(arch), 0), 1, WATCH_HIGH)
  {
    var one := Install(arch, ZEROED, 0, 0, 8, Write);
    InstallWatches(arch, ZEROED, 0, WATCH_LOW);
    InstallWatches(arch, one, 1, WATCH_HIGH);
    InstallKeepsOthers(arch, one, 1, 8, 8, Write, 0, WATCH_LOW);
    var left := Uninstall(arch, BothSet(arch), 0);
    UninstallKeepsOthers(arch, BothSet(arch), 0, 1, WATCH_HIGH);
    InstallWatches(arch, left, 0, WATCH_HIGH);
    InstallKeepsOthers(arch, left, 0, 8, 8, Write, 1, WATCH_HIGH);
    UninstallKeepsOthers(arch, FirstGone(arch), 0, 1, WATCH_HIGH);
  }

  datatype WatchOp =
    | Watch(addr: Word, valueSize: nat, explicit: Option<Width>, mode: Mode)
    | Unwatch(numbers: seq<nat>)
    | Nothing

  /** The halving search for a width. */
  function FitWidth(arch: Arch, addr: Word, size: Width): (r: Width)
    decreases size
  {
    if size == 1 || Representable(arch, addr, size) then size else FitWidth(arch, addr, size / 2)
  }

  lemma {:induction false} FitWidthIs(arch: Arch, addr: Word, limit: Width)
    ensures WidestFit(arch, addr, limit, FitWidth(arch, addr, limit))
    decreases limit
  {
    if limit > 1 && !Representable(arch, addr, limit) {
      FitWidthIs(arch, addr, limit / 2);
    }
  }

  lemma WidestIsOne(arch: Arch, addr: Word, limit: Width, v: Width, w: Width)
    requires WidestFit(arch, addr, limit, v) && WidestFit(arch, addr, limit, w)
    ensures v == w
  {
  }

  /** The value a new watchpoint is compared with: what is there, or zero. */
  function FirstValue(data: map<nat, Byte>, addr: Word, size: Width): Word {
    WidthFitsWord(size);
    match ReadLittle(data, addr, size)
    case Some(v) => v
    case None => 0
  }

  /** A watchpoint whose value has yet to be read. */
  function Unvalued(addr: Word, size: Width, mode: Mode): Watchpoint {
    Watchpoint(true, addr, size, 0, mode)
  }

  function NewWatch(arch: Arch, data: map<nat, Byte>, addr: Word, valueSize: nat, explicit: Option<Width>, mode: Mode): Watchpoint {
    var size := if explicit.Some? then explicit.value else FitWidth(arch, addr, RoundedWidth(valueSize));
    Watchpoint(true, addr, size, FirstValue(data, addr, size), mode)
  }

  /** What a command makes of the table, with this in memory. */
  function After(arch: Arch, data: map<nat, Byte>, wps: seq<Watchpoint>, op: WatchOp): seq<Watchpoint> {
    match op
    case Watch(addr, valueSize, explicit, mode) =>
      if |wps| >= MAX_WATCHPOINTS || (explicit.Some? && !Representable(arch, addr, explicit.value)) then wps
      else wps + [NewWatch(arch, data, addr, valueSize, explicit, mode)]
    case Unwatch(numbers) =>
      if wps == [] || exists x :: x in numbers && x >= |wps| then wps else Without(wps, Named(numbers))
    case Nothing => wps
  }

  /** From one prompt to the next: a command, with this in memory, and then a run in which threads appear. */
  datatype Round = Round(op: WatchOp, data: map<nat, Byte>, births: nat)

  ghost function AfterAll(arch: Arch, wps: seq<Watchpoint>, rounds: seq<Round>): seq<Watchpoint> {
    if rounds == [] then wps
    else
      var last := rounds[|rounds| - 1];
      After(arch, last.data, AfterAll(arch, wps, rounds[..|rounds| - 1]), last.op)
  }

  /** The threads that have appeared. */
  ghost function Births(rounds: seq<Round>): nat {
    if rounds == [] then 0 else Births(rounds[..|rounds| - 1]) + rounds[|rounds| - 1].births
  }

  class Watcher {
    const arch: Arch
    var threads: Bank
    const table: array<Watchpoint>
    var count: nat

    ghost function Wps(): seq<Watchpoint>
      requires count <= table.Length
      reads this, table
    {
      table[..count]
    }

    ghost predicate Valid()
      reads this, table
    {
      && count <= table.Length == MAX_WATCHPOINTS && threads != []
      && forall w :: w in Wps() ==> w.enabled && Representable(arch, w.addr, w.size)
    }

    ghost predicate InStep()
      reads this, table
    {
      Valid() && Agrees(arch, threads, Wps())
    }

    /** A thread created behind the debugger's back starts with nothing programmed. */
    method ThreadAppears()
      requires Valid()
      modifies `threads
      ensures Valid() && threads == old(threads) + [ZEROED]
    {
      threads := threads + [ZEROED];
    }

    /** Programs one slot on every thread; refused when the range does not fit the registers. */
    method HwInstall(slot: nat, w: Watchpoint) returns (rc: int)
      requires threads != []
      modifies `threads
      ensures rc == (if Fits(arch, slot, w) then 0 else -1)
      ensures if rc == 0 then InstalledAll(arch, old(threads), threads, slot, w) && AllWatch(arch, threads, slot, w)
              else threads == old(threads)
    {
      hide Watches, Install;
      if slot >= MAX_WATCHPOINTS || !Representable(arch, w.addr, w.size) {
        return -1;
      }
      ghost var before := threads;
      var i := 0;
      while i < |threads|
        invariant i <= |threads| == |before|
        invariant forall j :: 0 <= j < i ==> threads[j] == Install(arch, before[j], slot, w.addr, w.size, w.mode)
        invariant forall j :: i <= j < |before| ==> threads[j] == before[j]
      {
        threads := threads[i := Install(arch, threads[i], slot, w.addr, w.size, w.mode)];
        i := i + 1;
      }
      InstalledSets(arch, before, threads, slot, w);
      rc := 0;
    }

    method HwUninstall(slot: nat) returns (rc: int)
      requires threads != []
      modifies `threads
      ensures rc == (if slot < MAX_WATCHPOINTS then 0 else -1)
      ensures if rc == 0 then UninstalledAll(arch, old(threads), threads, slot) else threads == old(threads)
    {
      hide Uninstall;
      if slot >= MAX_WATCHPOINTS {
        return -1;
      }
      ghost var before := threads;
      var i := 0;
      while i < |threads|
        invariant i <= |threads| == |before|
        invariant forall j :: 0 <= j < i ==> threads[j] == Uninstall(arch, before[j], slot)
        invariant forall j :: i <= j < |before| ==> threads[j] == before[j]
      {
        threads := threads[i := Uninstall(arch, threads[i], slot)];
        i := i + 1;
      }
      rc := 0;
    }

    /** Pushes the whole table onto every thread: agreement holds afterwards, whatever the threads
        had, new ones included. */
    method Resync()
      requires Valid()
      modifies `threads
      ensures InStep() && |threads| == |old(threads)|
    {
      hide Watches, AllWatch, Representable;
      var i := 0;
      while i < count
        invariant i <= count && Valid() && |threads| == |old(threads)|
        invariant AgreesBut(arch, threads, Wps()[..i], i)
      {
        assert table[i] in Wps() && Wps()[..i + 1] == Wps()[..i] + [table[i]];
        if table[i].enabled {
          ghost var before := threads;
          var rc := HwInstall(i, table[i]);
          InstalledKeepsRest(arch, before, threads, i, table[i], Wps()[..i]);
        }
        i := i + 1;
      }
    }

    /** Removes an entry, moving the later ones one slot down. The old last slot is cleared only if
        it was the one removed: otherwise every thread still traps on its watchpoint. */
    method DeleteAt(index: nat) returns (rc: int)
      requires InStep()
      modifies `threads, `count, table
      ensures InStep() && |threads| == |old(threads)|
      ensures if index < old(count) then rc == 0 && Wps() == Remove(old(Wps()), index)
              else rc == -1 && Wps() == old(Wps()) && threads == old(threads)
      ensures rc == 0 ==> if index + 1 == old(count) then AllDisarmed(arch, threads, count)
                          else AllWatch(arch, threads, count, old(Wps())[count])
    {
      if index >= count {
        return -1;
      }
      ghost var bs, before := Wps(), threads;
      rc := HwUninstall(index);
      if rc != 0 { return -1; }
      UninstalledClears(arch, before, threads, index, bs);
      rc := ShiftDown(index);
    }

    method MoveDown(i: nat) returns (rc: int)
      requires 0 < i < count <= table.Length == MAX_WATCHPOINTS && threads != []
      requires Representable(arch, Wps()[i].addr, Wps()[i].size) && AgreesBut(arch, threads, Wps(), i - 1)
      modifies `threads, table
      ensures rc == 0 && |threads| == |old(threads)| && Wps() == old(Wps())[i - 1 := old(Wps())[i]]
      ensures AgreesBut(arch, threads, Wps(), i) && AllWatch(arch, threads, i, Wps()[i])
    {
      hide Watches, AllWatch;
      ghost var now, before := Wps(), threads;
      table[i - 1] := table[i];
      assert Wps() == now[i - 1 := now[i]];
      rc := HwInstall(i - 1, table[i - 1]);
      ShiftStep(arch, before, threads, now, i);
    }

    method ShiftDown(index: nat) returns (rc: int)
      requires Valid() && index < count && AgreesBut(arch, threads, Wps(), index)
      modifies `threads, `count, table
      ensures InStep() && rc == 0 && Wps() == Remove(old(Wps()), index) && |threads| == |old(threads)|
      ensures index + 1 == old(count) ==> threads == old(threads)
      ensures index + 1 < old(count) ==> AllWatch(arch, threads, count, old(Wps())[count])
    {
      hide AllWatch, Watches, AgreesBut, Shifted, Representable;
      ghost var bs := Wps();
      MoveAllDown(index);
      ghost var last := Wps();
      count := count - 1;
      AllMoved(arch, threads, bs, index, last);
      assert Wps() == last[..|last| - 1];
      rc := 0;
    }

    method MoveAllDown(index: nat)
      requires Valid() && index < count && AgreesBut(arch, threads, Wps(), index)
      modifies `threads, table
      ensures |threads| == |old(threads)| && Wps() == Shifted(old(Wps()), index, count)
      ensures AgreesBut(arch, threads, Wps(), count - 1)
      ensures index + 1 == count ==> threads == old(threads)
      ensures index + 1 < count ==> AllWatch(arch, threads, count - 1, old(Wps())[count - 1])
    {
      ghost var bs := Wps();
      var i := index + 1;
      while i < count
        invariant index < i <= count == |bs| && |threads| == |old(threads)| > 0
        invariant Wps() == Shifted(bs, index, i)
        invariant AgreesBut(arch, threads, Wps(), i - 1)
        invariant i == index + 1 ==> threads == old(threads)
        invariant i > index + 1 ==> AllWatch(arch, threads, i - 1, bs[i - 1])
      {
        ShiftedNext(bs, index, i);
        var _ := MoveDown(i);
        i := i + 1;
      }
    }

    /** `unwatch n ...`: the table loses exactly the named entries and the registers follow. */
    method UnwatchCommand(numbers: seq<nat>) returns (rc: int)
      requires InStep()
      modifies `threads, `count, table
      ensures InStep() && |threads| == |old(threads)|
      ensures if old(count) == 0 || forall x :: x in numbers ==> x < old(count)
              then rc == 0 && Wps() == Without(old(Wps()), if old(count) == 0 then {} else Named(numbers))
              else rc == -1 && Wps() == old(Wps()) && threads == old(threads)
    {
      ghost var wps := Wps();
      if count == 0 {
        return 0;
      }
      var ok, indices, n := DeletionOrder(numbers, count, MAX_WATCHPOINTS);
      if !ok {
        return -1;
      }
      ghost var order := indices[..n];
      WithoutNone(wps, Named(order[..0]));
      var i := 0;
      while i < n
        invariant i <= n && InStep() && indices[..n] == order && |threads| == |old(threads)|
        invariant Wps() == Without(wps, Named(order[..i]))
      {
        DeleteNext(indices[i], wps, order, i);
        i := i + 1;
      }
      assert order[..n] == order;
      rc := 0;
    }

    method DeleteNext(index: nat, ghost wps: seq<Watchpoint>, ghost order: seq<nat>, ghost i: nat)
      requires InStep() && i < |order| && order[i] == index && Descending(order) && forall x :: x in order ==> x < |wps|
      requires Wps() == Without(wps, Named(order[..i]))
      modifies `threads, `count, table
      ensures InStep() && Wps() == Without(wps, Named(order[..i + 1])) && |threads| == |old(threads)|
    {
      NextDeletion(wps, order, i);
      var _ := DeleteAt(index);
    }

    /** `watch`: with no explicit width, the widest the value's rounded size and the registers allow. */
    method WatchCommand(addr: Word, valueSize: nat, explicit: Option<Width>, mode: Mode, data: map<nat, Byte>) returns (rc: int)
      requires InStep()
      modifies `threads, `count, table
      ensures InStep() && (rc == 0 || rc == -1) && |threads| == |old(threads)|
      ensures Wps() == After(arch, data, old(Wps()), Watch(addr, valueSize, explicit, mode))
      ensures rc == -1 ==> Wps() == old(Wps()) && threads == old(threads)
      ensures rc == -1 <==> old(count) == MAX_WATCHPOINTS || (explicit.Some? && !Representable(arch, addr, explicit.value))
      ensures rc == 0 && explicit.None? ==> WidestFit(arch, addr, RoundedWidth(valueSize), Wps()[count - 1].size)
      ensures rc == 0 ==> var w := Wps()[count - 1];
                          && w.enabled && w.addr == addr && w.mode == mode && (explicit.Some? ==> w.size == explicit.value)
                          && Some(w.oldValue as int) == if Readable(data, addr, w.size) then ReadLittle(data, addr, w.size) else Some(0)
    {
      if count >= MAX_WATCHPOINTS {
        return -1;
      }
      ghost var bs, before := Wps(), threads;
      var size: Width;
      rc, size := InstallWidest(addr, valueSize, explicit, mode);
      if rc != 0 {
        return -1;
      }
      var w := Watchpoint(true, addr, size, FirstValue(data, addr, size), mode);
      SameWatch(threads, count, addr, size, mode, w);
      KeptBelow(before, threads, count, w, bs);
      table[count] := w;
      count := count + 1;
      assert Wps() == bs + [w];
      ReadableIff(data, addr, size);
      if explicit.None? {
        FitWidthIs(arch, addr, RoundedWidth(valueSize));
        WidestIsOne(arch, addr, RoundedWidth(valueSize), size, FitWidth(arch, addr, RoundedWidth(valueSize)));
      }
    }

    /** Programs the next free slot, halving the width until the registers take it. */
    method InstallWidest(addr: Word, valueSize: nat, explicit: Option<Width>, mode: Mode) returns (rc: int, size: Width)
      requires InStep() && count < MAX_WATCHPOINTS
      modifies `threads
      ensures rc == if explicit.Some? && !Representable(arch, addr, explicit.value) then -1 else 0
      ensures rc == -1 ==> threads == old(threads)
      ensures rc == 0 ==>
                && Fits(arch, count, Unvalued(addr, size, mode))
                && InstalledAll(arch, old(threads), threads, count, Unvalued(addr, size, mode))
                && AllWatch(arch, threads, count, Unvalued(addr, size, mode))
      ensures if explicit.Some? then size == explicit.value else WidestFit(arch, addr, RoundedWidth(valueSize), size)
    {
      hide Watches, Install, AgreesBut;
      ghost var before := threads;
      size := if explicit.Some? then explicit.value else RoundedWidth(valueSize);
      rc := HwInstall(count, Unvalued(addr, size, mode));
      while rc != 0 && explicit.None? && size > 1
        invariant (rc == 0 || rc == -1) && threads != []
        invariant rc == 0 <==> Representable(arch, addr, size)
        invariant if rc == 0 then InstalledAll(arch, before, threads, count, Unvalued(addr, size, mode))
                                  && AllWatch(arch, threads, count, Unvalued(addr, size, mode))
                  else threads == before
        invariant explicit.Some? ==> size == explicit.value
        invariant explicit.None? ==> size <= RoundedWidth(valueSize)
        invariant explicit.None? ==> forall w: Width :: size < w <= RoundedWidth(valueSize) ==> !Representable(arch, addr, w)
        decreases size
      {
        size := size / 2;
        rc := HwInstall(count, Unvalued(addr, size, mode));
      }
    }

    lemma SameWatch(bank: Bank, slot: nat, addr: Word, size: Width, mode: Mode, w: Watchpoint)
      requires AllWatch(arch, bank, slot, Unvalued(addr, size, mode)) && w == Unvalued(addr, size, mode).(oldValue := w.oldValue)
      ensures AllWatch(arch, bank, slot, w)
    {
    }

    lemma KeptBelow(before: Bank, bank: Bank, slot: nat, w: Watchpoint, wps: seq<Watchpoint>)
      requires Fits(arch, slot, w) && InstalledAll(arch, before, bank, slot, w.(oldValue := 0)) && Agrees(arch, before, wps)
      requires slot == |wps|
      ensures Agrees(arch, bank, wps)
    {
      InstalledKeepsRest(arch, before, bank, slot, w.(oldValue := 0), wps);
    }

    /** The program runs, creating threads, until it stops and the table is pushed to all of them. */
    method RunToStop(births: nat)
      requires InStep()
      modifies `threads
      ensures InStep() && |threads| == |old(threads)| + births
    {
      for i := 0 to births
        invariant Valid() && |threads| == |old(threads)| + i
      {
        ThreadAppears();
      }
      Resync();
    }

    /** Whatever is watched and unwatched and whatever threads appear, at every prompt the registers of
        every thread decode to the table, and the table is what the commands have made of it. */
    method Execute(rounds: seq<Round>)
      requires InStep()
      modifies `threads, `count, table
      ensures InStep() && Wps() == AfterAll(arch, old(Wps()), rounds) && |threads| == |old(threads)| + Births(rounds)
    {
      for i := 0 to |rounds|
        invariant InStep() && Wps() == AfterAll(arch, old(Wps()), rounds[..i])
        invariant |threads| == |old(threads)| + Births(rounds[..i])
      {
        assert rounds[..i + 1][..i] == rounds[..i];
        ExecuteOne(rounds[i]);
      }
      assert rounds[..|rounds|] == rounds;
    }

    method ExecuteOne(round: Round)
      requires InStep()
      modifies `threads, `count, table
      ensures InStep() && Wps() == After(arch, round.data, old(Wps()), round.op) && |threads| == |old(threads)| + round.births
    {
      match round.op {
        case Watch(addr, valueSize, explicit, mode) =>
          var _ := WatchCommand(addr, valueSize, explicit, mode, round.data);
        case Unwatch(numbers) => var _ := UnwatchCommand(numbers);
        case Nothing =>
      }
      RunToStop(round.births);
    }
  }
}
