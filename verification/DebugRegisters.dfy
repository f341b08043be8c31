/** Packing watchpoints into hardware debug registers (src/watchpoint.c): DR0-DR3 and DR7 on x86_64
    (section 17.2.4 of the Intel SDM Vol. 3B), DBGWVR and DBGWCR on arm64. */
module DebugRegisters {
  import opened Basics
  import opened WatchTable

  datatype Arch = X86_64 | Arm64

  type Slot = s: bv64 | s < 4

  /** One thread's registers: an address and, for arm64, a control word per slot; DR7 for x86_64. */
  datatype DebugState = DebugState(addr: seq<Word>, wcr: seq<bv64>, dr7: bv64)

  predicate WellFormed(s: DebugState) {
    |s.addr| == |s.wcr| == MAX_WATCHPOINTS
  }

  const ZEROED := DebugState([0, 0, 0, 0], [0, 0, 0, 0], 0)

  function SlotOf(i: nat): Slot
    requires i < MAX_WATCHPOINTS
  {
    if i == 0 then 0 else if i == 1 then 1 else if i == 2 then 2 else 3
  }

  // ----- DR7 -----

  function LenBits(size: Width): bv64 {
    if size == 1 then 0 else if size == 2 then 1 else if size == 8 then 2 else 3
  }

  function RwBits(mode: Mode): bv64 {
    if mode == Access then 3 else 1
  }

  function SetDr7(d: bv64, slot: Slot, rw: bv64, len: bv64): bv64 {
    (((d & !(3 << (16 + 4 * slot))) & !(3 << (18 + 4 * slot))) | (rw << (16 + 4 * slot)) | (len << (18 + 4 * slot)))
    | (1 << (2 * slot))
  }

  function ClearDr7(d: bv64, slot: Slot): bv64 {
    d & !(1 << (2 * slot))
  }

  function RwField(d: bv64, slot: Slot): bv64 {
    (d >> (16 + 4 * slot)) & 3
  }

  function LenField(d: bv64, slot: Slot): bv64 {
    (d >> (18 + 4 * slot)) & 3
  }

  predicate EnabledBit(d: bv64, slot: Slot) {
    (d >> (2 * slot)) & 1 == 1
  }

  /** The bits of DR7 that belong to a slot: its local enable, RW and LEN fields. */
  function SlotMask(slot: Slot): bv64 {
    (15 << (16 + 4 * slot)) | (1 << (2 * slot))
  }

  lemma SetDr7Own(d: bv64, slot: Slot, rw: bv64, len: bv64)
    requires rw < 4 && len < 4
    ensures var d' := SetDr7(d, slot, rw, len);
            RwField(d', slot) == rw && LenField(d', slot) == len && EnabledBit(d', slot)
  {
  }

  /** Programming or clearing one slot leaves every bit outside that slot's fields as it was. */
  lemma Dr7Frame(d: bv64, slot: Slot, rw: bv64, len: bv64)
    requires rw < 4 && len < 4
    ensures SetDr7(d, slot, rw, len) & !SlotMask(slot) == d & !SlotMask(slot)
    ensures ClearDr7(d, slot) & !SlotMask(slot) == d & !SlotMask(slot)
    ensures !EnabledBit(ClearDr7(d, slot), slot)
  {
  }

  /** The bits as the manual has them: slot 0 in bits 0 and 16-19, slot 3 in bits 6 and 28-31. */
  lemma Dr7Values()
    ensures SetDr7(0, 0, RwBits(Write), LenBits(1)) == 0x1_0001 && SetDr7(0, 0, RwBits(Write), LenBits(2)) == 0x5_0001
    ensures SetDr7(0, 0, RwBits(Write), LenBits(8)) == 0x9_0001 && SetDr7(0, 0, RwBits(Access), LenBits(4)) == 0xf_0001
    ensures SetDr7(0, 3, RwBits(Access), LenBits(4)) == 0xf000_0040
  {
  }

  predicate SameFields(d: bv64, d': bv64, slot: Slot) {
    && RwField(d, slot) == RwField(d', slot) && LenField(d, slot) == LenField(d', slot)
    && (EnabledBit(d, slot) <==> EnabledBit(d', slot))
  }

  lemma SetDr7Others(d: bv64, slot: Slot, rw: bv64, len: bv64, other: Slot)
    requires rw < 4 && len < 4 && other != slot
    ensures SameFields(d, SetDr7(d, slot, rw, len), other)
  {
  }

  lemma ClearDr7Others(d: bv64, slot: Slot, other: Slot)
    requires other != slot
    ensures SameFields(d, ClearDr7(d, slot), other)
  {
  }

  // ----- DBGWCR -----

  function Offset(addr: Word): bv64 {
    var k := addr % 8;
    if k == 0 then 0 else if k == 1 then 1 else if k == 2 then 2 else if k == 3 then 3
    else if k == 4 then 4 else if k == 5 then 5 else if k == 6 then 6 else 7
  }

  function WidthBits(size: Width): bv64 {
    if size == 1 then 1 else if size == 2 then 2 else if size == 4 then 4 else 8
  }

  function LscBits(mode: Mode): bv64 {
    if mode == Access then 3 else 2
  }

  /** Enable, trap at EL0 and EL1, load/store control, byte address select. */
  function ControlWord(size: bv64, offset: bv64, lsc: bv64): bv64
    requires size < 9 && offset < 8
  {
    1 | (3 << 1) | (lsc << 3) | (((((1 as bv64) << size) - 1) << offset) << 5)
  }

  /** The control word watches byte `k` of its eight-byte window. */
  predicate BasBit(wcr: bv64, k: bv64)
    requires k < 8
  {
    (wcr >> (5 + k)) & 1 == 1
  }

  lemma ControlFields(size: bv64, offset: bv64, lsc: bv64, k: bv64)
    requires size == 1 || size == 2 || size == 4 || size == 8
    requires offset < 8 && k < 8 && offset + size <= 8 && lsc < 4
    ensures var w := ControlWord(size, offset, lsc);
            w & 1 == 1 && (w >> 3) & 3 == lsc && (BasBit(w, k) <==> offset <= k < offset + size)
  {
  }

  /** E, PAC, LSC and BAS in bits 0, 1-2, 3-4 and 5-12. */
  lemma ControlValues()
    ensures ControlWord(WidthBits(8), Offset(0), LscBits(Write)) == 0x1ff7
    ensures ControlWord(WidthBits(1), Offset(3), LscBits(Access)) == 0x11f
  {
  }

  lemma OffsetOrder(a: Word, b: Word)
    ensures Offset(a) <= Offset(b) <==> a % 8 <= b % 8
  {
  }

  lemma OffsetWidth(a: Word, size: Width, b: Word)
    requires a % 8 + size <= 8
    ensures Offset(a) + WidthBits(size) <= 8
    ensures Offset(b) < Offset(a) + WidthBits(size) <==> b % 8 < a % 8 + size
  {
  }

  // ----- slots of a thread -----

  /** x86_64 wants natural alignment; arm64 a range inside one eight-byte window. */
  predicate Representable(arch: Arch, addr: Word, size: Width) {
    if arch == X86_64 then addr % size == 0 else addr % 8 + size <= 8
  }

  /** On arm64 some setting of a slot watches exactly these bytes if and only if they are representable. */
  lemma ArmWatchableIff(w: Watchpoint)
    requires w.addr + w.size <= TWO_TO_THE_64
    ensures Representable(Arm64, w.addr, w.size) <==> exists s: DebugState :: WellFormed(s) && Watches(Arm64, s, 0, w)
  {
    hide BasBit, Install;
    if Representable(Arm64, w.addr, w.size) {
      InstallWatches(Arm64, ZEROED, 0, w);
    }
    if s: DebugState :| WellFormed(s) && Watches(Arm64, s, 0, w) {
      var last: Word := w.addr + w.size - 1;
      assert Selects(Arm64, s, 0, w.addr) && Selects(Arm64, s, 0, last);
    }
  }

  /** On x86_64 they are if they begin a whole number of times their size from zero. */
  lemma AlignedIff(addr: Word, size: Width)
    ensures Representable(X86_64, addr, size) <==> exists q: nat :: addr == q * size
  {
    if Representable(X86_64, addr, size) {
      assert addr == addr / size * size;
    }
  }

  function Install(arch: Arch, s: DebugState, slot: nat, addr: Word, size: Width, mode: Mode): (r: DebugState)
    requires WellFormed(s) && slot < MAX_WATCHPOINTS && Representable(arch, addr, size)
    ensures WellFormed(r)
  {
    if arch == X86_64 then
      s.(addr := s.addr[slot := addr], dr7 := SetDr7(s.dr7, SlotOf(slot), RwBits(mode), LenBits(size)))
    else
      s.(addr := s.addr[slot := addr - addr % 8],
         wcr := s.wcr[slot := ControlWord(WidthBits(size), Offset(addr), LscBits(mode))])
  }

  function Uninstall(arch: Arch, s: DebugState, slot: nat): (r: DebugState)
    requires WellFormed(s) && slot < MAX_WATCHPOINTS
    ensures WellFormed(r)
  {
    if arch == X86_64 then s.(addr := s.addr[slot := 0], dr7 := ClearDr7(s.dr7, SlotOf(slot)))
    else s.(addr := s.addr[slot := 0], wcr := s.wcr[slot := 0])
  }

  predicate Armed(arch: Arch, s: DebugState, slot: nat)
    requires WellFormed(s) && slot < MAX_WATCHPOINTS
  {
    if arch == X86_64 then EnabledBit(s.dr7, SlotOf(slot)) else s.wcr[slot] & 1 == 1
  }

  function SlotMode(arch: Arch, s: DebugState, slot: nat): Option<Mode>
    requires WellFormed(s) && slot < MAX_WATCHPOINTS
  {
    if arch == X86_64 then
      (var rw := RwField(s.dr7, SlotOf(slot)); if rw == 3 then Some(Access) else if rw == 1 then Some(Write) else None)
    else
      (var lsc := (s.wcr[slot] >> 3) & 3; if lsc == 3 then Some(Access) else if lsc == 2 then Some(Write) else None)
  }

  function FieldWidth(len: bv64): Width {
    if len == 0 then 1 else if len == 1 then 2 else if len == 2 then 8 else 4
  }

  /** The hardware compares an access to byte `b` with this slot and finds it selected. */
  predicate Selects(arch: Arch, s: DebugState, slot: nat, b: Word)
    requires WellFormed(s) && slot < MAX_WATCHPOINTS
  {
    if arch == X86_64 then s.addr[slot] <= b < s.addr[slot] + FieldWidth(LenField(s.dr7, SlotOf(slot)))
    else b - b % 8 == s.addr[slot] && BasBit(s.wcr[slot], Offset(b))
  }

  /** The slot is armed in the watchpoint's mode and selects exactly its bytes. */
  ghost predicate Watches(arch: Arch, s: DebugState, slot: nat, w: Watchpoint)
    requires WellFormed(s) && slot < MAX_WATCHPOINTS
  {
    && Armed(arch, s, slot)
    && SlotMode(arch, s, slot) == Some(w.mode)
    && forall b: Word :: Selects(arch, s, slot, b) <==> w.addr <= b < w.addr + w.size
  }

  lemma InstallWatches(arch: Arch, s: DebugState, slot: nat, w: Watchpoint)
    requires WellFormed(s) && slot < MAX_WATCHPOINTS && Representable(arch, w.addr, w.size)
    ensures Watches(arch, Install(arch, s, slot, w.addr, w.size, w.mode), slot, w)
  {
    hide BasBit;
    if arch == X86_64 {
      SetDr7Own(s.dr7, SlotOf(slot), RwBits(w.mode), LenBits(w.size));
    } else {
      InstallWatchesArm(s, slot, w);
    }
  }

  lemma InstallWatchesArm(s: DebugState, slot: nat, w: Watchpoint)
    requires WellFormed(s) && slot < MAX_WATCHPOINTS && Representable(Arm64, w.addr, w.size)
    ensures Watches(Arm64, Install(Arm64, s, slot, w.addr, w.size, w.mode), slot, w)
  {
    hide BasBit;
    ControlFields(WidthBits(w.size), Offset(w.addr), LscBits(w.mode), 0);
    forall b: Word ensures Selects(Arm64, Install(Arm64, s, slot, w.addr, w.size, w.mode), slot, b) <==> w.addr <= b < w.addr + w.size {
      ArmSelects(w.addr, w.size, LscBits(w.mode), b);
    }
  }

  lemma WindowBytes(addr: Word, size: Width, b: Word)
    requires addr % 8 + size <= 8
    ensures addr <= b < addr + size <==> b - b % 8 == addr - addr % 8 && addr % 8 <= b % 8 < addr % 8 + size
  {
  }

  /** The WVR and BAS pair selects exactly the bytes from `addr` to `addr + size`. */
  lemma ArmSelects(addr: Word, size: Width, lsc: bv64, b: Word)
    requires addr % 8 + size <= 8 && lsc < 4
    ensures b - b % 8 == addr - addr % 8 && BasBit(ControlWord(WidthBits(size), Offset(addr), lsc), Offset(b))
            <==> addr <= b < addr + size
  {
    OffsetWidth(addr, size, b);
    OffsetOrder(addr, b);
    WindowBytes(addr, size, b);
    ControlFields(WidthBits(size), Offset(addr), lsc, Offset(b));
  }

  lemma SlotsDiffer(i: nat, j: nat)
    requires i < MAX_WATCHPOINTS && j < MAX_WATCHPOINTS && i != j
    ensures SlotOf(i) != SlotOf(j)
  {
  }

  lemma SlotKept(arch: Arch, s: DebugState, s': DebugState, slot: nat, w: Watchpoint)
    requires WellFormed(s) && WellFormed(s') && slot < MAX_WATCHPOINTS
    requires s'.addr[slot] == s.addr[slot] && s'.wcr[slot] == s.wcr[slot]
    requires SameFields(s.dr7, s'.dr7, SlotOf(slot))
    ensures Watches(arch, s', slot, w) <==> Watches(arch, s, slot, w)
    ensures Armed(arch, s', slot) <==> Armed(arch, s, slot)
  {
    forall b: Word ensures Selects(arch, s', slot, b) <==> Selects(arch, s, slot, b) {
      SelectsKept(arch, s, s', slot, b);
    }
    ModeKept(arch, s, s', slot);
  }

  lemma SelectsKept(arch: Arch, s: DebugState, s': DebugState, slot: nat, b: Word)
    requires WellFormed(s) && WellFormed(s') && slot < MAX_WATCHPOINTS
    requires s'.addr[slot] == s.addr[slot] && s'.wcr[slot] == s.wcr[slot]
    requires SameFields(s.dr7, s'.dr7, SlotOf(slot))
    ensures Selects(arch, s', slot, b) <==> Selects(arch, s, slot, b)
  {
  }

  lemma ModeKept(arch: Arch, s: DebugState, s': DebugState, slot: nat)
    requires WellFormed(s) && WellFormed(s') && slot < MAX_WATCHPOINTS
    requires s'.wcr[slot] == s.wcr[slot] && SameFields(s.dr7, s'.dr7, SlotOf(slot))
    ensures SlotMode(arch, s', slot) == SlotMode(arch, s, slot)
    ensures Armed(arch, s', slot) <==> Armed(arch, s, slot)
  {
  }

  /** Programming a slot is invisible to every other one. */
  lemma InstallKeepsOthers(arch: Arch, s: DebugState, slot: nat, addr: Word, size: Width, mode: Mode, other: nat, w: Watchpoint)
    requires WellFormed(s) && slot < MAX_WATCHPOINTS && other < MAX_WATCHPOINTS && slot != other
    requires Representable(arch, addr, size)
    ensures Watches(arch, Install(arch, s, slot, addr, size, mode), other, w) <==> Watches(arch, s, other, w)
    ensures Armed(arch, Install(arch, s, slot, addr, size, mode), other) <==> Armed(arch, s, other)
  {
    SlotsDiffer(slot, other);
    SetDr7Others(s.dr7, SlotOf(slot), RwBits(mode), LenBits(size), SlotOf(other));
    SlotKept(arch, s, Install(arch, s, slot, addr, size, mode), other, w);
  }

  /** Clearing a slot disarms it, invisibly to every other one. */
  lemma UninstallKeepsOthers(arch: Arch, s: DebugState, slot: nat, other: nat, w: Watchpoint)
    requires WellFormed(s) && slot < MAX_WATCHPOINTS && other < MAX_WATCHPOINTS && slot != other
    ensures Watches(arch, Uninstall(arch, s, slot), other, w) <==> Watches(arch, s, other, w)
    ensures Armed(arch, Uninstall(arch, s, slot), other) <==> Armed(arch, s, other)
    ensures !Armed(arch, Uninstall(arch, s, slot), slot)
  {
    SlotsDiffer(slot, other);
    ClearDr7Others(s.dr7, SlotOf(slot), SlotOf(other));
    Dr7Frame(s.dr7, SlotOf(slot), 0, 0);
    SlotKept(arch, s, Uninstall(arch, s, slot), other, w);
  }
}
