/** Walking the stack: `up` (src/regs.c) and `tb` (src/debugger.c), on x86_64. */
module Unwind {
  import opened Basics

  const PUSH_RBP: Byte := 0x55

  const LOWEST_RETURN: Word := 0x1000

  const MAX_BACKTRACE_FRAMES: nat := 64

  /** Debuggee memory: one byte, or eight. */
  datatype Memory = Memory(byteAt: Word -> Option<Byte>, wordAt: Word -> Option<Word>)

  datatype Frame = Frame(pc: Word, fp: Word, sp: Word)

  /** The saved frame pointer and return address of a frame record, if it is a plausible one. */
  function Record(m: Memory, fp: Word): Option<(Word, Word)> {
    match (m.wordAt(fp), m.wordAt(Wrap(fp + 8)))
    case (Some(saved), Some(ret)) => if saved > fp && ret >= LOWEST_RETURN then Some((saved, ret)) else None
    case _ => None
  }

  /** The caller seen from a function that has not set up its frame. */
  function UpFromStackTop(m: Memory, f: Frame): Option<Frame> {
    match m.wordAt(f.sp)
    case Some(ret) => if ret >= LOWEST_RETURN then Some(Frame(ret, f.fp, Wrap(f.sp + 8))) else None
    case None => None
  }

  predicate AtPush(m: Memory, pc: Word) {
    m.byteAt(pc) == Some(PUSH_RBP)
  }

  function Up(m: Memory, f: Frame): Option<Frame> {
    if AtPush(m, f.pc) || f.fp == 0 || Record(m, f.fp).None? then UpFromStackTop(m, f)
    else Some(Frame(Record(m, f.fp).value.1, Record(m, f.fp).value.0, Wrap(f.fp + 16)))
  }

  // ----- calls undone -----

  /** Memory after a push of `w` with the stack top at `sp`; code is not on the stack. */
  function Pushed(m: Memory, sp: Word, w: Word): Memory {
    m.(wordAt := a => if a == Wrap(sp - 8) then Some(w) else m.wordAt(a))
  }

  /** Memory once a call from `f` has pushed the return address and its function the frame pointer. */
  function Prologue(m: Memory, f: Frame, ret: Word): Memory
    requires f.sp > 16
  {
    Pushed(Pushed(m, f.sp, ret), f.sp - 8, f.fp)
  }

  lemma PrologueWords(m: Memory, f: Frame, ret: Word)
    requires f.sp > 16
    ensures var m' := Prologue(m, f, ret);
            && m'.wordAt(f.sp - 16) == Some(f.fp) && m'.wordAt(f.sp - 8) == Some(ret)
            && (forall a: Word :: a != f.sp - 16 && a != f.sp - 8 ==> m'.wordAt(a) == m.wordAt(a))
            && m'.byteAt == m.byteAt
  {
    assert Wrap(f.sp - 8) == f.sp - 8 && Wrap(f.sp - 8 - 8) == f.sp - 16;
  }

  /** A call from `f` to a function that begins with `push %rbp` is undone exactly: pc, fp and sp are
      those of the caller at the return, unless the return address lies in the first page. */
  lemma UpUndoesCallIff(m: Memory, f: Frame, entry: Word, ret: Word)
    requires f.sp >= 8 && m.byteAt(entry) == Some(0x55)
    ensures Up(Pushed(m, f.sp, ret), Frame(entry, f.fp, f.sp - 8)) == Some(Frame(ret, f.fp, f.sp)) <==> ret >= 0x1000
  {
    assert Pushed(m, f.sp, ret).wordAt(f.sp - 8) == Some(ret) && AtPush(Pushed(m, f.sp, ret), entry);
  }

  /** So it is once the function has saved the caller's frame pointer and set up its own, wherever it
      then is and whatever else is on its stack; the caller's must lie above. */
  lemma UpUndoesEntryIff(m: Memory, f: Frame, pc: Word, sp: Word, ret: Word)
    requires f.sp > 16 && f.fp > f.sp - 16 && !AtPush(m, pc)
    ensures Up(Prologue(m, f, ret), Frame(pc, f.sp - 16, sp)) == Some(Frame(ret, f.fp, f.sp))
            <==> ret >= 0x1000
  {
    hide Prologue;
    PrologueWords(m, f, ret);
    assert Wrap(f.sp - 16 + 8) == f.sp - 8 && Wrap(f.sp - 16 + 16) == f.sp;
  }

  /** In between, after the push and before the frame pointer is set, `up` never finds the caller. */
  lemma UpMissesCaller(m: Memory, f: Frame, pc: Word, ret: Word)
    requires f.sp > 16 && !AtPush(m, pc)
    ensures Up(Prologue(m, f, ret), Frame(pc, f.fp, f.sp - 16)) != Some(Frame(ret, f.fp, f.sp))
  {
    hide Prologue;
    PrologueWords(m, f, ret);
    assert Wrap(f.sp - 16 + 8) == f.sp - 8;
  }

  /** It passes over it and shows what `up` from the caller shows, if the caller's own frame record lies above
      the stack top. */
  lemma UpPassesCaller(m: Memory, f: Frame, pc: Word, ret: Word)
    requires f.sp > 16 && f.fp >= f.sp && f.fp + 8 < TWO_TO_THE_64
    requires Record(m, f.fp).Some? && !AtPush(m, pc) && !AtPush(m, f.pc)
    ensures Up(Prologue(m, f, ret), Frame(pc, f.fp, f.sp - 16)) == Up(m, f)
  {
    hide Prologue;
    PrologueWords(m, f, ret);
    assert Wrap(f.fp + 8) == f.fp + 8;
  }

  function UpTimes(m: Memory, f: Frame, k: nat): Option<Frame>
    decreases k
  {
    if k == 0 then Some(f)
    else match Up(m, f)
      case None => None
      case Some(g) => UpTimes(m, g, k - 1)
  }

  /** Frame records linked from `fp`, at most `n` of them: frame pointers and return addresses. */
  function Chain(m: Memory, fp: Word, n: nat): seq<(Word, Word)>
    decreases n
  {
    if n == 0 || fp == 0 || Record(m, fp).None? then []
    else [Record(m, fp).value] + Chain(m, Record(m, fp).value.0, n - 1)
  }

  /** The pcs `tb` prints. */
  function Trace(m: Memory, f: Frame): seq<Word> {
    var chain := Chain(m, f.fp, MAX_BACKTRACE_FRAMES - 1);
    [f.pc] + seq(|chain|, i requires 0 <= i < |chain| => chain[i].1)
  }

  class Registers {
    var pc: Word
    var fp: Word
    var sp: Word

    function View(): Frame
      reads this
    {
      Frame(pc, fp, sp)
    }

    method UnwindFromStackTop(m: Memory) returns (rc: int)
      modifies this
      ensures match UpFromStackTop(m, old(View()))
              case None => rc == -1 && View() == old(View())
              case Some(g) => rc == 0 && View() == g
    {
      var ret := m.wordAt(sp);
      if ret.None? || ret.value < LOWEST_RETURN {
        return -1;
      }
      pc := ret.value;
      sp := Wrap(sp + 8);
      rc := 0;
    }

    method FrameUp(m: Memory) returns (rc: int)
      modifies this
      ensures match Up(m, old(View()))
              case None => rc == -1 && View() == old(View())
              case Some(g) => rc == 0 && View() == g
    {
      if m.byteAt(pc) == Some(PUSH_RBP) {
        rc := UnwindFromStackTop(m);
        return;
      }
      if fp != 0 {
        var saved, ret := m.wordAt(fp), m.wordAt(Wrap(fp + 8));
        if saved.Some? && ret.Some? && saved.value > fp && ret.value >= LOWEST_RETURN {
          pc, fp, sp := ret.value, saved.value, Wrap(fp + 16);
          return 0;
        }
      }
      rc := UnwindFromStackTop(m);
    }

    /** `tb`: leaves the registers alone and lists the pcs of the chain. */
    method Backtrace(m: Memory) returns (pcs: seq<Word>)
      ensures pcs == Trace(m, View())
    {
      pcs := [pc];
      var at := fp;
      var frame := 1;
      ghost var all := Chain(m, fp, MAX_BACKTRACE_FRAMES - 1);
      var more := true;
      while frame < MAX_BACKTRACE_FRAMES && more
        invariant 1 <= frame <= MAX_BACKTRACE_FRAMES && 1 <= |pcs| <= frame
        invariant |pcs| - 1 <= |all| && pcs == [pc] + seq(|pcs| - 1, i requires 0 <= i < |pcs| - 1 => all[i].1)
        invariant more ==> |pcs| == frame && all[frame - 1..] == Chain(m, at, MAX_BACKTRACE_FRAMES - frame)
        invariant !more ==> |pcs| - 1 == |all|
        decreases MAX_BACKTRACE_FRAMES - frame, more
      {
        if at == 0 || Record(m, at).None? {
          more := false;
        } else {
          var (next, ret) := Record(m, at).value;
          assert all[frame - 1] == all[frame - 1..][0];
          assert all[frame..] == all[frame - 1..][1..];
          pcs := pcs + [ret];
          at := next;
          frame := frame + 1;
        }
      }
    }
  }

  /** Along the chain frame pointers strictly increase, so no frame is walked twice. */
  lemma {:induction false} ChainClimbs(m: Memory, fp: Word, n: nat)
    ensures forall i :: 0 <= i < |Chain(m, fp, n)| ==> Chain(m, fp, n)[i].0 > fp
    ensures forall i, j :: 0 <= i < j < |Chain(m, fp, n)| ==> Chain(m, fp, n)[i].0 < Chain(m, fp, n)[j].0
    decreases n
  {
    if n > 0 && fp != 0 && Record(m, fp).Some? {
      ChainClimbs(m, Record(m, fp).value.0, n - 1);
    }
  }

  /** Going up `k` times, none of the pcs left behind at a `push %rbp`, follows the chain. */
  lemma {:induction false} UpFollowsChain(m: Memory, f: Frame, n: nat, k: nat)
    requires k <= |Chain(m, f.fp, n)| && !(k > 0 && AtPush(m, f.pc))
    requires forall i :: 0 <= i < k - 1 ==> !AtPush(m, Chain(m, f.fp, n)[i].1)
    ensures UpTimes(m, f, k).Some?
    ensures k > 0 ==> UpTimes(m, f, k).value.fp == Chain(m, f.fp, n)[k - 1].0
                      && UpTimes(m, f, k).value.pc == Chain(m, f.fp, n)[k - 1].1
    decreases k
  {
    if k > 0 {
      var chain := Chain(m, f.fp, n);
      var g := Up(m, f).value;
      var rest := Chain(m, g.fp, n - 1);
      assert chain[1..] == rest;
      assert chain[0].1 == g.pc;
      forall i | 0 <= i < k - 2 ensures !AtPush(m, rest[i].1) {
        assert rest[i] == chain[i + 1];
      }
      UpFollowsChain(m, g, n - 1, k - 1);
    }
  }

  /** `up` agrees with `tb`: unless a pc on the way points at `push %rbp`, `k` times `up` stands at
      the pc `tb` prints for frame `k`. */
  lemma UpAgreesWithTrace(m: Memory, f: Frame, k: nat)
    requires k < |Trace(m, f)| && forall i :: 0 <= i < k ==> !AtPush(m, Trace(m, f)[i])
    ensures UpTimes(m, f, k).Some? && UpTimes(m, f, k).value.pc == Trace(m, f)[k]
  {
    var chain := Chain(m, f.fp, MAX_BACKTRACE_FRAMES - 1);
    assert k > 0 ==> !AtPush(m, Trace(m, f)[0]);
    forall i | 0 <= i < k - 1 ensures !AtPush(m, chain[i].1) {
      assert Trace(m, f)[i + 1] == chain[i].1;
    }
    UpFollowsChain(m, f, MAX_BACKTRACE_FRAMES - 1, k);
  }

  /** At a `push %rbp` the two agree on the caller exactly when the word on top of the stack is the
      return address of the frame record. */
  lemma FirstFrameIff(m: Memory, f: Frame)
    requires |Trace(m, f)| > 1
    ensures Up(m, f).Some? && Up(m, f).value.pc == Trace(m, f)[1] <==>
              !AtPush(m, f.pc) || m.wordAt(f.sp) == Some(Trace(m, f)[1])
  {
    assert Trace(m, f)[1] == Record(m, f.fp).value.1;
  }

  /** There `tb` leaves out the caller: `up` visits it first, and then the frame `tb` prints next. */
  lemma TraceSkipsCaller(m: Memory, f: Frame)
    requires |Trace(m, f)| > 1 && AtPush(m, f.pc)
    requires m.wordAt(f.sp).Some? && m.wordAt(f.sp).value >= LOWEST_RETURN && !AtPush(m, m.wordAt(f.sp).value)
    ensures Up(m, f).Some? && Up(m, f).value.pc == m.wordAt(f.sp).value
    ensures UpTimes(m, f, 2).Some? && UpTimes(m, f, 2).value.pc == Trace(m, f)[1]
  {
    var g := Up(m, f).value;
    assert UpTimes(m, g, 1) == UpTimes(m, Up(m, g).value, 0);
    assert UpTimes(m, f, 2) == UpTimes(m, g, 1);
  }
}
