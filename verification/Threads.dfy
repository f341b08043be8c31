/** Suspending other threads: `lock`/`unlock` and the guard around a step (src/debugger.c), sharing
    the kernel's suspend counts while threads come and go. */
module Threads {
  import opened Basics

  type Tid = nat

  /** The tid that stands for the process's first thread. */
  const PRIMARY: Tid := 0

  const MAX_THREADS: nat := 64

  ghost predicate NoRepeats(s: seq<Tid>) {
    forall i, j :: 0 <= i < j < |s| ==> s[i] != s[j]
  }

  function Listed(live: seq<Tid>): seq<Tid> {
    if |live| < MAX_THREADS then live else live[..MAX_THREADS]
  }

  /** The threads of `s` other than `t`, in order. */
  function Others(s: seq<Tid>, t: Tid): seq<Tid> {
    if s == [] then []
    else if s[|s| - 1] == t then Others(s[..|s| - 1], t)
    else Others(s[..|s| - 1], t) + [s[|s| - 1]]
  }

  lemma {:induction false} OthersAre(s: seq<Tid>, t: Tid)
    ensures forall x :: x in Others(s, t) <==> x in s && x != t
    ensures |Others(s, t)| <= |s| && (t in s ==> |Others(s, t)| < |s|)
  {
    if s != [] {
      var front, last := s[..|s| - 1], s[|s| - 1];
      OthersAre(front, t);
      assert s == front + [last];
    }
  }

  lemma NoRepeatsPush(s: seq<Tid>, x: Tid)
    requires NoRepeats(s) && x !in s
    ensures NoRepeats(s + [x])
  {
    assert forall i :: 0 <= i < |s| ==> s[i] != x;
  }

  lemma {:induction false} OthersDistinct(s: seq<Tid>, t: Tid)
    requires NoRepeats(s)
    ensures NoRepeats(Others(s, t))
  {
    if s != [] {
      var front, last := s[..|s| - 1], s[|s| - 1];
      OthersDistinct(front, t);
      OthersAre(front, t);
      assert forall i :: 0 <= i < |front| ==> front[i] == s[i] != last;
      NoRepeatsPush(Others(front, t), last);
    }
  }

  lemma {:induction false} OthersGrow(s: seq<Tid>, t: Tid, i: nat)
    requires i <= |s|
    ensures Others(s[..i], t) <= Others(s, t)
    decreases |s|
  {
    if i < |s| {
      OthersGrow(s[..|s| - 1], t, i);
      assert s[..|s| - 1][..i] == s[..i];
    } else {
      assert s[..i] == s;
    }
  }

  /** Going through a list, the others so far are the first of all others. */
  lemma OthersStep(s: seq<Tid>, t: Tid, i: nat)
    requires i < |s| && NoRepeats(s)
    ensures var now, all := Others(s[..i], t), Others(s, t);
            && |now| <= i && |now| <= |all| && all[..|now|] == now
            && (s[i] == t ==> Others(s[..i + 1], t) == now)
            && (s[i] != t ==> s[i] !in now && |now| < |all| && Others(s[..i + 1], t) == now + [s[i]])
  {
    assert s[..i + 1][..i] == s[..i];
    OthersAre(s[..i], t);
    OthersGrow(s, t, i);
    OthersGrow(s, t, i + 1);
  }

  // ----- the kernel's answers -----

  /** How many of `m` requests from the `n`-th on are granted before one is refused. */
  function Granted(g: Answers, n: nat, m: nat): (r: nat)
    ensures r <= m
    decreases m
  {
    if m == 0 || !g(n) then 0 else 1 + Granted(g, n + 1, m - 1)
  }

  lemma {:induction false} GrantedIs(g: Answers, n: nat, m: nat, k: nat)
    requires k <= m && AllGranted(g, n, n + k) && (k < m ==> !g(n + k))
    ensures Granted(g, n, m) == k
    decreases m
  {
    if k > 0 {
      GrantedIs(g, n + 1, m - 1, k - 1);
    }
  }

  /** What is stuck after resuming the first `i` of `held` in order, from the `n`-th request on: a live
    thread whose resume is refused stays suspended. */
  function Left(g: Answers, n: nat, held: seq<Tid>, live: seq<Tid>, stuck: multiset<Tid>, i: nat): multiset<Tid>
    requires i <= |held|
  {
    if i == 0 then stuck
    else
      var m := Left(g, n, held, live, stuck, i - 1);
      if held[i - 1] in live && !g(n + i - 1) then m + multiset{held[i - 1]} else m
  }

  predicate Resumes(g: Answers, n: nat, held: seq<Tid>, live: seq<Tid>, j: nat)
    requires j < |held|
  {
    held[j] in live && g(n + j)
  }

  /** Those resumes all succeed. */
  predicate AllResumed(g: Answers, n: nat, held: seq<Tid>, live: seq<Tid>, i: nat)
    requires i <= |held|
  {
    forall j :: 0 <= j < i ==> Resumes(g, n, held, live, j)
  }

  /** From request `lo` up to `hi` nothing got unstuck, and no more got stuck than requests were refused. */
  ghost predicate Bounded(g: Answers, lo: nat, hi: nat, before: multiset<Tid>, after: multiset<Tid>) {
    lo <= hi && before <= after && |after| + Refusals(g, lo) <= |before| + Refusals(g, hi)
  }

  lemma BoundedSame(g: Answers, lo: nat, hi: nat, stuck: multiset<Tid>)
    requires lo <= hi
    ensures Bounded(g, lo, hi, stuck, stuck)
  {
    RefusalsIff(g, lo, hi);
  }

  lemma BoundedLater(g: Answers, lo: nat, mid: nat, hi: nat, before: multiset<Tid>, after: multiset<Tid>)
    requires lo <= mid && Bounded(g, mid, hi, before, after)
    ensures Bounded(g, lo, hi, before, after)
  {
    RefusalsIff(g, lo, mid);
  }

  /** With every request granted nothing gets stuck; and no thread more often than requests are refused. */
  lemma BoundedEach(g: Answers, lo: nat, hi: nat, before: multiset<Tid>, after: multiset<Tid>)
    requires Bounded(g, lo, hi, before, after)
    ensures AllGranted(g, lo, hi) ==> after == before
    ensures forall t :: after[t] - before[t] <= Refusals(g, hi) - Refusals(g, lo)
  {
    RefusalsIff(g, lo, hi);
    var more := after - before;
    assert after == before + more;
    forall t ensures after[t] - before[t] <= |more| {
      assert more == (more - multiset{t}[t := more[t]]) + multiset{t}[t := more[t]];
    }
    if |more| == 0 {
      assert more == multiset{};
    }
  }

  lemma {:induction false} LeftBounded(g: Answers, n: nat, held: seq<Tid>, live: seq<Tid>, stuck: multiset<Tid>, i: nat)
    requires i <= |held|
    ensures Bounded(g, n, n + i, stuck, Left(g, n, held, live, stuck, i))
    decreases i
  {
    if i > 0 {
      LeftBounded(g, n, held, live, stuck, i - 1);
    }
  }

  lemma LeftNext(g: Answers, n: nat, held: seq<Tid>, live: seq<Tid>, stuck: multiset<Tid>, i: nat)
    requires i < |held|
    ensures Left(g, n, held, live, stuck, i + 1) ==
            Left(g, n, held, live, stuck, i) + if held[i] in live && !g(n + i) then multiset{held[i]} else multiset{}
  {
  }

  /** A thread held once gets stuck exactly when it lives and its own resume is refused. */
  lemma {:induction false} StuckIff(g: Answers, n: nat, held: seq<Tid>, live: seq<Tid>, stuck: multiset<Tid>, i: nat, j: nat)
    requires j < i <= |held| && NoRepeats(held)
    ensures Left(g, n, held, live, stuck, i)[held[j]] ==
            stuck[held[j]] + if held[j] in live && !g(n + j) then 1 else 0
    decreases i
  {
    hide Left;
    LeftNext(g, n, held, live, stuck, i - 1);
    if j == i - 1 {
      LeftElsewhere(g, n, held, live, stuck, j, held[j]);
    } else {
      StuckIff(g, n, held, live, stuck, i - 1, j);
    }
  }

  lemma {:induction false} LeftElsewhere(g: Answers, n: nat, held: seq<Tid>, live: seq<Tid>, stuck: multiset<Tid>, i: nat, t: Tid)
    requires i <= |held| && forall k :: 0 <= k < i ==> held[k] != t
    ensures Left(g, n, held, live, stuck, i)[t] == stuck[t]
  {
    if i > 0 {
      LeftElsewhere(g, n, held, live, stuck, i - 1, t);
    }
  }

  // ----- catching up -----

  /** One thread of the list: passed over if it is the first, the current one or already held, or if the
      guard is full; otherwise the kernel is asked to suspend it. */
  function Considered(g: Answers, tid: Tid, i: nat, current: Tid, held: seq<Tid>, n: nat): (seq<Tid>, nat) {
    if |held| >= MAX_THREADS || i == 0 || tid == current || tid in held then (held, n)
    else if g(n) then (held + [tid], n + 1)
    else (held, n + 1)
  }

  /** What the guard holds after the first `i` threads of the list, and the next request. */
  function Caught(g: Answers, threads: seq<Tid>, current: Tid, held: seq<Tid>, n: nat, i: nat): (seq<Tid>, nat)
    requires i <= |threads|
  {
    if i == 0 then (held, n)
    else
      var (h, m) := Caught(g, threads, current, held, n, i - 1);
      Considered(g, threads[i - 1], i - 1, current, h, m)
  }

  lemma {:induction false} CaughtFull(g: Answers, threads: seq<Tid>, current: Tid, held: seq<Tid>, n: nat, i: nat, j: nat)
    requires i <= j <= |threads| && |Caught(g, threads, current, held, n, i).0| >= MAX_THREADS
    ensures Caught(g, threads, current, held, n, j) == Caught(g, threads, current, held, n, i)
    decreases j
  {
    if i < j {
      CaughtFull(g, threads, current, held, n, i, j - 1);
    }
  }

  /** Catching up takes new threads only, each once, and never the first listed or the current one. */
  lemma {:induction false} CaughtUp(g: Answers, threads: seq<Tid>, current: Tid, held: seq<Tid>, n: nat, i: nat)
    requires i <= |threads| && NoRepeats(held)
    ensures var (h, m) := Caught(g, threads, current, held, n, i);
            && held <= h && n <= m && NoRepeats(h)
            && (forall t :: t in h && t !in held ==> t != current && t in threads[..i] && (i > 0 ==> t in threads[1..i]))
            && (|held| <= MAX_THREADS ==> |h| <= MAX_THREADS)
    decreases i
  {
    if i > 0 {
      CaughtUp(g, threads, current, held, n, i - 1);
      var h0 := Caught(g, threads, current, held, n, i - 1).0;
      if Caught(g, threads, current, held, n, i).0 != h0 {
        NoRepeatsPush(h0, threads[i - 1]);
      }
      assert threads[..i] == threads[..i - 1] + [threads[i - 1]];
      assert i > 1 ==> threads[1..i] == threads[1..i - 1] + [threads[i - 1]];
    }
  }

  /** A new thread, neither first nor current, is left out exactly when the guard is full at its turn or the
      kernel refuses to suspend it. */
  lemma {:induction false} LeftOutIff(g: Answers, threads: seq<Tid>, current: Tid, held: seq<Tid>, n: nat, i: nat, j: nat)
    requires 1 <= j < i <= |threads| && NoRepeats(threads) && NoRepeats(held)
    requires threads[j] != current && threads[j] !in held
    ensures var (h, m) := Caught(g, threads, current, held, n, j);
            threads[j] !in Caught(g, threads, current, held, n, i).0 <==> |h| >= MAX_THREADS || !g(m)
    decreases i
  {
    CaughtUp(g, threads, current, held, n, j);
    if j < i - 1 {
      LeftOutIff(g, threads, current, held, n, i - 1, j);
      assert threads[i - 1] != threads[j];
    }
  }

  // ----- what a guard keeps from running -----

  /** Those of `asked` whose suspension was granted, the first being the `n`-th request. */
  function Taken(g: Answers, n: nat, asked: seq<Tid>): seq<Tid> {
    if asked == [] then []
    else
      var front := Taken(g, n, asked[..|asked| - 1]);
      if g(n + |asked| - 1) then front + [asked[|asked| - 1]] else front
  }

  /** A thread asked for once is taken exactly when its own request is granted. */
  lemma {:induction false} TakenIff(g: Answers, n: nat, asked: seq<Tid>, i: nat)
    requires i < |asked| && NoRepeats(asked)
    ensures asked[i] in Taken(g, n, asked) <==> g(n + i)
    decreases |asked|
  {
    var front := asked[..|asked| - 1];
    TakenAsked(g, n, front);
    if i < |front| {
      TakenIff(g, n, front, i);
    }
  }

  lemma {:induction false} TakenAsked(g: Answers, n: nat, asked: seq<Tid>)
    ensures |Taken(g, n, asked)| <= |asked| && forall t :: t in Taken(g, n, asked) ==> t in asked
    decreases |asked|
  {
    if asked != [] {
      TakenAsked(g, n, asked[..|asked| - 1]);
    }
  }

  /** Catching up has asked for the threads of `asked` among the first `i` of `threads`, and for no other. */
  ghost predicate Asking(g: Answers, threads: seq<Tid>, current: Tid, before: seq<Tid>, n: nat, asked: seq<Tid>, i: nat) {
    && i <= |threads| && NoRepeats(asked)
    && (forall t :: t in asked ==> t in threads[..i])
    && forall k :: 1 <= k < i && threads[k] != current ==> threads[k] in before || threads[k] in asked
  }

  lemma AskingOn(g: Answers, threads: seq<Tid>, current: Tid, before: seq<Tid>, held: seq<Tid>, n: nat, asked: seq<Tid>, i: nat)
    returns (asked': seq<Tid>)
    requires i < |threads| && |held| < MAX_THREADS && NoRepeats(threads)
    requires Asking(g, threads, current, before, n, asked, i) && held == before + Taken(g, n, asked)
    ensures Asking(g, threads, current, before, n, asked', i + 1)
    ensures Considered(g, threads[i], i, current, held, n + |asked|) == (before + Taken(g, n, asked'), n + |asked'|)
  {
    asked' := asked;
    assert threads[..i + 1] == threads[..i] + [threads[i]];
    TakenAsked(g, n, asked);
    if i > 0 && threads[i] != current && threads[i] !in held {
      assert threads[i] !in threads[..i];
      NoRepeatsPush(asked, threads[i]);
      asked' := asked + [threads[i]];
      assert asked'[..|asked|] == asked;
      assert before + (Taken(g, n, asked) + [threads[i]]) == held + [threads[i]];
    }
  }

  lemma AskingStart(g: Answers, threads: seq<Tid>, current: Tid, before: seq<Tid>, n: nat)
    ensures Asking(g, threads, current, before, n, [], 0) && before + Taken(g, n, []) == before
    ensures Caught(g, threads, current, before, n, 0) == (before, n)
  {
  }

  lemma CaughtNext(g: Answers, threads: seq<Tid>, current: Tid, before: seq<Tid>, n: nat, i: nat, h: seq<Tid>, m: nat)
    requires i < |threads| && Caught(g, threads, current, before, n, i) == (h, m)
    ensures Caught(g, threads, current, before, n, i + 1) == Considered(g, threads[i], i, current, h, m)
  {
  }

  /** The process at the moment a step lets it run: what lives, the suspend counts, what was stuck, and what the
      guard held before it asked, from the `first`-th request on, for the threads of `asked`. */
  datatype Moment = Moment(live: seq<Tid>, suspends: map<Tid, nat>, stuck: multiset<Tid>, earlier: seq<Tid>, first: nat,
                           asked: seq<Tid>)

  ghost function HeldNow(g: Answers, m: Moment): seq<Tid> {
    m.earlier + Taken(g, m.first, m.asked)
  }

  /** With no lock, and the threads listed by the request before `first`: every thread listed but the first and
      the current one is held, or was asked for, or found the guard full; and the held ones are suspended. */
  ghost predicate Guarded(g: Answers, current: Tid, m: Moment) {
    && m.first > 0 && NoRepeats(m.asked)
    && (g(m.first - 1) ==>
          forall j :: 1 <= j < |Listed(m.live)| && Listed(m.live)[j] != current ==> GuardedAt(g, m, Listed(m.live)[j]))
  }

  ghost predicate GuardedAt(g: Answers, m: Moment, t: Tid) {
    && t in m.suspends && m.suspends[t] == m.stuck[t] + (if t in HeldNow(g, m) then 1 else 0)
    && (t in m.earlier || t in m.asked || |HeldNow(g, m)| >= MAX_THREADS)
  }

  /** While a step runs, a thread that is neither the first nor the current one runs too exactly when the guard
      was full at its turn or its own suspension was refused. */
  lemma RunsIff(g: Answers, current: Tid, m: Moment, j: nat)
    requires Guarded(g, current, m) && g(m.first - 1)
    requires 1 <= j < |Listed(m.live)| && Listed(m.live)[j] != current
    ensures var t := Listed(m.live)[j];
            && t in m.suspends
            && (m.suspends[t] == 0 <==>
                  && m.stuck[t] == 0 && t !in m.earlier
                  && (t in m.asked ==> exists i :: 0 <= i < |m.asked| && m.asked[i] == t && !g(m.first + i))
                  && (t !in m.asked ==> |HeldNow(g, m)| >= MAX_THREADS))
  {
    var t := Listed(m.live)[j];
    assert GuardedAt(g, m, t);
    TakenAsked(g, m.first, m.asked);
    if t in m.asked {
      var i :| 0 <= i < |m.asked| && m.asked[i] == t;
      TakenIff(g, m.first, m.asked, i);
    }
  }

  /** With every request granted and room in the guard, none of them runs. */
  lemma NoneRuns(g: Answers, current: Tid, m: Moment, j: nat)
    requires Guarded(g, current, m) && AllGranted(g, m.first - 1, m.first + |m.asked|) && |HeldNow(g, m)| < MAX_THREADS
    requires 1 <= j < |Listed(m.live)| && Listed(m.live)[j] != current
    ensures Listed(m.live)[j] in m.suspends && m.suspends[Listed(m.live)[j]] > 0
  {
    RunsIff(g, current, m, j);
  }

  /** The guard never lets go of a thread that has exited: after 64 of them a new one runs through the step. */
  lemma GuardFills(g: Answers, n: nat)
    ensures var gone := seq(64, i => i + 10);
            NoRepeats(gone) && Caught(g, [1, 2], PRIMARY, gone, n, 2) == (gone, n)
  {
    var gone := seq(64, i => i + 10);
    assert Caught(g, [1, 2], PRIMARY, gone, n, 1) == (gone, n);
  }

  // ----- the suspend counts -----

  /** Every live thread is suspended once if it is one of `held`, and once more for each of its resumes
      that was refused. */
  ghost predicate Counts(live: seq<Tid>, suspends: map<Tid, nat>, stuck: multiset<Tid>, held: seq<Tid>) {
    && (forall t :: t in suspends <==> t in live)
    && forall t :: t in suspends ==> suspends[t] == stuck[t] + if t in held then 1 else 0
  }

  /** Threads are listed and held once, and were all seen to appear. */
  ghost predicate Known(live: seq<Tid>, seen: set<Tid>, stuck: multiset<Tid>, held: seq<Tid>) {
    && NoRepeats(live) && NoRepeats(held) && PRIMARY !in seen
    && (forall t :: t in live || t in held ==> t in seen)
    && forall t :: t in stuck ==> t in seen
  }

  lemma CountsResumed(live: seq<Tid>, suspends: map<Tid, nat>, seen: set<Tid>, stuck: multiset<Tid>, held: seq<Tid>, i: nat)
    requires i < |held| && Counts(live, suspends, stuck, held[i..]) && Known(live, seen, stuck, held[i..])
    ensures var t := held[i];
            if t in live then
              && suspends[t] > 0
              && Counts(live, suspends[t := suspends[t] - 1], stuck, held[i + 1..])
              && Counts(live, suspends, stuck + multiset{t}, held[i + 1..])
              && Known(live, seen, stuck + multiset{t}, held[i + 1..])
            else Counts(live, suspends, stuck, held[i + 1..])
    ensures Known(live, seen, stuck, held[i + 1..])
  {
    assert held[i..] == [held[i]] + held[i + 1..];
    assert held[i] !in held[i + 1..] by {
      assert forall j :: i + 1 <= j < |held| ==> held[j] == held[i..][j - i] && held[i] == held[i..][0];
    }
    var now, rest := held[i..], held[i + 1..];
    forall j, k | 0 <= j < k < |rest| ensures rest[j] != rest[k] {
      assert rest[j] == now[j + 1] && rest[k] == now[k + 1];
    }
  }

  lemma CountsSuspended(live: seq<Tid>, suspends: map<Tid, nat>, seen: set<Tid>, stuck: multiset<Tid>, held: seq<Tid>, t: Tid)
    requires Counts(live, suspends, stuck, held) && Known(live, seen, stuck, held) && t in live && t !in held
    ensures Counts(live, suspends[t := suspends[t] + 1], stuck, held + [t])
    ensures Known(live, seen, stuck, held + [t])
  {
    NoRepeatsPush(held, t);
  }

  /** A step guard: the threads it has suspended. */
  class Guard {
    const tids: array<Tid>
    var count: nat

    constructor ()
      ensures fresh(this) && fresh(tids) && tids.Length == MAX_THREADS && count == 0
    {
      tids := new Tid[MAX_THREADS];
      count := 0;
    }

    ghost function Held(): seq<Tid>
      requires count <= tids.Length
      reads this, tids
    {
      tids[..count]
    }
  }

  datatype Command =
    | LockThread(index: nat)
    | UnlockThreads
    | Select(index: nat)
    | Step(iterations: nat)
    | StepInstruction
    | ContinueAll
    | KillProcess
    | Run(first: Tid)

  /** What the debugger and the process are like at a prompt (`locked` only matters under a lock). */
  datatype Snap = Snap(idle: bool, lock: bool, locked: Tid, current: Tid, recorded: seq<Tid>, live: seq<Tid>,
                       stuck: multiset<Tid>, requests: nat)

  /** `lock n`, decided by how many of its suspensions are granted, the first of them being the `n`-th request. */
  ghost function LockedOnto(g: Answers, a: Snap, target: Tid, index: nat, others: seq<Tid>, n: nat): Snap {
    var taken := Granted(g, n, |others|);
    if taken == |others| then
      a.(lock := true, locked := target, current := if index == 0 then PRIMARY else target, recorded := others,
         requests := n + |others| + 1)
    else a.(stuck := Left(g, n + taken + 1, others[..taken], a.live, a.stuck, taken), requests := n + taken + 1 + taken)
  }

  lemma LockedOntoSame(g: Answers, a: Snap, r: nat, target: Tid, index: nat, others: seq<Tid>, n: nat)
    ensures LockedOnto(g, a.(requests := r), target, index, others, n) == LockedOnto(g, a, target, index, others, n)
  {
  }

  /** What a command makes of a prompt. While the program runs threads come and go, and it may end. */
  ghost predicate Does(g: Answers, c: Command, a: Snap, b: Snap) {
    match c
    case LockThread(i) =>
      if a.idle || a.lock then b == a
      else if !g(a.requests) || i >= |Listed(a.live)| then b == a.(requests := a.requests + 1)
      else b == LockedOnto(g, a, Listed(a.live)[i], i, Others(Listed(a.live), Listed(a.live)[i]), a.requests + 1)
    case UnlockThreads =>
      if a.idle || !a.lock then b == a
      else b == a.(lock := false, locked := PRIMARY, recorded := [], requests := a.requests + |a.recorded|,
                   stuck := Left(g, a.requests, a.recorded, a.live, a.stuck, |a.recorded|))
    case Select(i) =>
      if a.idle then b == a
      else if !g(a.requests) || i >= |Listed(a.live)| then b == a.(requests := a.requests + 1)
      else b == a.(current := if i == 0 then PRIMARY else Listed(a.live)[i], requests := a.requests + 2)
    case Step(_) => Stepped(a, b)
    case StepInstruction => Stepped(a, b)
    case ContinueAll => b == if a.idle then a else a.(idle := b.idle, live := b.live)
    case KillProcess =>
      b == if a.idle then a else a.(idle := true, lock := false, locked := PRIMARY, current := PRIMARY, recorded := [], live := [])
    case Run(first) =>
      && b == a.(idle := false, lock := false, locked := PRIMARY, current := PRIMARY, recorded := [], live := b.live)
      && (b.live == [] || b.live == [first])
  }

  /** A step is refused off the primary thread; it leaves lock and selection alone. */
  ghost predicate Stepped(a: Snap, b: Snap) {
    if a.idle || a.current != PRIMARY then b == a
    else b == a.(idle := b.idle, live := b.live, stuck := if a.lock then a.stuck else b.stuck, requests := b.requests)
  }

  class Process {
    // the kernel's side; tids are never used twice
    const grants: Answers
    var requests: nat
    var live: seq<Tid>
    var suspends: map<Tid, nat>
    var seen: set<Tid>
    // resumes refused, of threads that were alive
    ghost var stuck: multiset<Tid>
    // the debugger's side
    var idle: bool
    var current: Tid
    var lockActive: bool
    var lockedTid: Tid
    const suspendedTids: array<Tid>
    var suspendedCount: nat

    constructor (grants: Answers)
      ensures AtPrompt() && idle && fresh(suspendedTids) && this.grants == grants && stuck == multiset{}
    {
      this.grants, requests := grants, 0;
      live, suspends, seen, stuck := [], map[], {}, multiset{};
      idle, current, lockActive, lockedTid := true, PRIMARY, false, PRIMARY;
      suspendedTids := new Tid[MAX_THREADS];
      suspendedCount := 0;
    }

    ghost function Recorded(): seq<Tid>
      requires suspendedCount <= suspendedTids.Length
      reads this, suspendedTids
    {
      suspendedTids[..suspendedCount]
    }

    ghost function Now(): Snap
      requires suspendedCount <= suspendedTids.Length
      reads this, suspendedTids
    {
      Snap(idle, lockActive, if lockActive then lockedTid else PRIMARY, current, Recorded(), live, stuck, requests)
    }

    ghost predicate Holding(held: seq<Tid>)
      reads this
    {
      Counts(live, suspends, stuck, held) && Known(live, seen, stuck, held)
    }

    /** What is suspended is what an active lock has recorded, or else what an open guard holds. */
    ghost predicate Valid(guard: seq<Tid>)
      reads this, suspendedTids
    {
      && suspendedTids.Length == MAX_THREADS && suspendedCount <= MAX_THREADS
      && (if lockActive then guard == [] && Holding(Recorded()) else suspendedCount == 0 && Holding(guard))
      && (idle ==> live == [])
    }

    ghost predicate AtPrompt()
      reads this, suspendedTids
    {
      Valid([])
    }

    // ----- the kernel -----

    method Spawn(t: Tid, ghost guard: seq<Tid>)
      requires Valid(guard) && !idle
      modifies `live, `suspends, `seen
      ensures Valid(guard) && live == if t != PRIMARY && t !in old(seen) then old(live) + [t] else old(live)
    {
      if t != PRIMARY && t !in seen {
        live, suspends, seen := live + [t], suspends[t := 0], seen + {t};
      }
    }

    method Exit(t: Tid, ghost guard: seq<Tid>)
      requires Valid(guard)
      modifies `live, `suspends
      ensures Valid(guard)
    {
      OthersAre(live, t);
      OthersDistinct(live, t);
      live, suspends := Others(live, t), suspends - {t};
    }

    /** The program runs for a while: any threads exit and any new ones appear, in any order. */
    method Churn(ghost guard: seq<Tid>)
      requires Valid(guard) && !idle
      modifies `live, `suspends, `seen
      ensures Valid(guard)
    {
      var events: nat := *;
      while events > 0
        invariant Valid(guard) && !idle
      {
        var t: Tid := *;
        var birth: bool := *;
        if birth {
          Spawn(t, guard);
        } else {
          Exit(t, guard);
        }
        events := events - 1;
      }
    }

    method Ask() returns (granted: bool)
      modifies `requests
      ensures granted == grants(old(requests)) && requests == old(requests) + 1
    {
      granted := grants(requests);
      requests := requests + 1;
    }

    /** One more on the suspend count of a live thread, if granted. */
    method Suspend(t: Tid) returns (rc: int)
      requires forall x :: x in suspends <==> x in live
      modifies `suspends, `requests
      ensures requests == old(requests) + 1
      ensures rc == if grants(old(requests)) && t in live then 0 else -1
      ensures suspends == if rc == 0 then old(suspends)[t := old(suspends)[t] + 1] else old(suspends)
    {
      var granted := Ask();
      if !granted || t !in live {
        return -1;
      }
      suspends := suspends[t := suspends[t] + 1];
      rc := 0;
    }

    /** One less, if granted; fails too on a thread that is gone or not suspended. */
    method Resume(t: Tid) returns (rc: int)
      requires forall x :: x in suspends <==> x in live
      modifies `suspends, `requests
      ensures requests == old(requests) + 1
      ensures rc == if grants(old(requests)) && t in live && old(suspends)[t] > 0 then 0 else -1
      ensures suspends == if rc == 0 then old(suspends)[t := old(suspends)[t] - 1] else old(suspends)
    {
      var granted := Ask();
      if !granted || t !in live || suspends[t] == 0 {
        return -1;
      }
      suspends := suspends[t := suspends[t] - 1];
      rc := 0;
    }

    /** Resuming the first of the threads still held lets go of it; if it lives and the kernel refuses,
        it stays suspended. */
    method ResumeHeld(t: Tid, ghost held: seq<Tid>, ghost i: nat) returns (rc: int)
      requires i < |held| && held[i] == t && Holding(held[i..])
      modifies `suspends, `requests, `stuck
      ensures Holding(held[i + 1..]) && requests == old(requests) + 1
      ensures rc == if t in live && grants(old(requests)) then 0 else -1
      ensures stuck == if t in live && !grants(old(requests)) then old(stuck) + multiset{t} else old(stuck)
    {
      CountsResumed(live, suspends, seen, stuck, held, i);
      rc := Resume(t);
      if rc != 0 && t in live {
        stuck := stuck + multiset{t};
      }
    }

    /** Resumes everything held, in order; fails if any resume does. */
    method ResumeAll(tids: array<Tid>, count: nat) returns (rc: int)
      requires count <= tids.Length && Holding(tids[..count])
      modifies `suspends, `requests, `stuck
      ensures Holding([]) && requests == old(requests) + count && Bounded(grants, old(requests), requests, old(stuck), stuck)
      ensures stuck == Left(grants, old(requests), tids[..count], live, old(stuck), count)
      ensures rc == if AllResumed(grants, old(requests), tids[..count], live, count) then 0 else -1
    {
      hide Counts, Known, Refusals;
      ghost var held, n, before := tids[..count], requests, stuck;
      rc := 0;
      var i := 0;
      while i < count
        invariant i <= count && Holding(held[i..]) && requests == n + i
        invariant stuck == Left(grants, n, held, live, before, i)
        invariant rc == if AllResumed(grants, n, held, live, i) then 0 else -1
      {
        var r := ResumeNext(tids[i], held, i, n, before);
        if r != 0 {
          rc := -1;
        }
        i := i + 1;
      }
      assert held[i..] == [];
      LeftBounded(grants, n, held, live, before, count);
    }

    method ResumeNext(t: Tid, ghost held: seq<Tid>, ghost i: nat, ghost n: nat, ghost before: multiset<Tid>) returns (rc: int)
      requires i < |held| && held[i] == t && Holding(held[i..]) && requests == n + i
      requires stuck == Left(grants, n, held, live, before, i)
      modifies `suspends, `requests, `stuck
      ensures Holding(held[i + 1..]) && requests == n + (i + 1)
      ensures stuck == Left(grants, n, held, live, before, i + 1)
      ensures AllResumed(grants, n, held, live, i + 1) <==> AllResumed(grants, n, held, live, i) && rc == 0
    {
      hide Counts, Known;
      ghost var resumes := Resumes(grants, n, held, live, i);
      rc := ResumeHeld(t, held, i);
    }

    /** The first threads of the process, the primary one first. */
    method List() returns (rc: int, threads: seq<Tid>)
      modifies `requests
      ensures requests == old(requests) + 1 && threads == Listed(live)
      ensures rc == if grants(old(requests)) then 0 else -1
    {
      var granted := Ask();
      rc, threads := if granted then 0 else -1, Listed(live);
    }

    // ----- the guard around a step -----

    lemma Unlisted(m: Moment)
      requires m.asked == [] && m.first > 0
      ensures HeldNow(grants, m) == m.earlier && (!grants(m.first - 1) ==> Guarded(grants, current, m))
    {
    }

    lemma ListedOnce(threads: seq<Tid>)
      requires NoRepeats(live) && threads == Listed(live)
      ensures NoRepeats(threads) && forall t :: t in threads ==> t in live
    {
    }

    lemma AskedAll(m: Moment, threads: seq<Tid>, held: seq<Tid>, i: nat)
      requires Asking(grants, threads, current, m.earlier, m.first, m.asked, i) && threads == Listed(live)
      requires (i == |threads| || |held| >= MAX_THREADS) && m.first > 0 && held == HeldNow(grants, m)
      requires m.live == live && m.suspends == suspends && m.stuck == stuck && Holding(held)
      ensures Guarded(grants, current, m)
    {
      forall j | 1 <= j < |threads| && threads[j] != current ensures GuardedAt(grants, m, threads[j]) {
        assert threads[j] in live;
      }
    }

    lemma CaughtFullOrDone(threads: seq<Tid>, before: seq<Tid>, n: nat, i: nat, held: seq<Tid>)
      requires i <= |threads| && (i == |threads| || |held| >= MAX_THREADS)
      requires held == Caught(grants, threads, current, before, n, i).0
      ensures Caught(grants, threads, current, before, n, i) == Caught(grants, threads, current, before, n, |threads|)
    {
      if i < |threads| {
        CaughtFull(grants, threads, current, before, n, i, |threads|);
      }
    }

    /** Suspends one listed thread unless it is passed over. */
    method Consider(guard: Guard, tid: Tid, i: nat)
      requires guard.tids.Length == MAX_THREADS && guard.tids != suspendedTids && guard.count < MAX_THREADS
      requires Valid(guard.Held()) && !lockActive && tid in live
      modifies `suspends, `requests, guard, guard.tids
      ensures guard.count <= MAX_THREADS && Valid(guard.Held())
      ensures (guard.Held(), requests) == Considered(grants, tid, i, current, old(guard.Held()), old(requests))
    {
      if i == 0 || tid == current {
        return;
      }
      var j := 0;
      while j < guard.count
        invariant j <= guard.count
        invariant tid !in guard.Held()[..j]
      {
        if guard.tids[j] == tid {
          assert tid in guard.Held();
          return;
        }
        j := j + 1;
      }
      assert guard.Held()[..j] == guard.Held();
      Hold(guard, tid);
    }

    method Hold(guard: Guard, tid: Tid)
      requires guard.tids.Length == MAX_THREADS && guard.tids != suspendedTids && guard.count < MAX_THREADS
      requires Valid(guard.Held()) && !lockActive && tid in live && tid !in guard.Held()
      modifies `suspends, `requests, guard, guard.tids
      ensures guard.count <= MAX_THREADS && Valid(guard.Held()) && requests == old(requests) + 1
      ensures guard.Held() == if grants(old(requests)) then old(guard.Held()) + [tid] else old(guard.Held())
    {
      ghost var held := guard.Held();
      CountsSuspended(live, suspends, seen, stuck, held, tid);
      var rc := Suspend(tid);
      if rc == 0 {
        guard.tids[guard.count] := tid;
        guard.count := guard.count + 1;
        assert guard.Held() == held + [tid];
      }
    }

    /** Suspends the listed threads that are not passed over, while there is room. */
    method CatchListed(guard: Guard, threads: seq<Tid>) returns (ghost asked: seq<Tid>)
      requires guard.tids.Length == MAX_THREADS && guard.tids != suspendedTids && guard.count <= MAX_THREADS
      requires Valid(guard.Held()) && !lockActive && threads == Listed(live) && requests > 0
      modifies `suspends, `requests, guard, guard.tids
      ensures guard.count <= MAX_THREADS && Valid(guard.Held()) && requests == old(requests) + |asked|
      ensures (guard.Held(), requests) == Caught(grants, threads, current, old(guard.Held()), old(requests), |threads|)
      ensures var m := Moment(live, suspends, stuck, old(guard.Held()), old(requests), asked);
              guard.Held() == HeldNow(grants, m) && Guarded(grants, current, m)
    {
      hide Counts, Taken, Considered, Asking, Caught, Guarded, Listed;
      ghost var before, n := guard.Held(), requests;
      asked := [];
      ListedOnce(threads);
      AskingStart(grants, threads, current, before, n);
      var i := 0;
      while i < |threads| && guard.count < MAX_THREADS
        invariant i <= |threads| && guard.count <= MAX_THREADS && Valid(guard.Held())
        invariant (guard.Held(), requests) == Caught(grants, threads, current, before, n, i)
        invariant Asking(grants, threads, current, before, n, asked, i)
        invariant guard.Held() == before + Taken(grants, n, asked) && requests == n + |asked|
      {
        CaughtNext(grants, threads, current, before, n, i, guard.Held(), requests);
        asked := AskingOn(grants, threads, current, before, guard.Held(), n, asked, i);
        Consider(guard, threads[i], i);
        i := i + 1;
      }
      CaughtFullOrDone(threads, before, n, i, guard.Held());
      AskedAll(Moment(live, suspends, stuck, before, n, asked), threads, guard.Held(), i);
    }

    /** Suspends the threads that have appeared since; nothing at all under a lock. */
    method CatchUp(guard: Guard) returns (ghost m: Moment)
      requires guard.tids.Length == MAX_THREADS && guard.tids != suspendedTids && guard.count <= MAX_THREADS
      requires Valid(guard.Held())
      modifies `suspends, `requests, guard, guard.tids
      ensures guard.count <= MAX_THREADS && Valid(guard.Held()) && old(requests) <= requests
      ensures if lockActive then guard.Held() == old(guard.Held()) && requests == old(requests)
              else if !grants(old(requests)) then guard.Held() == old(guard.Held()) && requests == old(requests) + 1
              else (guard.Held(), requests) ==
                   Caught(grants, Listed(live), current, old(guard.Held()), old(requests) + 1, |Listed(live)|)
      ensures !lockActive ==>
                && m == Moment(live, suspends, stuck, old(guard.Held()), old(requests) + 1, m.asked)
                && requests == m.first + |m.asked| && guard.Held() == HeldNow(grants, m) && Guarded(grants, current, m)
    {
      hide Counts, Taken, Considered, Asking, Caught, Guarded, Listed;
      m := Moment(live, suspends, stuck, guard.Held(), requests + 1, []);
      if lockActive {
        return;
      }
      Unlisted(m);
      var rc, threads := List();
      if rc != 0 {
        return;
      }
      ghost var before, n := guard.Held(), requests;
      ghost var asked;
      asked := CatchListed(guard, threads);
      m := Moment(live, suspends, stuck, before, n, asked);
    }

    /** Every thread the guard suspended and that still lives runs again, or stays suspended exactly when
        its resume is refused. */
    method EndGuard(guard: Guard)
      requires guard.count <= guard.tids.Length && guard.tids != suspendedTids
      requires Valid(guard.Held())
      modifies `suspends, `requests, `stuck
      ensures lockActive ==> suspends == old(suspends)
      ensures AtPrompt() && requests == old(requests) + guard.count && Bounded(grants, old(requests), requests, old(stuck), stuck)
      ensures stuck == Left(grants, old(requests), guard.Held(), live, old(stuck), guard.count)
    {
      hide Counts, Known;
      if guard.count > 0 {
        var _ := ResumeAll(guard.tids, guard.count);
      } else {
        assert guard.Held() == [];
      }
    }

    // ----- commands -----

    method LockListed(threads: seq<Tid>, index: nat) returns (rc: int)
      requires AtPrompt() && !idle && !lockActive && threads == Listed(live) && index < |threads|
      modifies `suspends, `requests, `stuck, `current, `lockActive, `lockedTid, `suspendedCount, suspendedTids
      ensures AtPrompt() && Bounded(grants, old(requests), requests, old(stuck), stuck)
      ensures Locked(rc, threads[index], Others(threads, threads[index]), index, old(requests), old(stuck), old(current))
      ensures Now() == LockedOnto(grants, old(Now()), threads[index], index, Others(threads, threads[index]), old(requests))
    {
      hide Counts, Known, Refusals, Left, Granted, Others, Bounded, NoRepeats;
      rc := LockOnto(threads, index);
    }

    /** `lock n`. Refused a suspension, it takes back those before; refused only the register read at its
        end, it reports failure with the lock in force. */
    method Lock(index: nat) returns (rc: int)
      requires AtPrompt()
      modifies `suspends, `requests, `stuck, `current, `lockActive, `lockedTid, `suspendedCount, suspendedTids
      ensures AtPrompt() && Bounded(grants, old(requests), requests, old(stuck), stuck)
      ensures old(idle || lockActive || !grants(requests) || index >= |Listed(live)|) ==>
                && rc == -1 && Untouched(old(lockActive), old(suspends), old(stuck))
                && current == old(current) && requests == old(requests) + if old(idle || lockActive) then 0 else 1
      ensures !old(idle || lockActive || !grants(requests) || index >= |Listed(live)|) ==>
                var target := live[index];
                Locked(rc, target, Others(Listed(live), target), index, old(requests) + 1, old(stuck), old(current))
      ensures Does(grants, LockThread(index), old(Now()), Now())
    {
      hide Counts, Known, Refusals, Left, Granted, Others, NoRepeats, LockedOnto, Locked;
      if idle || lockActive {
        return -1;
      }
      var threads;
      rc, threads := List();
      BoundedSame(grants, old(requests), requests, stuck);
      if rc != 0 || index >= |threads| {
        return -1;
      }
      ghost var a := old(Now());
      LockedOntoSame(grants, a, requests, threads[index], index, Others(threads, threads[index]), requests);
      ghost var n := requests;
      rc := LockListed(threads, index);
      BoundedLater(grants, old(requests), n, requests, old(stuck), stuck);
    }

    /** The outcome of `lock`, decided by how many of its suspensions are granted, the first of them being
        the `n`-th request. */
    ghost predicate Locked(rc: int, target: Tid, others: seq<Tid>, index: nat, n: nat, refused: multiset<Tid>, before: Tid)
      reads this, suspendedTids
    {
      var taken := Granted(grants, n, |others|);
      if taken == |others| then
        && lockActive && lockedTid == target && stuck == refused
        && suspendedCount <= suspendedTids.Length && Recorded() == others
        && current == (if index == 0 then PRIMARY else target)
        && rc == (if grants(n + |others|) then 0 else -1) && requests == n + |others| + 1
      else
        && rc == -1 && !lockActive && current == before && requests == n + taken + 1 + taken
        && stuck == Left(grants, n + taken + 1, others[..taken], live, refused, taken)
    }

    method LockOnto(threads: seq<Tid>, index: nat) returns (rc: int)
      requires AtPrompt() && !idle && !lockActive && threads == Listed(live) && index < |threads|
      modifies `suspends, `requests, `stuck, `current, `lockActive, `lockedTid, `suspendedCount, suspendedTids
      ensures AtPrompt() && Bounded(grants, old(requests), requests, old(stuck), stuck)
      ensures Locked(rc, threads[index], Others(threads, threads[index]), index, old(requests), old(stuck), old(current))
    {
      var target := threads[index];
      ghost var others, n := Others(threads, target), requests;
      var taken;
      rc, taken := SuspendOthers(threads, target);
      rc := Conclude(rc, taken, target, index, others, n);
    }

    /** After the loop: the lock is in force, or what it took is given back. */
    method Conclude(refusal: int, taken: nat, target: Tid, index: nat, ghost others: seq<Tid>, ghost n: nat) returns (rc: int)
      requires suspendedTids.Length == MAX_THREADS && suspendedCount == 0 && !lockActive && !idle
      requires taken == Granted(grants, n, |others|) <= MAX_THREADS && refusal == if taken == |others| then 0 else -1
      requires suspendedTids[..taken] == others[..taken] && Holding(suspendedTids[..taken])
      requires requests == n + taken + (if refusal == 0 then 0 else 1) && (refusal != 0 ==> !grants(n + taken))
      modifies `suspends, `requests, `stuck, `current, `lockActive, `lockedTid, `suspendedCount
      ensures AtPrompt() && Bounded(grants, n, requests, old(stuck), stuck)
      ensures Locked(rc, target, others, index, n, old(stuck), old(current))
    {
      hide Counts, Known, Refusals, Bounded, AllGranted, Left, Granted;
      if refusal != 0 {
        TakeBack(taken, others[..taken], n + taken + 1);
        BoundedLater(grants, n, n + taken + 1, requests, old(stuck), stuck);
        return -1;
      }
      assert others[..taken] == others;
      rc := Engage(target, index, taken);
      BoundedSame(grants, n, requests, stuck);
    }

    method TakeBack(taken: nat, ghost held: seq<Tid>, ghost first: nat)
      requires suspendedTids.Length == MAX_THREADS && suspendedCount == 0 && !lockActive && !idle
      requires taken <= MAX_THREADS && held == suspendedTids[..taken] && Holding(held) && requests == first
      modifies `suspends, `requests, `stuck
      ensures AtPrompt() && requests == first + taken && Bounded(grants, first, requests, old(stuck), stuck)
      ensures stuck == Left(grants, first, held, live, old(stuck), taken)
    {
      hide Counts, Known;
      var _ := ResumeAll(suspendedTids, taken);
    }

    method Engage(target: Tid, index: nat, taken: nat) returns (rc: int)
      requires suspendedTids.Length == MAX_THREADS && !idle
      requires taken <= MAX_THREADS && Holding(suspendedTids[..taken])
      modifies `requests, `current, `lockActive, `lockedTid, `suspendedCount
      ensures AtPrompt() && lockActive && lockedTid == target && suspendedCount == taken
      ensures current == if index == 0 then PRIMARY else target
      ensures requests == old(requests) + 1 && rc == if grants(old(requests)) then 0 else -1
    {
      hide Counts, Known;
      lockActive, lockedTid, suspendedCount := true, target, taken;
      current := if index == 0 then PRIMARY else target;
      var read := Ask();
      rc := if read then 0 else -1;
    }

    ghost predicate Untouched(lock: bool, before: map<Tid, nat>, refused: multiset<Tid>)
      reads this
    {
      lockActive == lock && suspends == before && stuck == refused
    }

    /** Suspends every listed thread but the target, up to the first whose suspension is refused. */
    method SuspendOthers(threads: seq<Tid>, target: Tid) returns (rc: int, taken: nat)
      requires suspendedTids.Length == MAX_THREADS && Holding([])
      requires |threads| <= MAX_THREADS && NoRepeats(threads) && forall t :: t in threads ==> t in live
      modifies `suspends, `requests, suspendedTids
      ensures taken == Granted(grants, old(requests), |Others(threads, target)|) <= MAX_THREADS
      ensures rc == if taken == |Others(threads, target)| then 0 else -1
      ensures suspendedTids[..taken] == Others(threads, target)[..taken] && Holding(suspendedTids[..taken])
      ensures requests == old(requests) + taken + if rc == 0 then 0 else 1
      ensures rc != 0 ==> !grants(old(requests) + taken)
    {
      ghost var n, others := requests, Others(threads, target);
      OthersAre(threads, target);
      rc, taken := SuspendLoop(threads, target);
      GrantedIs(grants, n, |others|, taken);
    }

    method SuspendLoop(threads: seq<Tid>, target: Tid) returns (rc: int, taken: nat)
      requires suspendedTids.Length == MAX_THREADS && Holding([])
      requires |threads| <= MAX_THREADS && NoRepeats(threads) && forall t :: t in threads ==> t in live
      modifies `suspends, `requests, suspendedTids
      ensures taken <= |Others(threads, target)| && taken <= |threads| && Holding(suspendedTids[..taken])
      ensures AllGranted(grants, old(requests), old(requests) + taken)
      ensures if rc == 0 then Taking(Others(threads, target), old(requests), taken)
              else rc == -1 && Stopped(Others(threads, target), old(requests), taken)
    {
      hide Counts, Known;
      taken, rc := 0, 0;
      ghost var n := requests;
      var i := 0;
      assert suspendedTids[..0] == [];
      while i < |threads| && rc == 0
        invariant i <= |threads| && taken <= i && taken <= |Others(threads, target)|
        invariant Holding(suspendedTids[..taken]) && AllGranted(grants, n, n + taken)
        invariant if rc == 0 then Taking(Others(threads[..i], target), n, taken)
                  else rc == -1 && Stopped(Others(threads, target), n, taken)
      {
        rc, taken := SuspendNext(threads, target, i, taken, n);
        i := i + 1;
      }
      assert threads[..|threads|] == threads;
    }

    ghost predicate Taking(others: seq<Tid>, n: nat, taken: nat)
      reads this, suspendedTids
    {
      taken <= suspendedTids.Length && suspendedTids[..taken] == others && requests == n + taken
    }

    /** A suspension refused: those before it are recorded. */
    ghost predicate Stopped(others: seq<Tid>, n: nat, taken: nat)
      reads this, suspendedTids
    {
      && taken < |others| && taken <= suspendedTids.Length && !grants(n + taken)
      && suspendedTids[..taken] == others[..taken] && requests == n + taken + 1
    }

    method SuspendNext(threads: seq<Tid>, target: Tid, i: nat, had: nat, ghost n: nat) returns (rc: int, taken: nat)
      requires i < |threads| <= suspendedTids.Length && NoRepeats(threads) && threads[i] in live
      requires had <= i && Holding(suspendedTids[..had]) && AllGranted(grants, n, n + had)
      requires Taking(Others(threads[..i], target), n, had)
      modifies `suspends, `requests, suspendedTids
      ensures taken <= i + 1 && taken <= |Others(threads, target)| && Holding(suspendedTids[..taken])
      ensures AllGranted(grants, n, n + taken)
      ensures if rc == 0 then Taking(Others(threads[..i + 1], target), n, taken)
              else rc == -1 && Stopped(Others(threads, target), n, taken)
    {
      hide Counts, Known;
      OthersStep(threads, target, i);
      rc, taken := 0, had;
      if threads[i] != target {
        rc := SuspendInto(threads[i], had);
        if rc == 0 {
          taken := had + 1;
        }
      }
    }

    method SuspendInto(t: Tid, taken: nat) returns (rc: int)
      requires taken < suspendedTids.Length && Holding(suspendedTids[..taken])
      requires t in live && t !in suspendedTids[..taken]
      modifies `suspends, `requests, suspendedTids
      ensures rc == (if grants(old(requests)) then 0 else -1) && requests == old(requests) + 1
      ensures suspendedTids[..taken] == old(suspendedTids[..taken])
      ensures rc == 0 ==> suspendedTids[..taken + 1] == suspendedTids[..taken] + [t] && Holding(suspendedTids[..taken + 1])
      ensures rc == -1 ==> Holding(suspendedTids[..taken])
    {
      ghost var held := suspendedTids[..taken];
      CountsSuspended(live, suspends, seen, stuck, held, t);
      rc := Suspend(t);
      if rc == 0 {
        suspendedTids[taken] := t;
        assert suspendedTids[..taken + 1] == held + [t];
      }
    }

    /** `unlock`: every recorded thread still alive runs again, or stays suspended exactly when its resume
        is refused; -1 tells that some recorded thread is gone or was refused. */
    method Unlock() returns (rc: int)
      requires AtPrompt()
      modifies `suspends, `requests, `stuck, `lockActive, `suspendedCount
      ensures AtPrompt() && Bounded(grants, old(requests), requests, old(stuck), stuck)
      ensures old(idle || !lockActive) ==>
                && rc == (if old(idle) then -1 else 0) && requests == old(requests)
                && Untouched(old(lockActive), old(suspends), old(stuck)) && suspendedCount == old(suspendedCount)
      ensures !old(idle) && old(lockActive) ==>
                && !lockActive && requests == old(requests) + old(suspendedCount)
                && stuck == Left(grants, old(requests), old(Recorded()), live, old(stuck), old(suspendedCount))
                && rc == if AllResumed(grants, old(requests), old(Recorded()), live, old(suspendedCount)) then 0 else -1
      ensures Does(grants, UnlockThreads, old(Now()), Now())
    {
      hide Counts, Known, Left;
      if idle {
        return -1;
      }
      if !lockActive {
        return 0;
      }
      rc := ResumeAll(suspendedTids, suspendedCount);
      lockActive, suspendedCount := false, 0;
    }

    method SelectThread(index: nat) returns (rc: int)
      requires AtPrompt()
      modifies `current, `requests
      ensures AtPrompt() && old(requests) <= requests
      ensures current == if !old(idle) && grants(old(requests)) && index < |Listed(live)|
                         then (if index == 0 then PRIMARY else live[index]) else old(current)
      ensures requests == old(requests) + if old(idle) then 0 else if grants(old(requests)) && index < |Listed(live)| then 2 else 1
      ensures Does(grants, Select(index), old(Now()), Now())
    {
      hide Counts, Known;
      if idle {
        return -1;
      }
      var threads;
      rc, threads := List();
      if rc != 0 || index >= |threads| {
        return -1;
      }
      current := if index == 0 then PRIMARY else threads[index];
      var read := Ask();
      rc := if read then 0 else -1;
    }

    /** The process ends; a lock stays recorded until the next run. */
    method ProcessExit(ghost guard: seq<Tid>)
      requires Valid(guard)
      modifies `live, `suspends, `idle
      ensures Valid(guard) && idle
    {
      live, suspends, idle := [], map[], true;
    }

    method StopDebuggee()
      requires AtPrompt()
      modifies `live, `suspends, `idle, `current, `lockActive, `suspendedCount
      ensures AtPrompt() && idle && !lockActive && current == PRIMARY && live == [] && suspendedCount == 0
    {
      live, suspends, idle := [], map[], true;
      current, lockActive, suspendedCount := PRIMARY, false, 0;
    }

    /** `kill` does nothing when no process is running, whatever is still recorded. */
    method Kill()
      requires AtPrompt()
      modifies `live, `suspends, `idle, `current, `lockActive, `suspendedCount
      ensures AtPrompt() && idle
      ensures if old(idle) then Now() == old(Now())
              else !lockActive && current == PRIMARY && live == [] && suspendedCount == 0
      ensures Does(grants, KillProcess, old(Now()), Now())
    {
      if !idle {
        StopDebuggee();
      }
    }

    /** A step lets the program run, with its guard in place: threads come and go, or the process ends. */
    method RunGuarded(guard: Guard, ghost m: Moment)
      requires guard.count <= guard.tids.Length && Valid(guard.Held()) && !idle
      requires !lockActive ==>
                 && m.live == live && m.suspends == suspends && m.stuck == stuck
                 && guard.Held() == HeldNow(grants, m) && requests == m.first + |m.asked| && Guarded(grants, current, m)
      modifies `live, `suspends, `seen, `idle
      ensures Valid(guard.Held())
    {
      Churn(guard.Held());
      var ended: bool := *;
      if ended {
        ProcessExit(guard.Held());
      }
    }

    /** The guard is opened and catches up. */
    method Begin() returns (guard: Guard, ghost m: Moment)
      requires AtPrompt() && !idle
      modifies `suspends, `requests
      ensures fresh(guard) && fresh(guard.tids) && guard.tids.Length == MAX_THREADS && guard.count <= MAX_THREADS
      ensures Valid(guard.Held()) && old(requests) <= requests
      ensures if lockActive then requests == old(requests)
              else m == Moment(live, suspends, stuck, [], old(requests) + 1, m.asked)
                   && requests == m.first + |m.asked| && guard.Held() == HeldNow(grants, m) && Guarded(grants, current, m)
    {
      guard := new Guard();
      assert guard.Held() == [];
      m := CatchUp(guard);
    }

    lemma HeldOnce(guard: Guard)
      requires guard.count <= guard.tids.Length && Valid(guard.Held())
      ensures NoRepeats(guard.Held()) && PRIMARY !in guard.Held() && (lockActive ==> guard.Held() == [])
    {
    }

    /** The guard is closed: what it held is resumed. */
    method Close(guard: Guard, ghost from: nat) returns (ghost held: seq<Tid>, ghost n: nat)
      requires guard.count <= guard.tids.Length && guard.tids != suspendedTids && Valid(guard.Held()) && from <= requests
      modifies `suspends, `requests, `stuck
      ensures AtPrompt() && Bounded(grants, from, requests, old(stuck), stuck)
      ensures requests == n + |held| && NoRepeats(held) && PRIMARY !in held && (lockActive ==> held == [] && stuck == old(stuck))
      ensures stuck == Left(grants, n, held, live, old(stuck), |held|)
    {
      hide Counts, Known, Refusals;
      held, n := guard.Held(), requests;
      HeldOnce(guard);
      EndGuard(guard);
      BoundedLater(grants, from, n, requests, old(stuck), stuck);
    }

    /** At each of these moments the guard was in place. */
    ghost predicate AllGuarded(from: nat, moments: seq<Moment>)
      reads this
    {
      !lockActive ==> forall m :: m in moments ==> Guarded(grants, current, m) && from < m.first
    }

    lemma NothingHeld(n: nat)
      ensures Left(grants, n, [], live, stuck, 0) == stuck && NoRepeats([]) && Bounded(grants, n, n, stuck, stuck)
    {
    }

    /** One instruction inside a guard. */
    method GuardedOne() returns (ghost held: seq<Tid>, ghost n: nat, ghost moments: seq<Moment>)
      requires AtPrompt() && !idle && current == PRIMARY
      modifies `live, `suspends, `seen, `idle, `requests, `stuck
      ensures AtPrompt() && Bounded(grants, old(requests), requests, old(stuck), stuck)
      ensures requests == n + |held| && NoRepeats(held) && current !in held
      ensures lockActive ==> held == [] && stuck == old(stuck)
      ensures stuck == Left(grants, n, held, live, old(stuck), |held|)
      ensures |moments| == 1 && AllGuarded(old(requests), moments)
    {
      hide Counts, Known, Refusals, Guarded, Left, Bounded, NoRepeats;
      var guard;
      ghost var m;
      guard, m := Begin();
      moments := [m];
      RunGuarded(guard, m);
      held, n := Close(guard, old(requests));
    }

    /** A loop of instructions inside a guard, which catches up before each. */
    method GuardedLoop(iterations: nat) returns (ghost held: seq<Tid>, ghost n: nat, ghost moments: seq<Moment>)
      requires AtPrompt() && !idle && current == PRIMARY
      modifies `live, `suspends, `seen, `idle, `requests, `stuck
      ensures AtPrompt() && Bounded(grants, old(requests), requests, old(stuck), stuck)
      ensures requests == n + |held| && NoRepeats(held) && current !in held
      ensures lockActive ==> held == [] && stuck == old(stuck)
      ensures stuck == Left(grants, n, held, live, old(stuck), |held|)
      ensures |moments| <= iterations && AllGuarded(old(requests), moments) && (!idle ==> |moments| == iterations)
    {
      hide Counts, Known, Refusals, Guarded, Left, Bounded, NoRepeats;
      var guard;
      ghost var m;
      guard, m := Begin();
      moments := [];
      var i := 0;
      while i < iterations && !idle
        invariant i <= iterations && |moments| == i && AllGuarded(old(requests), moments)
        invariant fresh(guard) && fresh(guard.tids) && guard.tids.Length == MAX_THREADS
        invariant guard.count <= MAX_THREADS && Valid(guard.Held())
        invariant stuck == old(stuck) && old(requests) <= requests
      {
        m := OneStep(guard);
        moments := moments + [m];
        i := i + 1;
      }
      held, n := Close(guard, old(requests));
    }

    /** `si`: refused off the primary thread; otherwise the guard is opened, one instruction run, and the guard
        closed. */
    method StepOne() returns (ghost held: seq<Tid>, ghost n: nat, ghost moments: seq<Moment>)
      requires AtPrompt()
      modifies `live, `suspends, `seen, `idle, `requests, `stuck
      ensures AtPrompt() && Bounded(grants, old(requests), requests, old(stuck), stuck)
      ensures requests == n + |held| && NoRepeats(held) && current !in held && (lockActive ==> held == [])
      ensures stuck == Left(grants, n, held, live, old(stuck), |held|)
      ensures |moments| == (if old(current) != PRIMARY || old(idle) then 0 else 1) && AllGuarded(old(requests), moments)
      ensures old(current) != PRIMARY || old(idle) ==> suspends == old(suspends)
      ensures Does(grants, StepInstruction, old(Now()), Now())
    {
      hide Counts, Known, Left, Bounded, NoRepeats, AllGuarded, Guarded;
      held, n, moments := [], requests, [];
      NothingHeld(n);
      NothingGuarded(n);
      if idle || current != PRIMARY {
        return;
      }
      held, n, moments := GuardedOne();
    }

    lemma NothingGuarded(n: nat)
      ensures AllGuarded(n, [])
    {
    }

    /** `step` and `next`: refused off the primary thread; otherwise the guard is opened, catches up before each
        instruction, and is closed however the loop ends. */
    method StepCommand(iterations: nat) returns (ghost held: seq<Tid>, ghost n: nat, ghost moments: seq<Moment>)
      requires AtPrompt()
      modifies `live, `suspends, `seen, `idle, `requests, `stuck
      ensures AtPrompt() && Bounded(grants, old(requests), requests, old(stuck), stuck)
      // what stays suspended is what the guard held at its end, `n` requests in, and could not resume
      ensures requests == n + |held| && NoRepeats(held) && current !in held && (lockActive ==> held == [])
      ensures stuck == Left(grants, n, held, live, old(stuck), |held|)
      // whenever the program ran, the guard was in place
      ensures |moments| <= iterations && AllGuarded(old(requests), moments)
      ensures old(current) == PRIMARY && !old(idle) && !idle ==> |moments| == iterations
      ensures old(current) != PRIMARY || old(idle) ==> suspends == old(suspends)
      ensures Does(grants, Step(iterations), old(Now()), Now())
    {
      hide Counts, Known, Left, Bounded, NoRepeats, AllGuarded, Guarded;
      held, n, moments := [], requests, [];
      NothingHeld(n);
      NothingGuarded(n);
      if idle || current != PRIMARY {
        return;
      }
      held, n, moments := GuardedLoop(iterations);
    }

    method OneStep(guard: Guard) returns (ghost m: Moment)
      requires guard.tids.Length == MAX_THREADS && guard.tids != suspendedTids && guard.count <= MAX_THREADS
      requires Valid(guard.Held()) && !idle
      modifies `live, `suspends, `seen, `idle, `requests, guard, guard.tids
      ensures guard.count <= MAX_THREADS && Valid(guard.Held()) && old(requests) <= requests
      ensures !lockActive ==> Guarded(grants, current, m) && m.earlier == old(guard.Held()) && m.first == old(requests) + 1
    {
      hide Counts, Known, Guarded;
      m := CatchUp(guard);
      RunGuarded(guard, m);
    }

    method ContinueCommand()
      requires AtPrompt()
      modifies `live, `suspends, `seen, `idle
      ensures AtPrompt() && (old(idle) ==> idle && live == old(live))
      ensures Does(grants, ContinueAll, old(Now()), Now())
    {
      if idle {
        return;
      }
      Churn([]);
      var ended: bool := *;
      if ended {
        ProcessExit([]);
      }
    }

    /** A new process, in place of any old one. */
    method RunCommand(first: Tid)
      requires AtPrompt()
      modifies `live, `suspends, `seen, `idle, `current, `lockActive, `suspendedCount
      ensures AtPrompt() && !idle && !lockActive && current == PRIMARY && suspendedCount == 0
      ensures live == if first != PRIMARY && first !in old(seen) then [first] else []
      ensures Does(grants, Run(first), old(Now()), Now())
    {
      hide Counts, Known, LockedOnto;
      StopDebuggee();
      idle := false;
      Spawn(first, []);
    }

    /** Whatever commands are typed, each does what it should, and at every prompt a live thread is suspended
        once if an active lock has recorded it, and more often only for refused resumes: `stuck` has grown by no
        more than the requests refused, so not at all when the kernel has granted everything asked of it. */
    method Execute(commands: seq<Command>) returns (ghost prompts: seq<Snap>)
      requires AtPrompt()
      modifies this, suspendedTids
      ensures AtPrompt()
      ensures |prompts| == |commands| + 1 && prompts[0] == old(Now()) && prompts[|commands|] == Now()
      ensures forall i :: 0 <= i < |commands| ==> Does(grants, commands[i], prompts[i], prompts[i + 1])
      ensures forall t :: t in live ==>
                t in suspends && suspends[t] == stuck[t] + if lockActive && t in Recorded() then 1 else 0
      ensures Bounded(grants, old(requests), requests, old(stuck), stuck)
      ensures AllGranted(grants, old(requests), requests) ==> stuck == old(stuck)
      ensures forall t :: stuck[t] - old(stuck)[t] <= Refusals(grants, requests) - Refusals(grants, old(requests))
    {
      hide Does;
      prompts := [Now()];
      for i := 0 to |commands|
        invariant AtPrompt() && Bounded(grants, old(requests), requests, old(stuck), stuck)
        invariant |prompts| == i + 1 && prompts[0] == old(Now()) && prompts[i] == Now()
        invariant forall j :: 0 <= j < i ==> Does(grants, commands[j], prompts[j], prompts[j + 1])
      {
        ExecuteOne(commands[i]);
        prompts := prompts + [Now()];
      }
      BoundedEach(grants, old(requests), requests, old(stuck), stuck);
    }

    method ExecuteOne(c: Command)
      requires AtPrompt()
      modifies this, suspendedTids
      ensures AtPrompt() && Bounded(grants, old(requests), requests, old(stuck), stuck)
      ensures Does(grants, c, old(Now()), Now())
    {
      hide Counts, Known, Refusals, Does, Bounded;
      match c {
        case LockThread(n) => var _ := Lock(n);
        case UnlockThreads => var _ := Unlock();
        case Select(n) => var _ := SelectThread(n);
        case Step(n) =>
          ghost var held, from, moments;
          held, from, moments := StepCommand(n);
        case StepInstruction =>
          ghost var held, from, moments;
          held, from, moments := StepOne();
        case ContinueAll => ContinueCommand();
        case KillProcess => Kill();
        case Run(first) => RunCommand(first);
      }
      if stuck == old(stuck) && old(requests) <= requests {
        BoundedSame(grants, old(requests), requests, stuck);
      }
    }
  }

  /** Locking onto the first of three threads, the kernel grants one suspension, refuses the next, and then
      refuses to take the first one back: the lock fails and thread 2 stays suspended. */
  lemma LockFails()
    ensures var g := (n: nat) => n < 2;
            && Others([1, 2, 3], 1) == [2, 3] && Granted(g, 1, 2) == 1
            && Left(g, 3, [2], [1, 2, 3], multiset{}, 1) == multiset{2}
  {
    assert Others([1], 1) == [] && Others([1, 2], 1) == [2];
    assert [1, 2, 3][..2] == [1, 2] && [1, 2][..1] == [1];
    var g := (n: nat) => n < 2;
    assert Granted(g, 2, 1) == 0;
    assert Left(g, 3, [2], [1, 2, 3], multiset{}, 0) == multiset{};
  }
}
