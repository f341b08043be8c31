/** Deleting table entries by a list of user-typed numbers (src/debugger.c, cmd_del and
    cmd_unwatch): collect without repeats, sort descending in place, delete one by one. */
module IndexLists {

  function Remove<T>(s: seq<T>, i: nat): seq<T>
    requires i < |s|
  {
    s[..i] + s[i + 1..]
  }

  /** The entries whose original index is not named, in their original order. */
  function Without<T>(s: seq<T>, named: set<nat>): seq<T> {
    if s == [] then []
    else
      var rest := Without(s[..|s| - 1], named);
      if |s| - 1 in named then rest else rest + [s[|s| - 1]]
  }

  function Named(s: seq<nat>): set<nat> {
    set x | x in s
  }

  ghost predicate Distinct(s: seq<nat>) {
    forall i, j :: 0 <= i < j < |s| ==> s[i] != s[j]
  }

  ghost predicate Descending(s: seq<nat>) {
    forall i, j :: 0 <= i < j < |s| ==> s[i] > s[j]
  }

  lemma {:induction false} WithoutNone<T>(s: seq<T>, named: set<nat>)
    requires forall n :: n in named ==> n >= |s|
    ensures Without(s, named) == s
  {
    if s != [] {
      WithoutNone(s[..|s| - 1], named);
      assert s == s[..|s| - 1] + [s[|s| - 1]];
    }
  }

  /** Deleting an index below every index already deleted removes that original entry. */
  lemma {:induction false} WithoutRemove<T>(s: seq<T>, named: set<nat>, i: nat)
    requires i < |s| && forall n :: n in named ==> n > i
    ensures i < |Without(s, named)| && Without(s, named)[i] == s[i]
    ensures Without(s, named + {i}) == Remove(Without(s, named), i)
  {
    var front := s[..|s| - 1];
    if i == |s| - 1 {
      WithoutNone(s, named);
      WithoutNone(front, named + {i});
    } else {
      WithoutRemove(front, named, i);
    }
  }

  /** Deleting in descending order, the next index still finds its original entry. */
  lemma NextDeletion<T>(s: seq<T>, order: seq<nat>, i: nat)
    requires Descending(order) && i < |order| && forall x :: x in order ==> x < |s|
    ensures var now := Without(s, Named(order[..i]));
            order[i] < |s| && order[i] < |now| && now[order[i]] == s[order[i]]
            && Without(s, Named(order[..i + 1])) == Remove(now, order[i])
  {
    assert order[i] in order;
    WithoutRemove(s, Named(order[..i]), order[i]);
    assert order[..i + 1] == order[..i] + [order[i]];
    assert Named(order[..i + 1]) == Named(order[..i]) + {order[i]};
  }

  /** An entry survives exactly when its index is not named. */
  lemma {:induction false} WithoutKeeps<T>(s: seq<T>, named: set<nat>, x: T)
    ensures x in Without(s, named) <==> exists i :: 0 <= i < |s| && i !in named && s[i] == x
  {
    if s != [] {
      var front := s[..|s| - 1];
      WithoutKeeps(front, named, x);
      assert forall i :: 0 <= i < |front| ==> front[i] == s[i];
    }
  }

  /** Distinct indices below `n` number at most `n`: the index buffer cannot overflow. */
  lemma {:induction false} Pigeonhole(s: seq<nat>, n: nat)
    requires Distinct(s) && forall x :: x in s ==> x < n
    ensures |s| <= n
  {
    DistinctCount(s);
    Bounded(Named(s), n);
  }

  lemma {:induction false} Bounded(a: set<nat>, n: nat)
    requires forall x :: x in a ==> x < n
    ensures |a| <= n
    decreases n
  {
    if n > 0 {
      Bounded(a - {n - 1}, n - 1);
    }
  }

  lemma {:induction false} DistinctCount(s: seq<nat>)
    requires Distinct(s)
    ensures |Named(s)| == |s|
  {
    if s != [] {
      var front, last := s[..|s| - 1], s[|s| - 1];
      DistinctCount(front);
      assert last !in front;
      assert Named(s) == Named(front) + {last};
    }
  }

  /** The numbers without repeats, or failure when one names no entry. */
  method Collect(numbers: seq<nat>, count: nat, capacity: nat) returns (ok: bool, indices: array<nat>, n: nat)
    requires count <= capacity
    ensures fresh(indices) && n <= indices.Length == capacity
    ensures ok <==> forall x :: x in numbers ==> x < count
    ensures ok ==> Distinct(indices[..n]) && Named(indices[..n]) == Named(numbers)
  {
    indices := new nat[capacity];
    n := 0;
    var t := 0;
    while t < |numbers|
      invariant t <= |numbers| && n <= capacity
      invariant forall x :: x in numbers[..t] ==> x < count
      invariant Distinct(indices[..n]) && Named(indices[..n]) == Named(numbers[..t])
    {
      var number := numbers[t];
      assert number in numbers && numbers[..t + 1] == numbers[..t] + [number];
      if number >= count {
        return false, indices, n;
      }
      var i := 0;
      while i < n && indices[i] != number
        invariant i <= n
        invariant forall j :: 0 <= j < i ==> indices[j] != number
      {
        i := i + 1;
      }
      if i == n {
        ghost var before := indices[..n];
        assert number !in before;
        assert forall x :: x in before ==> x in Named(numbers[..t]);
        Pigeonhole(before + [number], count);
        indices[n] := number;
        n := n + 1;
        assert indices[..n] == before + [number];
        assert Named(before + [number]) == Named(before) + {number};
      } else {
        assert indices[i] in Named(indices[..n]);
      }
      assert Named(numbers[..t + 1]) == Named(numbers[..t]) + {number};
      t := t + 1;
    }
    assert numbers[..t] == numbers;
    ok := true;
  }

  /** The named indices without repeats, in descending order. */
  method DeletionOrder(numbers: seq<nat>, count: nat, capacity: nat) returns (ok: bool, indices: array<nat>, n: nat)
    requires count <= capacity
    ensures fresh(indices) && n <= indices.Length
    ensures ok <==> forall x :: x in numbers ==> x < count
    ensures ok ==> Descending(indices[..n]) && Named(indices[..n]) == Named(numbers)
    ensures ok ==> forall x :: x in indices[..n] ==> x < count
  {
    ok, indices, n := Collect(numbers, count, capacity);
    if ok {
      SortDescending(indices, n);
      assert forall x :: x in indices[..n] ==> x in Named(numbers);
    }
  }

  ghost predicate Rearranged(s: seq<nat>, s': seq<nat>) {
    |s| == |s'| && Named(s) == Named(s') && (Distinct(s) ==> Distinct(s'))
  }

  lemma SwapRearranges(s: seq<nat>, i: nat, j: nat)
    requires i < j < |s|
    ensures Rearranged(s, s[i := s[j]][j := s[i]])
  {
    var s' := s[i := s[j]][j := s[i]];
    forall x ensures x in s <==> x in s' {
      if x in s {
        var k :| 0 <= k < |s| && s[k] == x;
        assert s'[if k == i then j else if k == j then i else k] == x;
      }
      if x in s' {
        var k :| 0 <= k < |s'| && s'[k] == x;
        assert s[if k == i then j else if k == j then i else k] == x;
      }
    }
  }

  /** The in-place exchange sort. */
  method SortDescending(a: array<nat>, n: nat)
    requires n <= a.Length && Distinct(a[..n])
    modifies a
    ensures Rearranged(old(a[..n]), a[..n]) && Descending(a[..n])
  {
    var i := 0;
    while i < n
      invariant i <= n && Rearranged(old(a[..n]), a[..n])
      invariant forall p, q :: 0 <= p < i && p < q < n ==> a[p] > a[q]
    {
      var j := i + 1;
      while j < n
        invariant i < j <= n && Rearranged(old(a[..n]), a[..n])
        invariant forall p, q :: 0 <= p < i && p < q < n ==> a[p] > a[q]
        invariant forall q :: i < q < j ==> a[i] > a[q]
      {
        if a[j] > a[i] {
          ghost var before := a[..n];
          SwapRearranges(before, i, j);
          a[i], a[j] := a[j], a[i];
          assert a[..n] == before[i := before[j]][j := before[i]];
        } else {
          assert a[..n][i] != a[..n][j];
        }
        j := j + 1;
      }
      i := i + 1;
    }
  }
}
