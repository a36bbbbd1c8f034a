/**
 * `items.sort(key=lambda x: x.get("createdAt", ""), reverse=True)`: a stable
 * sort of the listed workouts, most recent `createdAt` first, comparing the
 * timestamps as Python compares `str`.
 */
module Ordering {
  import opened PyStr
  import opened Workouts

  /** No workout is followed by one with a later `createdAt`. */
  predicate SortedDesc(s: seq<Workout>) {
    forall i, j :: 0 <= i < j < |s| ==> !Less(s[i].createdAt, s[j].createdAt)
  }

  /** The workouts of `s` whose `createdAt` is `t`, in their order in `s`. */
  function WithCreatedAt(s: seq<Workout>, t: string): seq<Workout> {
    if s == [] then []
    else WithCreatedAt(s[..|s| - 1], t) + (if s[|s| - 1].createdAt == t then [s[|s| - 1]] else [])
  }

  /**
   * Places `x` after every element of `s` whose `createdAt` is not earlier
   * than its own, scanning from the back of `s`.
   */
  function Insert(s: seq<Workout>, x: Workout): (r: seq<Workout>)
    ensures |r| == |s| + 1
  {
    if s == [] || !Less(s[|s| - 1].createdAt, x.createdAt) then s + [x]
    else Insert(s[..|s| - 1], x) + [s[|s| - 1]]
  }

  /** The stable descending sort, one element at a time from the front. */
  function SortDesc(s: seq<Workout>): (r: seq<Workout>)
    ensures |r| == |s|
  {
    if s == [] then [] else Insert(SortDesc(s[..|s| - 1]), s[|s| - 1])
  }

  /** One insertion step adds exactly the inserted workout. */
  lemma {:induction false} InsertPermutes(s: seq<Workout>, x: Workout)
    ensures multiset(Insert(s, x)) == multiset(s) + multiset{x}
  {
    if s != [] && Less(s[|s| - 1].createdAt, x.createdAt) {
      InsertPermutes(s[..|s| - 1], x);
      assert s == s[..|s| - 1] + [s[|s| - 1]];
    }
  }

  lemma {:induction false} InsertSorted(s: seq<Workout>, x: Workout)
    requires SortedDesc(s)
    ensures SortedDesc(Insert(s, x))
  {
    if s == [] {
    } else if !Less(s[|s| - 1].createdAt, x.createdAt) {
      var r := s + [x];
      forall i | 0 <= i < |s| ensures !Less(r[i].createdAt, x.createdAt) {
        if i < |s| - 1 {
          NotLessTransitive(x.createdAt, s[|s| - 1].createdAt, s[i].createdAt);
        }
      }
    } else {
      var last := s[|s| - 1];
      var init := s[..|s| - 1];
      InsertSorted(init, x);
      InsertPermutes(init, x);
      var r := Insert(init, x);
      LessAsymmetric(last.createdAt, x.createdAt);
      forall i | 0 <= i < |r| ensures !Less(r[i].createdAt, last.createdAt) {
        assert r[i] in multiset(init) + multiset{x} by { assert r[i] in multiset(r); }
      }
      assert forall i, j :: 0 <= i < j < |r| + 1 ==> j == |r| || !Less(r[i].createdAt, r[j].createdAt);
    }
  }

  lemma {:induction false} WithCreatedAtAppend(a: seq<Workout>, b: seq<Workout>, t: string)
    ensures WithCreatedAt(a + b, t) == WithCreatedAt(a, t) + WithCreatedAt(b, t)
    decreases |b|
  {
    if b != [] {
      var ab := a + b;
      assert ab[..|ab| - 1] == a + b[..|b| - 1];
      WithCreatedAtAppend(a, b[..|b| - 1], t);
    } else {
      assert a + b == a;
    }
  }

  /** Two single workouts with different stamps never both survive one filter. */
  lemma SinglesCommute(x: Workout, y: Workout, t: string)
    requires x.createdAt != y.createdAt
    ensures WithCreatedAt([x], t) + WithCreatedAt([y], t) == WithCreatedAt([y], t) + WithCreatedAt([x], t)
  {
  }

  /** Inserting keeps the order among the workouts of each timestamp, `x` coming last. */
  lemma {:induction false} InsertStable(s: seq<Workout>, x: Workout, t: string)
    ensures WithCreatedAt(Insert(s, x), t) == WithCreatedAt(s, t) + WithCreatedAt([x], t)
  {
    if s == [] || !Less(s[|s| - 1].createdAt, x.createdAt) {
      WithCreatedAtAppend(s, [x], t);
    } else {
      var last := s[|s| - 1];
      var init := s[..|s| - 1];
      LessIrreflexive(x.createdAt);
      calc {
        WithCreatedAt(Insert(s, x), t);
        WithCreatedAt(Insert(init, x) + [last], t);
        { WithCreatedAtAppend(Insert(init, x), [last], t); }
        WithCreatedAt(Insert(init, x), t) + WithCreatedAt([last], t);
        { InsertStable(init, x, t); }
        WithCreatedAt(init, t) + (WithCreatedAt([x], t) + WithCreatedAt([last], t));
        { SinglesCommute(x, last, t); }
        (WithCreatedAt(init, t) + WithCreatedAt([last], t)) + WithCreatedAt([x], t);
        { WithCreatedAtAppend(init, [last], t); assert init + [last] == s; }
        WithCreatedAt(s, t) + WithCreatedAt([x], t);
      }
    }
  }

  /**
   * The sort returns a permutation of its input, sorted most recent first, in
   * which workouts with equal `createdAt` keep their input order.
   */
  lemma {:induction false} SortDescCorrect(s: seq<Workout>)
    ensures SortedDesc(SortDesc(s))
    ensures multiset(SortDesc(s)) == multiset(s)
    ensures forall t :: WithCreatedAt(SortDesc(s), t) == WithCreatedAt(s, t)
  {
    if s != [] {
      var init, last := s[..|s| - 1], s[|s| - 1];
      SortDescCorrect(init);
      InsertSorted(SortDesc(init), last);
      InsertPermutes(SortDesc(init), last);
      assert s == init + [last];
      forall t ensures WithCreatedAt(SortDesc(s), t) == WithCreatedAt(s, t) {
        InsertStable(SortDesc(init), last, t);
        WithCreatedAtAppend(init, [last], t);
      }
    }
  }

  /**
   * When every workout of `p` from `j` on is stamped earlier than `x`, and the
   * one before `j` (if any) is not, the insertion puts `x` at `j`.
   */
  lemma {:induction false} InsertSkips(p: seq<Workout>, j: nat, x: Workout)
    requires j <= |p|
    requires forall k :: j <= k < |p| ==> Less(p[k].createdAt, x.createdAt)
    requires j == 0 || !Less(p[j - 1].createdAt, x.createdAt)
    ensures Insert(p, x) == p[..j] + [x] + p[j..]
    decreases |p|
  {
    if j < |p| {
      var init, last := p[..|p| - 1], p[|p| - 1];
      assert Less(last.createdAt, x.createdAt);
      assert Insert(p, x) == Insert(init, x) + [last];
      assert forall k :: j <= k < |init| ==> init[k] == p[k];
      assert j == 0 || init[j - 1] == p[j - 1];
      InsertSkips(init, j, x);
      assert init[..j] == p[..j] && init[j..] + [last] == p[j..];
    } else {
      assert p[..j] == p && p[j..] == [];
    }
  }

  /** The array contents the shifting loop leaves behind are the insertion. */
  lemma ShiftedIsInsert(p: seq<Workout>, x: Workout, j: nat, c: seq<Workout>)
    requires j <= |p| && |c| == |p| + 1
    requires forall k :: 0 <= k < j ==> c[k] == p[k]
    requires c[j] == x
    requires forall k :: j < k <= |p| ==> c[k] == p[k - 1]
    requires forall k :: j <= k < |p| ==> Less(p[k].createdAt, x.createdAt)
    requires j == 0 || !Less(p[j - 1].createdAt, x.createdAt)
    ensures c == Insert(p, x)
  {
    InsertSkips(p, j, x);
    assert c == p[..j] + [x] + p[j..];
  }

  /**
   * One step of the insertion sort: moves `a[i]` back into the sorted prefix
   * `a[..i]`, shifting the later-stamped workouts one place right.
   */
  method InsertAt(a: array<Workout>, i: nat)
    requires i < a.Length
    modifies a
    ensures a[..i + 1] == Insert(old(a[..i]), old(a[i]))
    ensures a[i + 1..] == old(a[i + 1..])
  {
    var x := a[i];
    ghost var p := a[..i];
    var j := i;
    while j > 0 && Less(a[j - 1].createdAt, x.createdAt)
      invariant 0 <= j <= i
      invariant forall k :: 0 <= k < j ==> a[k] == p[k]
      invariant forall k :: j < k <= i ==> a[k] == p[k - 1]
      invariant forall k :: i < k < a.Length ==> a[k] == old(a[k])
      invariant forall k :: j <= k < i ==> Less(p[k].createdAt, x.createdAt)
    {
      a[j] := a[j - 1];
      j := j - 1;
    }
    a[j] := x;
    ShiftedIsInsert(p, x, j, a[..i + 1]);
  }

  /** Sorts `a` in place, stably, most recent `createdAt` first. */
  method SortByCreatedAtDesc(a: array<Workout>)
    modifies a
    ensures a[..] == SortDesc(old(a[..]))
    ensures SortedDesc(a[..]) && multiset(a[..]) == multiset(old(a[..]))
    ensures forall t :: WithCreatedAt(a[..], t) == WithCreatedAt(old(a[..]), t)
  {
    ghost var s := a[..];
    var i := 0;
    while i < a.Length
      invariant 0 <= i <= a.Length
      invariant a[..i] == SortDesc(s[..i])
      invariant a[i..] == s[i..]
    {
      assert a[i] == s[i] && a[i + 1..] == s[i + 1..] by { assert a[i..][0] == a[i] && a[i..][1..] == a[i + 1..]; }
      InsertAt(a, i);
      assert s[..i + 1][..i] == s[..i];
      i := i + 1;
    }
    assert s[..a.Length] == s;
    SortDescCorrect(s);
  }
}
