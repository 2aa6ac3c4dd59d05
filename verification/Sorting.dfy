/**
 The stable sort of Rust's `sort_by`, as a function: a permutation, in order,
 with the first of equal elements staying first.
 */
module Sorting {
  import opened Numbers

  /** `before(a, b)` is "the comparator does not put a after b". */
  ghost predicate TotalPreorder<T(!new)>(before: (T, T) -> bool) {
    && (forall a, b :: before(a, b) || before(b, a))
    && (forall a, b, c :: before(a, b) && before(b, c) ==> before(a, c))
  }

  ghost predicate InOrder<T>(s: seq<T>, before: (T, T) -> bool) {
    forall i, j :: 0 <= i < j < |s| ==> before(s[i], s[j])
  }

  function Insert<T>(x: T, s: seq<T>, before: (T, T) -> bool): seq<T> {
    if s == [] then [x]
    else if before(x, s[0]) then [x] + s
    else [s[0]] + Insert(x, s[1..], before)
  }

  function Sort<T>(s: seq<T>, before: (T, T) -> bool): (r: seq<T>) {
    if s == [] then [] else Insert(s[0], Sort(s[1..], before), before)
  }

  lemma {:induction false} InsertPermutes<T>(x: T, s: seq<T>, before: (T, T) -> bool)
    ensures multiset(Insert(x, s, before)) == multiset{x} + multiset(s)
  {
    if s != [] && !before(x, s[0]) {
      InsertPermutes(x, s[1..], before);
      assert s == [s[0]] + s[1..];
    }
  }

  lemma {:induction false} SortPermutes<T>(s: seq<T>, before: (T, T) -> bool)
    ensures multiset(Sort(s, before)) == multiset(s)
    ensures |Sort(s, before)| == |s|
  {
    if s != [] {
      SortPermutes(s[1..], before);
      InsertPermutes(s[0], Sort(s[1..], before), before);
      assert s == [s[0]] + s[1..];
    }
    assert |multiset(Sort(s, before))| == |Sort(s, before)|;
  }

  /** Membership both ways, the form in which a permutation is mostly used. */
  lemma SortKeepsMembers<T>(s: seq<T>, before: (T, T) -> bool)
    ensures forall x :: x in Sort(s, before) <==> x in s
  {
    SortPermutes(s, before);
    forall x
      ensures x in Sort(s, before) <==> x in s
    {
      assert x in Sort(s, before) <==> x in multiset(Sort(s, before));
    }
  }

  lemma {:induction false} InsertInOrder<T(!new)>(x: T, s: seq<T>, before: (T, T) -> bool)
    requires TotalPreorder(before) && InOrder(s, before)
    ensures InOrder(Insert(x, s, before), before)
  {
    if s != [] && !before(x, s[0]) {
      InsertInOrder(x, s[1..], before);
      InsertPermutes(x, s[1..], before);
      var r := Insert(x, s[1..], before);
      forall j | 0 <= j < |r|
        ensures before(s[0], r[j])
      {
        assert r[j] in multiset(r);
        assert r[j] == x || r[j] in s[1..];
      }
    }
  }

  lemma {:induction false} SortInOrder<T(!new)>(s: seq<T>, before: (T, T) -> bool)
    requires TotalPreorder(before)
    ensures InOrder(Sort(s, before), before)
  {
    if s != [] {
      SortInOrder(s[1..], before);
      InsertInOrder(s[0], Sort(s[1..], before), before);
    }
  }

  /** `k` is the first position holding a least element. */
  ghost predicate FirstLeast<T>(s: seq<T>, before: (T, T) -> bool, k: nat) {
    && k < |s|
    && (forall j :: 0 <= j < |s| ==> before(s[k], s[j]))
    && (forall j :: 0 <= j < k ==> !before(s[j], s[k]))
  }

  /** Stability, at the head: the sort puts the earliest of the least elements first. */
  lemma {:induction false} SortHead<T(!new)>(s: seq<T>, before: (T, T) -> bool) returns (k: nat)
    requires TotalPreorder(before) && s != []
    ensures FirstLeast(s, before, k)
    ensures Sort(s, before) != [] && Sort(s, before)[0] == s[k]
  {
    if |s| == 1 {
      k := 0;
      assert Sort(s[1..], before) == [];
    } else {
      var t := s[1..];
      var i := SortHead(t, before);
      forall j | 0 <= j < |s|
        ensures j == 0 || s[j] == t[j - 1]
      {
      }
      if before(s[0], t[i]) {
        k := 0;
        forall j | 0 <= j < |s|
          ensures before(s[0], s[j])
        {
          if j > 0 { assert before(t[i], t[j - 1]); }
        }
      } else {
        k := i + 1;
        forall j | 0 <= j < k
          ensures !before(s[j], s[k])
        {
          if j > 0 { assert !before(t[j - 1], t[i]); }
        }
        forall j | 0 <= j < |s|
          ensures before(s[k], s[j])
        {
          if j > 0 { assert before(t[i], t[j - 1]); }
        }
      }
    }
  }

  lemma {:induction false} InsertCount<T>(x: T, s: seq<T>, before: (T, T) -> bool, p: T -> bool)
    ensures CountIf(Insert(x, s, before), p) == CountIf([x] + s, p)
  {
    if s == [] {
      assert [x] + s == [x];
    } else if !before(x, s[0]) {
      InsertCount(x, s[1..], before, p);
      CountAppend([s[0]], Insert(x, s[1..], before), p);
      CountAppend([x], s[1..], p);
      CountAppend([x], s, p);
      CountAppend([s[0]], s[1..], p);
      assert s == [s[0]] + s[1..];
    }
  }

  lemma {:induction false} SortCount<T>(s: seq<T>, before: (T, T) -> bool, p: T -> bool)
    ensures CountIf(Sort(s, before), p) == CountIf(s, p)
  {
    if s != [] {
      var t := Sort(s[1..], before);
      SortCount(s[1..], before, p);
      InsertCount(s[0], t, before, p);
      CountAppend([s[0]], t, p);
      CountAppend([s[0]], s[1..], p);
      assert s == [s[0]] + s[1..];
    }
  }
}
