/** Sequences without repetition, and filtering by a set. */
module Sequences {

  ghost predicate Distinct<T>(q: seq<T>) {
    forall i, j :: 0 <= i < j < |q| ==> q[i] != q[j]
  }

  lemma DistinctEmpty<T>()
    ensures Distinct<T>([])
  {
  }

  lemma DistinctAppend<T>(a: seq<T>, b: seq<T>)
    requires Distinct(a) && Distinct(b)
    requires forall x :: x in a ==> x !in b
    ensures Distinct(a + b)
  {
    forall i, j | 0 <= i < j < |a + b| ensures (a + b)[i] != (a + b)[j] {
      if i < |a| <= j {
        assert (a + b)[i] in a && (a + b)[j] in b;
      }
    }
  }

  lemma DistinctSplit<T>(a: seq<T>, b: seq<T>)
    requires Distinct(a + b)
    ensures Distinct(a) && Distinct(b)
    ensures forall x :: x in a ==> x !in b
  {
    assert forall i :: 0 <= i < |a| ==> (a + b)[i] == a[i];
    assert forall i :: 0 <= i < |b| ==> (a + b)[|a| + i] == b[i];
  }

  // The entries of `q` that belong to `keep`, in order.
  function Filter<T(==)>(q: seq<T>, keep: set<T>): seq<T> {
    if q == [] then []
    else Filter(q[..|q| - 1], keep) + if q[|q| - 1] in keep then [q[|q| - 1]] else []
  }

  lemma {:induction false} FilterCongruent<T>(q: seq<T>, a: set<T>, b: set<T>)
    requires forall x :: x in q ==> (x in a <==> x in b)
    ensures Filter(q, a) == Filter(q, b)
  {
    if q != [] {
      assert q[|q| - 1] in q;
      FilterCongruent(q[..|q| - 1], a, b);
    }
  }

  lemma {:induction false} FilterTwice<T>(q: seq<T>, a: set<T>, b: set<T>)
    requires b <= a
    ensures Filter(Filter(q, a), b) == Filter(q, b)
  {
    if q != [] {
      var front, last := q[..|q| - 1], q[|q| - 1];
      FilterTwice(front, a, b);
      if last in a {
        assert Filter(q, a) == Filter(front, a) + [last];
        assert Filter(q, a)[..|Filter(q, a)| - 1] == Filter(front, a);
      } else {
        assert Filter(q, a) == Filter(front, a);
      }
    }
  }

  lemma {:induction false} FilterConcat<T>(p: seq<T>, q: seq<T>, a: set<T>)
    ensures Filter(p + q, a) == Filter(p, a) + Filter(q, a)
  {
    if q == [] {
      assert p + q == p;
    } else {
      assert (p + q)[..|p + q| - 1] == p + q[..|q| - 1];
      FilterConcat(p, q[..|q| - 1], a);
    }
  }

  lemma {:induction false} FilterAll<T>(q: seq<T>, a: set<T>)
    requires forall x :: x in q ==> x in a
    ensures Filter(q, a) == q
  {
    if q != [] {
      assert q[|q| - 1] in q;
      FilterAll(q[..|q| - 1], a);
    }
  }

  lemma {:induction false} FilterNone<T>(q: seq<T>, a: set<T>)
    requires forall x :: x in q ==> x !in a
    ensures Filter(q, a) == []
  {
    if q != [] {
      assert q[|q| - 1] in q;
      FilterNone(q[..|q| - 1], a);
    }
  }

  lemma {:induction false} FilterMembers<T>(q: seq<T>, a: set<T>)
    ensures forall x :: x in Filter(q, a) <==> x in q && x in a
  {
    if q != [] {
      assert q == q[..|q| - 1] + [q[|q| - 1]];
      FilterMembers(q[..|q| - 1], a);
    }
  }

  lemma {:induction false} FilterDistinct<T>(q: seq<T>, a: set<T>)
    requires Distinct(q)
    ensures Distinct(Filter(q, a))
  {
    if q != [] {
      var front, last := q[..|q| - 1], q[|q| - 1];
      assert q == front + [last];
      DistinctSplit(front, [last]);
      FilterDistinct(front, a);
      FilterMembers(front, a);
      assert Distinct([last]);
      if last in a {
        DistinctAppend(Filter(front, a), [last]);
      }
    }
  }

  // A new last entry, when membership of the earlier ones did not change.
  lemma FilterAppend<T>(q: seq<T>, x: T, a: set<T>, b: set<T>)
    requires forall y :: y in q ==> (y in a <==> y in b)
    ensures Filter(q + [x], b) == Filter(q, a) + if x in b then [x] else []
  {
    assert (q + [x])[..|q|] == q;
    FilterCongruent(q, a, b);
  }

  // Taking `gone` out of the kept entries, when those are `keep1 + gone + keep2`.
  lemma FilterRemove<T>(q: seq<T>, a: set<T>, b: set<T>, keep1: seq<T>, gone: seq<T>, keep2: seq<T>)
    requires Filter(q, a) == keep1 + gone + keep2
    requires b <= a
    requires forall x :: x in gone ==> x !in b
    requires forall x :: x in keep1 || x in keep2 ==> x in b
    ensures Filter(q, b) == keep1 + keep2
  {
    hide Filter;
    FilterTwice(q, a, b);
    FilterConcat(keep1 + gone, keep2, b);
    FilterConcat(keep1, gone, b);
    FilterAll(keep1, b);
    FilterNone(gone, b);
    FilterAll(keep2, b);
  }

  lemma {:induction false} FilterUnion<T>(q: seq<T>, a: set<T>, b: set<T>)
    requires a !! b
    ensures |Filter(q, a + b)| == |Filter(q, a)| + |Filter(q, b)|
  {
    if q != [] {
      FilterUnion(q[..|q| - 1], a, b);
    }
  }

  lemma {:induction false} FilterOne<T>(q: seq<T>, x: T)
    requires Distinct(q) && x in q
    ensures Filter(q, {x}) == [x]
  {
    var front, last := q[..|q| - 1], q[|q| - 1];
    assert q == front + [last];
    DistinctSplit(front, [last]);
    if last == x {
      FilterNone(front, {x});
    } else {
      FilterOne(front, x);
    }
  }

  // A duplicate-free list of members of a set is no longer than the set, and as long
  // when it lists all of them.
  lemma {:induction false} DistinctSize<T>(q: seq<T>, s: set<T>)
    requires Distinct(q) && forall x :: x in q ==> x in s
    ensures |q| <= |s|
    ensures (forall x :: x in s ==> x in q) ==> |q| == |s|
  {
    if q == [] {
      assert (forall x :: x in s ==> x in q) ==> s == {};
    } else {
      var front, last := q[..|q| - 1], q[|q| - 1];
      assert q == front + [last];
      DistinctSplit(front, [last]);
      DistinctSize(front, s - {last});
    }
  }

  // Several sequences one after the other.
  function Concat<T>(lists: seq<seq<T>>): seq<T> {
    if lists == [] then [] else Concat(lists[..|lists| - 1]) + lists[|lists| - 1]
  }

  lemma ConcatSnoc<T>(lists: seq<seq<T>>, last: seq<T>)
    ensures Concat(lists + [last]) == Concat(lists) + last
  {
    assert (lists + [last])[..|lists|] == lists;
  }

  lemma {:induction false} ConcatMembers<T>(lists: seq<seq<T>>, x: T)
    ensures x in Concat(lists) <==> exists k :: 0 <= k < |lists| && x in lists[k]
  {
    if lists != [] {
      var front := lists[..|lists| - 1];
      ConcatMembers(front, x);
      if k :| 0 <= k < |front| && x in front[k] {
        assert x in lists[k];
      }
      if k :| 0 <= k < |lists| && x in lists[k] {
        assert k < |front| ==> x in front[k];
      }
    }
  }

  lemma {:induction false} ConcatEmpty<T>(lists: seq<seq<T>>)
    ensures Concat(lists) == [] <==> forall k :: 0 <= k < |lists| ==> lists[k] == []
  {
    if lists != [] {
      var front := lists[..|lists| - 1];
      ConcatEmpty(front);
      if Concat(lists) == [] {
        forall k | 0 <= k < |lists| ensures lists[k] == [] {
          assert k < |front| ==> lists[k] == front[k];
        }
      } else if Concat(front) != [] {
        var k :| 0 <= k < |front| && front[k] != [];
        assert lists[k] != [];
      }
    }
  }

  // The first list with an entry decides the first entry of the whole.
  lemma {:induction false} ConcatFirst<T>(lists: seq<seq<T>>, k: nat)
    requires k < |lists| && lists[k] != []
    requires forall j :: 0 <= j < k ==> lists[j] == []
    ensures Concat(lists) != [] && Concat(lists)[0] == lists[k][0]
  {
    var front := lists[..|lists| - 1];
    if k < |front| {
      ConcatFirst(front, k);
    } else {
      ConcatEmpty(front);
    }
  }

  // `found`, then the entries of `list` that are new, each at its first occurrence.
  function AppendNew<T(==)>(found: seq<T>, list: seq<T>): seq<T> {
    if list == [] then found
    else
      var front := AppendNew(found, list[..|list| - 1]);
      var last := list[|list| - 1];
      if last in front then front else front + [last]
  }

  lemma {:induction false} AppendNewConcat<T>(found: seq<T>, a: seq<T>, b: seq<T>)
    ensures AppendNew(found, a + b) == AppendNew(AppendNew(found, a), b)
  {
    if b == [] {
      assert a + b == a;
    } else {
      assert (a + b)[..|a + b| - 1] == a + b[..|b| - 1];
      AppendNewConcat(found, a, b[..|b| - 1]);
    }
  }

  lemma {:induction false} AppendNewMembers<T>(found: seq<T>, list: seq<T>)
    ensures forall x :: x in AppendNew(found, list) <==> x in found || x in list
  {
    if list != [] {
      assert list == list[..|list| - 1] + [list[|list| - 1]];
      AppendNewMembers(found, list[..|list| - 1]);
    }
  }

  lemma {:induction false} AppendNothingNew<T>(found: seq<T>, list: seq<T>)
    requires forall x :: x in list ==> x in found
    ensures AppendNew(found, list) == found
  {
    if list != [] {
      assert list[|list| - 1] in list;
      AppendNothingNew(found, list[..|list| - 1]);
    }
  }

  lemma {:induction false} AppendNewDistinct<T>(found: seq<T>, list: seq<T>)
    requires Distinct(found)
    ensures Distinct(AppendNew(found, list))
  {
    if list != [] {
      var front, last := AppendNew(found, list[..|list| - 1]), list[|list| - 1];
      AppendNewDistinct(found, list[..|list| - 1]);
      assert Distinct([last]);
      if last !in front {
        DistinctAppend(front, [last]);
      }
    }
  }

  lemma {:induction false} AppendNewExtends<T>(found: seq<T>, list: seq<T>)
    ensures found <= AppendNew(found, list)
  {
    if list != [] {
      AppendNewExtends(found, list[..|list| - 1]);
    }
  }

  lemma AppendNewOne<T>(found: seq<T>, list: seq<T>, x: T)
    ensures AppendNew(found, list + [x]) ==
      if x in AppendNew(found, list) then AppendNew(found, list) else AppendNew(found, list) + [x]
  {
    assert (list + [x])[..|list|] == list;
  }
}
