/** The flattened syntax index behind the source queries. */
module SyntaxIndex {
  import opened Sequences

  /** What a syntax object is: raw syntax, typed syntax, a helper record of the
      syntax package, or an object from elsewhere. */
  datatype Category = Raw | Typed | Helper | Foreign

  /** Syntax products. `id` is object identity: the same object may occur in
      several places. */
  datatype Item =
    | Object(id: nat, category: Category, fields: seq<Item>)
    | Items(items: seq<Item>)
    | Scalar

  // The objects of the wanted kind, `Raw` or `Typed`.
  predicate Wanted(kind: Category, item: Item) {
    item.Object? && item.category == kind
  }

  // Typed walks do not descend into raw syntax.
  predicate Skipped(kind: Category, item: Item) {
    kind == Typed && item.Object? && item.category == Raw
  }

  function Children(kind: Category, item: Item): (r: seq<Item>)
    ensures forall k :: 0 <= k < |r| ==> r[k] < item
  {
    if Skipped(kind, item) then []
    else
      match item
      case Object(_, category, fields) => if category == Foreign then [] else fields
      case Items(items) => items
      case Scalar => []
  }

  // Every occurrence of a wanted object, in pre-order.
  ghost function Preorder(kind: Category, item: Item): seq<Item>
    decreases item
  {
    (if Wanted(kind, item) then [item] else [])
    + Concat(seq(|Children(kind, item)|, k requires 0 <= k < |Children(kind, item)| =>
        Preorder(kind, Children(kind, item)[k])))
  }

  ghost function PreorderAll(kind: Category, items: seq<Item>): seq<Item> {
    Concat(seq(|items|, k requires 0 <= k < |items| => Preorder(kind, items[k])))
  }

  /** The flattened view: each wanted object once, in order of first occurrence. */
  ghost function Flat(kind: Category, item: Item): seq<Item> {
    AppendNew([], Preorder(kind, item))
  }

  lemma PreorderUnfold(kind: Category, item: Item)
    ensures Preorder(kind, item) ==
      (if Wanted(kind, item) then [item] else []) + PreorderAll(kind, Children(kind, item))
  {
    var children := Children(kind, item);
    assert seq(|children|, k requires 0 <= k < |children| => Preorder(kind, children[k])) ==
      seq(|Children(kind, item)|, k requires 0 <= k < |Children(kind, item)| =>
        Preorder(kind, Children(kind, item)[k]));
  }

  lemma PreorderAllSnoc(kind: Category, items: seq<Item>, last: Item)
    ensures PreorderAll(kind, items + [last]) == PreorderAll(kind, items) + Preorder(kind, last)
  {
    hide Preorder;
    var lists := seq(|items|, k requires 0 <= k < |items| => Preorder(kind, items[k]));
    var more := seq(|items + [last]|, k requires 0 <= k < |items + [last]| => Preorder(kind, (items + [last])[k]));
    assert more == lists + [Preorder(kind, last)];
    ConcatSnoc(lists, Preorder(kind, last));
  }

  /* Re-flattening. */

  // An entry of a walk is followed by its own walk.
  ghost predicate Segment(kind: Category, list: seq<Item>, k: nat) {
    && k < |list|
    && k + |Preorder(kind, list[k])| <= |list|
    && list[k..k + |Preorder(kind, list[k])|] == Preorder(kind, list[k])
    && Preorder(kind, list[k]) != []
  }

  lemma SegmentWithin(kind: Category, before: seq<Item>, list: seq<Item>, after: seq<Item>, k: nat)
    requires Segment(kind, list, k)
    ensures Segment(kind, before + list + after, |before| + k)
  {
    hide Preorder;
    var all := before + list + after;
    var own := Preorder(kind, list[k]);
    assert all[|before| + k] == list[k];
    assert all[|before| + k..|before| + k + |own|] == list[k..k + |own|];
  }

  lemma {:induction false} SegmentsOfWalk(kind: Category, item: Item, k: nat)
    requires k < |Preorder(kind, item)|
    ensures Segment(kind, Preorder(kind, item), k)
    decreases item, 1
  {
    var list := Preorder(kind, item);
    PreorderUnfold(kind, item);
    if Wanted(kind, item) && k == 0 {
      assert list[0] == item;
      assert list[0..|list|] == list;
    } else {
      var head := if Wanted(kind, item) then [item] else [];
      var children := Children(kind, item);
      SegmentsOfChildren(kind, item, children, k - |head|);
      hide Preorder;
      SegmentWithin(kind, head, PreorderAll(kind, children), [], k - |head|);
      assert head + PreorderAll(kind, children) + [] == list;
    }
  }

  lemma {:induction false} SegmentsOfChildren(kind: Category, item: Item, children: seq<Item>, k: nat)
    requires forall j :: 0 <= j < |children| ==> children[j] < item
    requires k < |PreorderAll(kind, children)|
    ensures Segment(kind, PreorderAll(kind, children), k)
    decreases item, 0, |children|
  {
    hide Preorder, Segment;
    if children != [] {
      var front, last := children[..|children| - 1], children[|children| - 1];
      assert children == front + [last];
      PreorderAllSnoc(kind, front, last);
      hide PreorderAll;
      var a, b := PreorderAll(kind, front), Preorder(kind, last);
      if k < |a| {
        SegmentsOfChildren(kind, item, front, k);
        SegmentWithin(kind, [], a, b, k);
        assert [] + a + b == a + b;
      } else {
        SegmentsOfWalk(kind, last, k - |a|);
        SegmentWithin(kind, a, b, [], k - |a|);
        assert a + b + [] == a + b;
      }
    }
  }

  ghost predicate AllSegments(kind: Category, list: seq<Item>) {
    forall k :: 0 <= k < |list| ==> Segment(kind, list, k)
  }

  lemma AppendRest<T>(list: seq<T>, m: nat, e: nat)
    requires m <= e <= |list|
    ensures AppendNew([], list[..e]) == AppendNew(AppendNew([], list[..m]), list[m..e])
  {
    assert list[..e] == list[..m] + list[m..e];
    AppendNewConcat([], list[..m], list[m..e]);
  }

  // What lies before `m` adds nothing to what was collected up to `m`.
  lemma AppendOverlap<T>(list: seq<T>, k: nat, m: nat, e: nat)
    requires k <= m <= |list| && k <= e <= |list|
    ensures AppendNew(AppendNew([], list[..m]), list[k..e]) == AppendNew([], list[..if m <= e then e else m])
  {
    var found := AppendNew([], list[..m]);
    AppendNewMembers([], list[..m]);
    if e <= m {
      assert forall x :: x in list[k..e] ==> x in list[..m] by {
        forall x | x in list[k..e] ensures x in list[..m] {
          var i :| 0 <= i < e - k && list[k..e][i] == x;
          assert list[..m][k + i] == x;
        }
      }
      AppendNothingNew(found, list[k..e]);
    } else {
      AppendOverlap(list, k, m, m);
      assert list[k..e] == list[k..m] + list[m..e];
      AppendNewConcat(found, list[k..m], list[m..e]);
      AppendRest(list, m, e);
    }
  }

  // Walking the entries collected from the first `k` positions collects the first
  // `m` positions, for some `m` at least `k`.
  lemma {:induction false} ReflattenPrefix(kind: Category, list: seq<Item>, k: nat) returns (m: nat)
    requires AllSegments(kind, list) && k <= |list|
    ensures k <= m <= |list|
    ensures AppendNew([], PreorderAll(kind, AppendNew([], list[..k]))) == AppendNew([], list[..m])
  {
    hide AllSegments, AppendNew, PreorderAll, Preorder, Segment;
    if k == 0 {
      m := 0;
      NothingToWalk(kind, list);
    } else {
      var x := list[k - 1];
      var before := AppendNew([], list[..k - 1]);
      var p := ReflattenPrefix(kind, list, k - 1);
      assert list[..k] == list[..k - 1] + [x];
      AppendNewOne([], list[..k - 1], x);
      if x in before {
        m := p;
        if p == k - 1 {
          m := k;
        }
      } else {
        SegmentAt(kind, list, k - 1);
        m := ReflattenNew(kind, list, k - 1, p, before);
      }
    }
  }

  lemma NothingToWalk(kind: Category, list: seq<Item>)
    ensures AppendNew([], PreorderAll(kind, AppendNew([], list[..0]))) == AppendNew([], list[..0])
  {
  }

  lemma SegmentAt(kind: Category, list: seq<Item>, k: nat)
    requires AllSegments(kind, list) && k < |list|
    ensures Segment(kind, list, k)
  {
    hide Segment;
  }

  lemma ReflattenNew(kind: Category, list: seq<Item>, k: nat, p: nat, before: seq<Item>) returns (m: nat)
    requires k < |list| && Segment(kind, list, k) && k <= p <= |list|
    requires AppendNew([], PreorderAll(kind, before)) == AppendNew([], list[..p])
    ensures k < m <= |list|
    ensures AppendNew([], PreorderAll(kind, before + [list[k]])) == AppendNew([], list[..m])
  {
    hide Preorder, PreorderAll, AppendNew;
    var x := list[k];
    var e := k + |Preorder(kind, x)|;
    m := if p <= e then e else p;
    PreorderAllSnoc(kind, before, x);
    AppendNewConcat([], PreorderAll(kind, before), Preorder(kind, x));
    AppendOverlap(list, k, p, e);
  }

  // Flattening a flattened view gives the view again, so it can be reused as it is.
  lemma ReflattenIsIdentity(kind: Category, item: Item)
    ensures Flat(kind, Items(Flat(kind, item))) == Flat(kind, item)
  {
    hide Preorder, AppendNew, PreorderAll, Segment;
    var list := Preorder(kind, item);
    var view := Flat(kind, item);
    forall k | 0 <= k < |list| ensures Segment(kind, list, k) {
      SegmentsOfWalk(kind, item, k);
    }
    var m := ReflattenPrefix(kind, list, |list|);
    assert list[..|list|] == list;
    PreorderUnfold(kind, Items(view));
    assert Children(kind, Items(view)) == view;
    assert [] + PreorderAll(kind, view) == PreorderAll(kind, view);
  }

  // `x` occurs in `item`, not inside raw syntax when typed nodes are wanted and not
  // inside objects from elsewhere.
  ghost predicate Occurs(kind: Category, item: Item, x: Item)
    decreases item
  {
    x == item || exists k :: 0 <= k < |Children(kind, item)| && Occurs(kind, Children(kind, item)[k], x)
  }

  lemma InPreorderAll(kind: Category, items: seq<Item>, x: Item)
    ensures x in PreorderAll(kind, items) <==> exists k :: 0 <= k < |items| && x in Preorder(kind, items[k])
  {
    hide Preorder;
    var lists := seq(|items|, k requires 0 <= k < |items| => Preorder(kind, items[k]));
    ConcatMembers(lists, x);
    if k :| 0 <= k < |items| && x in Preorder(kind, items[k]) {
      assert x in lists[k];
    }
  }

  lemma {:induction false} PreorderMembers(kind: Category, item: Item, x: Item)
    ensures x in Preorder(kind, item) <==> Wanted(kind, x) && Occurs(kind, item, x)
    decreases item
  {
    var children := Children(kind, item);
    PreorderUnfold(kind, item);
    hide Preorder, PreorderAll, Wanted, Children;
    InPreorderAll(kind, children, x);
    forall k | 0 <= k < |children|
      ensures x in Preorder(kind, children[k]) <==> Wanted(kind, x) && Occurs(kind, children[k], x)
    {
      PreorderMembers(kind, children[k], x);
    }
  }

  // The view lists each object of the kind that occurs in the product, once.
  lemma FlatIsExact(kind: Category, item: Item)
    ensures Distinct(Flat(kind, item))
    ensures forall x :: x in Flat(kind, item) <==> Wanted(kind, x) && Occurs(kind, item, x)
  {
    AppendNewDistinct([], Preorder(kind, item));
    AppendNewMembers([], Preorder(kind, item));
    forall x ensures x in Flat(kind, item) <==> Wanted(kind, x) && Occurs(kind, item, x) {
      PreorderMembers(kind, item, x);
    }
  }

  /* Occurrence by chains. */

  // `inner` is a field or an element of `outer`.
  ghost predicate ContainedIn(inner: Item, outer: Item) {
    match outer
    case Object(_, _, fields) => inner in fields
    case Items(items) => inner in items
    case Scalar => false
  }

  // Walks for `kind` go on inside `item`: no walk does inside an object from elsewhere,
  // and no walk for typed nodes does inside raw syntax.
  ghost predicate Open(kind: Category, item: Item) {
    item.Object? ==> item.category != Foreign && !(kind == Typed && item.category == Raw)
  }

  // Each item of a chain is contained in the one before it, which walks go into.
  ghost predicate Chain(kind: Category, q: seq<Item>) {
    forall i :: 0 <= i < |q| - 1 ==> ContainedIn(q[i + 1], q[i]) && Open(kind, q[i])
  }

  lemma ContainedInChildren(kind: Category, inner: Item, outer: Item)
    ensures inner in Children(kind, outer) <==> ContainedIn(inner, outer) && Open(kind, outer)
  {
  }

  lemma {:induction false} ChainOccurs(kind: Category, item: Item, q: seq<Item>)
    requires q != [] && q[0] == item && Chain(kind, q)
    ensures Occurs(kind, item, q[|q| - 1])
    decreases |q|
  {
    if |q| > 1 {
      var rest := q[1..];
      assert ContainedIn(q[0 + 1], q[0]) && Open(kind, q[0]);
      forall i | 0 <= i < |rest| - 1 ensures ContainedIn(rest[i + 1], rest[i]) && Open(kind, rest[i]) {
        assert ContainedIn(q[i + 1 + 1], q[i + 1]) && Open(kind, q[i + 1]);
      }
      ChainOccurs(kind, q[1], rest);
      ContainedInChildren(kind, q[1], item);
      var k :| 0 <= k < |Children(kind, item)| && Children(kind, item)[k] == q[1];
    }
  }

  lemma {:induction false} OccurrenceChain(kind: Category, item: Item, x: Item) returns (q: seq<Item>)
    requires Occurs(kind, item, x)
    ensures q != [] && q[0] == item && q[|q| - 1] == x && Chain(kind, q)
    decreases item
  {
    if x == item {
      q := [item];
    } else {
      var k :| 0 <= k < |Children(kind, item)| && Occurs(kind, Children(kind, item)[k], x);
      var child := Children(kind, item)[k];
      var rest := OccurrenceChain(kind, child, x);
      ContainedInChildren(kind, child, item);
      q := [item] + rest;
      forall i | 0 <= i < |q| - 1 ensures ContainedIn(q[i + 1], q[i]) && Open(kind, q[i]) {
        assert i > 0 ==> ContainedIn(rest[i - 1 + 1], rest[i - 1]) && Open(kind, rest[i - 1]);
      }
    }
  }

  // `x` is an object of category `kind` at the end of a chain from `item`.
  ghost predicate Found(kind: Category, item: Item, x: Item) {
    && x.Object? && x.category == kind
    && exists q :: q != [] && q[0] == item && q[|q| - 1] == x && Chain(kind, q)
  }

  // The view lists exactly the objects of its category that a chain leads to.
  lemma FlatByChains(kind: Category, item: Item, x: Item)
    ensures x in Flat(kind, item) <==> Found(kind, item, x)
  {
    FlatIsExact(kind, item);
    hide Flat, Chain, Occurs;
    if Occurs(kind, item, x) {
      var q := OccurrenceChain(kind, item, x);
    }
    if q :| q != [] && q[0] == item && q[|q| - 1] == x && Chain(kind, q) {
      ChainOccurs(kind, item, q);
    }
  }
}
