/** The depth limit in front of semantic analysis, checked with an explicit stack. */
module NestingDepth {

  /** A program as the check walks it: syntax nodes, other records, collections of
      children, and everything it does not look into. */
  datatype Item = Syntax(fields: seq<Item>) | Record(fields: seq<Item>) | Collection(items: seq<Item>) | Scalar

  const DEPTH_LIMIT: nat := 120

  function Children(item: Item): (r: seq<Item>)
    ensures forall k :: 0 <= k < |r| ==> r[k] < item
  {
    match item
    case Syntax(fields) => fields
    case Record(fields) => fields
    case Collection(items) => items
    case Scalar => []
  }

  // The largest number of syntax nodes on a path from the item down.
  function Nesting(item: Item): nat
    decreases item, 1
  {
    (if item.Syntax? then 1 else 0) + DeepestOf(item, Children(item))
  }

  function DeepestOf(parent: Item, items: seq<Item>): nat
    requires forall k :: 0 <= k < |items| ==> items[k] < parent
    decreases parent, 0, |items|
  {
    if items == [] then 0
    else
      var first, rest := Nesting(items[0]), DeepestOf(parent, items[1..]);
      if first >= rest then first else rest
  }

  lemma {:induction false} DeepestMeans(parent: Item, items: seq<Item>, limit: int)
    requires forall k :: 0 <= k < |items| ==> items[k] < parent
    requires limit >= 0
    ensures DeepestOf(parent, items) > limit <==> exists k :: 0 <= k < |items| && Nesting(items[k]) > limit
    decreases |items|
  {
    if items != [] {
      DeepestMeans(parent, items[1..], limit);
      if k :| 0 <= k < |items[1..]| && Nesting(items[1..][k]) > limit {
        assert items[k + 1] == items[1..][k];
      }
      if k :| 0 <= k < |items| && Nesting(items[k]) > limit {
        assert k > 0 ==> items[1..][k - 1] == items[k];
      }
    }
  }

  // How many items a walk will see.
  function Size(item: Item): nat
    decreases item, 1
  {
    1 + SizeOf(item, Children(item))
  }

  function SizeOf(parent: Item, items: seq<Item>): nat
    requires forall k :: 0 <= k < |items| ==> items[k] < parent
    decreases parent, 0, |items|
  {
    if items == [] then 0 else SizeOf(parent, items[..|items| - 1]) + Size(items[|items| - 1])
  }

  datatype Pending = Pending(item: Item, depth: nat)

  function Work(pending: seq<Pending>): nat {
    if pending == [] then 0 else Work(pending[..|pending| - 1]) + Size(pending[|pending| - 1].item)
  }

  function Below(parent: Item, items: seq<Item>, depth: nat): seq<Pending> {
    seq(|items|, k requires 0 <= k < |items| => Pending(items[k], depth))
  }

  lemma {:induction false} WorkBelow(parent: Item, items: seq<Item>, depth: nat, pending: seq<Pending>)
    requires forall k :: 0 <= k < |items| ==> items[k] < parent
    ensures Work(pending + Below(parent, items, depth)) == Work(pending) + SizeOf(parent, items)
  {
    var below := Below(parent, items, depth);
    if items == [] {
      assert pending + below == pending;
    } else {
      var front := items[..|items| - 1];
      WorkBelow(parent, front, depth, pending);
      assert (pending + below)[..|pending + below| - 1] == pending + Below(parent, front, depth);
    }
  }

  // Some pending item runs past the limit from where it stands.
  ghost predicate Exceeds(pending: seq<Pending>) {
    exists k :: 0 <= k < |pending| && pending[k].depth + Nesting(pending[k].item) > DEPTH_LIMIT
  }

  lemma ExceedsConcat(a: seq<Pending>, b: seq<Pending>)
    ensures Exceeds(a + b) <==> Exceeds(a) || Exceeds(b)
  {
    hide Nesting;
    if k :| 0 <= k < |a| && a[k].depth + Nesting(a[k].item) > DEPTH_LIMIT {
      assert (a + b)[k] == a[k];
    }
    if k :| 0 <= k < |b| && b[k].depth + Nesting(b[k].item) > DEPTH_LIMIT {
      assert (a + b)[|a| + k] == b[k];
    }
    if k :| 0 <= k < |a + b| && (a + b)[k].depth + Nesting((a + b)[k].item) > DEPTH_LIMIT {
      assert k < |a| ==> a[k] == (a + b)[k];
      assert k >= |a| ==> b[k - |a|] == (a + b)[k];
    }
  }

  // An item goes past the limit exactly when one of its children does, one level
  // further down if the item is a syntax node.
  lemma ExceedsBelow(item: Item, depth: nat, inner: nat)
    requires inner == depth + (if item.Syntax? then 1 else 0) && inner <= DEPTH_LIMIT
    ensures Exceeds([Pending(item, depth)]) <==> Exceeds(Below(item, Children(item), inner))
  {
    var children := Children(item);
    var below := Below(item, children, inner);
    DeepestMeans(item, children, DEPTH_LIMIT - inner);
    assert Exceeds([Pending(item, depth)]) <==> depth + Nesting(item) > DEPTH_LIMIT by {
      assert [Pending(item, depth)][0] == Pending(item, depth);
    }
    if k :| 0 <= k < |children| && Nesting(children[k]) > DEPTH_LIMIT - inner {
      assert below[k] == Pending(children[k], inner);
    }
    if k :| 0 <= k < |below| && below[k].depth + Nesting(below[k].item) > DEPTH_LIMIT {
      assert below[k] == Pending(children[k], inner);
    }
  }

  function Start(program: seq<Item>): seq<Pending> {
    seq(|program|, k requires 0 <= k < |program| => Pending(program[k], 0))
  }

  lemma StartExceeds(program: seq<Item>)
    ensures Exceeds(Start(program)) <==> exists k :: 0 <= k < |program| && Nesting(program[k]) > DEPTH_LIMIT
  {
    hide Nesting;
    if k :| 0 <= k < |program| && Nesting(program[k]) > DEPTH_LIMIT {
      assert Start(program)[k] == Pending(program[k], 0);
    }
  }

  lemma TooDeepHere(rest: seq<Pending>, item: Item, depth: nat)
    requires item.Syntax? && depth >= DEPTH_LIMIT
    ensures Exceeds(rest + [Pending(item, depth)])
  {
    var pending := rest + [Pending(item, depth)];
    assert pending[|rest|] == Pending(item, depth);
  }

  // Replacing an item by its children one level down.
  lemma Descend(rest: seq<Pending>, item: Item, depth: nat, inner: nat)
    requires inner == depth + (if item.Syntax? then 1 else 0) && inner <= DEPTH_LIMIT
    ensures Exceeds(rest + [Pending(item, depth)]) <==> Exceeds(rest + Below(item, Children(item), inner))
    ensures Work(rest + Below(item, Children(item), inner)) < Work(rest + [Pending(item, depth)])
  {
    hide Exceeds, Nesting, Below, Children;
    ExceedsConcat(rest, [Pending(item, depth)]);
    ExceedsBelow(item, depth, inner);
    ExceedsConcat(rest, Below(item, Children(item), inner));
    WorkBelow(item, Children(item), inner, rest);
    assert (rest + [Pending(item, depth)])[..|rest|] == rest;
  }

  ghost predicate Shallow(pending: seq<Pending>) {
    forall k :: 0 <= k < |pending| ==> pending[k].depth <= DEPTH_LIMIT
  }

  lemma BelowIsShallow(rest: seq<Pending>, parent: Item, items: seq<Item>, depth: nat)
    requires Shallow(rest) && depth <= DEPTH_LIMIT
    ensures Shallow(rest + Below(parent, items, depth))
  {
  }

  /* Chains of nested items. */

  // `inner` is a field or an element of `outer`.
  ghost predicate NestedIn(inner: Item, outer: Item) {
    match outer
    case Syntax(fields) => inner in fields
    case Record(fields) => inner in fields
    case Collection(items) => inner in items
    case Scalar => false
  }

  // Each item of a chain is nested in the one before it.
  ghost predicate Chain(q: seq<Item>) {
    q != [] && forall i :: 0 <= i < |q| - 1 ==> NestedIn(q[i + 1], q[i])
  }

  ghost function SyntaxNodes(q: seq<Item>): nat {
    if q == [] then 0 else (if q[0].Syntax? then 1 else 0) + SyntaxNodes(q[1..])
  }

  lemma ChainTail(q: seq<Item>)
    requires Chain(q) && |q| > 1
    ensures Chain(q[1..]) && NestedIn(q[1], q[0])
  {
    forall i | 0 <= i < |q[1..]| - 1 ensures NestedIn(q[1..][i + 1], q[1..][i]) {
      assert NestedIn(q[i + 1 + 1], q[i + 1]);
    }
    assert NestedIn(q[0 + 1], q[0]);
  }

  lemma ChainCons(item: Item, q: seq<Item>)
    requires Chain(q) && NestedIn(q[0], item)
    ensures Chain([item] + q) && SyntaxNodes([item] + q) == (if item.Syntax? then 1 else 0) + SyntaxNodes(q)
  {
    var whole := [item] + q;
    assert whole[1..] == q;
    forall i | 0 <= i < |whole| - 1 ensures NestedIn(whole[i + 1], whole[i]) {
      assert i > 0 ==> NestedIn(q[i - 1 + 1], q[i - 1]);
    }
  }

  lemma NestedInChildren(inner: Item, outer: Item)
    ensures NestedIn(inner, outer) <==> inner in Children(outer)
  {
  }

  // No chain from an item has more syntax nodes than it nests, and one has as many.
  lemma {:induction false} ChainsAreNested(item: Item, q: seq<Item>)
    requires Chain(q) && q[0] == item
    ensures SyntaxNodes(q) <= Nesting(item)
    decreases |q|
  {
    if |q| == 1 {
      assert q[1..] == [];
    } else {
      ChainTail(q);
      NestedInChildren(q[1], item);
      ChainsAreNested(q[1], q[1..]);
      var children := Children(item);
      var k :| 0 <= k < |children| && children[k] == q[1];
      hide Nesting, Chain;
      DeepestMeans(item, children, DeepestOf(item, children));
      NestingMeans(item);
    }
  }

  lemma NestingMeans(item: Item)
    ensures Nesting(item) == (if item.Syntax? then 1 else 0) + DeepestOf(item, Children(item))
  {
  }

  lemma {:induction false} DeepestChain(item: Item) returns (q: seq<Item>)
    ensures q != [] && q[0] == item && Chain(q) && SyntaxNodes(q) == Nesting(item)
    decreases item
  {
    var children := Children(item);
    NestingMeans(item);
    if DeepestOf(item, children) == 0 {
      q := [item];
      assert q[1..] == [];
    } else {
      DeepestMeans(item, children, DeepestOf(item, children) - 1);
      DeepestMeans(item, children, DeepestOf(item, children));
      var k :| 0 <= k < |children| && Nesting(children[k]) > DeepestOf(item, children) - 1;
      q := DeepestChain(children[k]);
      NestedInChildren(children[k], item);
      hide Nesting, Chain;
      ChainCons(item, q);
      q := [item] + q;
    }
  }

  lemma TooDeepByChains(program: seq<Item>)
    ensures (exists k :: 0 <= k < |program| && Nesting(program[k]) > DEPTH_LIMIT) <==>
      exists q :: q != [] && q[0] in program && Chain(q) && SyntaxNodes(q) > 120
  {
    hide Nesting, Chain, SyntaxNodes;
    if k :| 0 <= k < |program| && Nesting(program[k]) > DEPTH_LIMIT {
      var q := DeepestChain(program[k]);
      assert q != [] && q[0] in program && Chain(q) && SyntaxNodes(q) > 120;
    }
    if q :| q != [] && q[0] in program && Chain(q) && SyntaxNodes(q) > 120 {
      var k :| 0 <= k < |program| && program[k] == q[0];
      ChainsAreNested(program[k], q);
    }
  }

  // A program is rejected exactly when some chain of nested items has more syntax nodes
  // than the limit; the number of siblings does not matter.
  method TooDeep(program: seq<Item>) returns (rejected: bool)
    ensures rejected <==> exists q :: q != [] && q[0] in program && Chain(q) && SyntaxNodes(q) > 120
  {
    TooDeepByChains(program);
    var pending := Start(program);
    StartExceeds(program);
    ghost var deep := Exceeds(pending);
    hide Nesting, Chain;
    while pending != []
      invariant deep <==> Exceeds(pending)
      invariant Shallow(pending)
      decreases Work(pending)
    {
      hide Exceeds, Work, Below, Children, Start;
      var top, rest := pending[|pending| - 1], pending[..|pending| - 1];
      var item, depth := top.item, top.depth;
      assert pending == rest + [Pending(item, top.depth)];
      if item.Syntax? {
        depth := depth + 1;
        if depth > DEPTH_LIMIT {
          TooDeepHere(rest, item, top.depth);
          return true;
        }
      }
      Descend(rest, item, top.depth, depth);
      BelowIsShallow(rest, item, Children(item), depth);
      pending := rest + Below(item, Children(item), depth);
    }
    return false;
  }
}
