/** The order in which the walk hands out replays: what each node hands out is what its
    parents hand out, last parent first, under its own refinement. */
module TraceOrder {
  import opened Sequences
  import opened Traces

  // The same replays with more refinements to apply at the end.
  function Refined(replays: seq<Replay>, later: seq<Refinement>): seq<Replay> {
    seq(|replays|, k requires 0 <= k < |replays| => Replay(replays[k].id, replays[k].refinements + later))
  }

  /** What is replayed for a node, once for every path: its own checkpoint first, then
      what its parents replay, all under the refinement of the node. */
  ghost function Replays(nodes: seq<Trace>, id: nat): seq<Replay>
    requires Acyclic(nodes) && id < |nodes|
    decreases id, 1, 0
  {
    var node := nodes[id];
    var found := (if node.checkpoint.Some? then [Replay(id, [])] else []) + ReplaysBehind(nodes, node.parents, id);
    match node.refinement
    case None => found
    case Some(r) => Refined(found, [r])
  }

  // Last parent first.
  ghost function ReplaysBehind(nodes: seq<Trace>, parents: seq<nat>, bound: nat): seq<Replay>
    requires Acyclic(nodes) && bound <= |nodes| && forall k :: 0 <= k < |parents| ==> parents[k] < bound
    decreases bound, 0, |parents|
  {
    if parents == [] then []
    else
      Replays(nodes, parents[|parents| - 1]) + ReplaysBehind(nodes, parents[..|parents| - 1], bound)
  }

  /** The walk as a function: the visits made, in order, and whether it came to its end.
      The pending visits are a stack, so the last parent of a node is visited first. */
  ghost function Walk(nodes: seq<Trace>, made: seq<Visit>, pending: seq<Visit>, left: nat): (seq<Visit>, bool)
    decreases left, |pending|
  {
    if pending == [] then (made, true)
    else
      var rest, v := pending[..|pending| - 1], pending[|pending| - 1];
      if v in made || v.id >= |nodes| then Walk(nodes, made, rest, left)
      else if left == 0 then (made, false)
      else Walk(nodes, made + [v], rest + Back(nodes, v), left - 1)
  }

  lemma WalkSkips(nodes: seq<Trace>, made: seq<Visit>, pending: seq<Visit>, left: nat)
    requires pending != [] && (pending[|pending| - 1] in made || pending[|pending| - 1].id >= |nodes|)
    ensures Walk(nodes, made, pending[..|pending| - 1], left) == Walk(nodes, made, pending, left)
  {
  }

  lemma WalkVisits(nodes: seq<Trace>, made: seq<Visit>, pending: seq<Visit>, left: nat, v: Visit)
    requires pending != [] && v == pending[|pending| - 1] && v !in made && v.id < |nodes|
    ensures Walk(nodes, made, pending, left) ==
      if left == 0 then (made, false)
      else Walk(nodes, made + [v], pending[..|pending| - 1] + Back(nodes, v), left - 1)
  {
  }

  lemma WalkStops(nodes: seq<Trace>, made: seq<Visit>, left: nat)
    ensures Walk(nodes, made, [], left) == (made, true)
  {
  }

  /* The walk as an unrolling of the graph. */

  // Every visit behind the pending ones, as often as there are paths to it.
  ghost function Unrolled(nodes: seq<Trace>, pending: seq<Visit>, bound: nat): seq<Visit>
    requires Acyclic(nodes) && bound <= |nodes| && forall k :: 0 <= k < |pending| ==> pending[k].id < bound
    decreases bound, |pending|
  {
    if pending == [] then []
    else
      var rest, v := pending[..|pending| - 1], pending[|pending| - 1];
      BackIsOlder(nodes, v);
      [v] + Unrolled(nodes, Back(nodes, v), v.id) + Unrolled(nodes, rest, bound)
  }

  // What lies one edge behind a visit below `bound` has been made as well.
  ghost predicate ClosedBelow(nodes: seq<Trace>, made: seq<Visit>, bound: nat)
    requires bound <= |nodes|
  {
    forall v, w :: v in made && v.id < bound && w in Back(nodes, v) ==> w in made
  }

  lemma {:induction false} UnrolledWasMade(nodes: seq<Trace>, pending: seq<Visit>, bound: nat, made: seq<Visit>)
    requires Acyclic(nodes) && bound <= |nodes| && forall k :: 0 <= k < |pending| ==> pending[k].id < bound
    requires ClosedBelow(nodes, made, bound) && forall v :: v in pending ==> v in made
    ensures forall v :: v in Unrolled(nodes, pending, bound) ==> v in made
    decreases bound, |pending|
  {
    hide Acyclic, Back;
    if pending != [] {
      var rest, v := pending[..|pending| - 1], pending[|pending| - 1];
      BackIsOlder(nodes, v);
      assert v in pending;
      UnrolledWasMade(nodes, Back(nodes, v), v.id, made);
      UnrolledWasMade(nodes, rest, bound, made);
    }
  }

  lemma {:induction false} UnrolledHoldsPending(nodes: seq<Trace>, pending: seq<Visit>, bound: nat)
    requires Acyclic(nodes) && bound <= |nodes| && forall k :: 0 <= k < |pending| ==> pending[k].id < bound
    ensures forall v :: v in pending ==> v in Unrolled(nodes, pending, bound)
    ensures forall v :: v in Unrolled(nodes, pending, bound) ==> v.id < bound
    decreases bound, |pending|
  {
    hide Acyclic, Back;
    if pending != [] {
      var rest, v := pending[..|pending| - 1], pending[|pending| - 1];
      assert pending == rest + [v];
      BackIsOlder(nodes, v);
      UnrolledHoldsPending(nodes, Back(nodes, v), v.id);
      UnrolledHoldsPending(nodes, rest, bound);
    }
  }

  // A walk over two stacks on top of each other is one walk after the other.
  lemma {:induction false} WalkOver(nodes: seq<Trace>, made: seq<Visit>, a: seq<Visit>, b: seq<Visit>, left: nat)
    ensures
      var (m, ended) := Walk(nodes, made, b, left);
      && made <= m && |m| - |made| <= left
      && Walk(nodes, made, a + b, left) == if ended then Walk(nodes, m, a, left - (|m| - |made|)) else (m, false)
    decreases left, |b|
  {
    hide Walk, Back;
    if b == [] {
      assert a + b == a;
      WalkStops(nodes, made, left);
    } else {
      var rest, v := b[..|b| - 1], b[|b| - 1];
      assert (a + b)[..|a + b| - 1] == a + rest && (a + b)[|a + b| - 1] == v;
      if v in made || v.id >= |nodes| {
        WalkSkips(nodes, made, b, left);
        WalkSkips(nodes, made, a + b, left);
        WalkOver(nodes, made, a, rest, left);
      } else {
        WalkVisits(nodes, made, b, left, v);
        WalkVisits(nodes, made, a + b, left, v);
      }
      if v !in made && v.id < |nodes| && left > 0 {
        assert a + rest + Back(nodes, v) == a + (rest + Back(nodes, v));
        WalkOver(nodes, made + [v], a, rest + Back(nodes, v), left - 1);
      }
    }
  }

  // What is left of a list of visits when only `left` more than the first `start` may be made.
  ghost function UpTo(all: seq<Visit>, start: nat, left: nat): (seq<Visit>, bool)
    requires start <= |all|
  {
    if |all| - start <= left then (all, true) else (all[..start + left], false)
  }

  // Making a visit, then what lies behind it, then the rest.
  lemma WalkInTurn(
      nodes: seq<Trace>, made: seq<Visit>, rest: seq<Visit>, v: Visit, inner: seq<Visit>, all: seq<Visit>, left: nat)
    requires v !in made && v.id < |nodes| && made + [v] <= inner <= all
    requires left > 0 ==> Walk(nodes, made + [v], Back(nodes, v), left - 1) == UpTo(inner, |made| + 1, left - 1)
    requires |inner| - |made| <= left ==>
      Walk(nodes, inner, rest, left - (|inner| - |made|)) == UpTo(all, |inner|, left - (|inner| - |made|))
    ensures Walk(nodes, made, rest + [v], left) == UpTo(all, |made|, left)
  {
    hide Back, Walk;
    WalkVisits(nodes, made, rest + [v], left, v);
    assert (rest + [v])[..|rest|] == rest;
    if left > 0 {
      WalkOver(nodes, made + [v], rest, Back(nodes, v), left - 1);
      if |inner| - |made| > left {
        assert inner[..|made| + left] == all[..|made| + left];
      }
    } else {
      assert all[..|made|] == made;
    }
  }

  lemma UnrolledSplits(nodes: seq<Trace>, made: seq<Visit>, rest: seq<Visit>, v: Visit, bound: nat)
    requires Acyclic(nodes) && v.id < bound <= |nodes| && forall k :: 0 <= k < |rest| ==> rest[k].id < bound
    ensures forall k :: 0 <= k < |Back(nodes, v)| ==> Back(nodes, v)[k].id < v.id
    ensures AppendNew(made, Unrolled(nodes, rest + [v], bound)) ==
      AppendNew(AppendNew(if v in made then made else made + [v], Unrolled(nodes, Back(nodes, v), v.id)),
                Unrolled(nodes, rest, bound))
  {
    BackIsOlder(nodes, v);
    hide Acyclic, Back, AppendNew;
    assert (rest + [v])[..|rest|] == rest;
    var behind := Unrolled(nodes, Back(nodes, v), v.id);
    AppendNewConcat(made, [v] + behind, Unrolled(nodes, rest, bound));
    AppendNewConcat(made, [v], behind);
    AppendOne(made, v);
  }

  // The walk makes the visits behind the pending ones in the order in which unrolling
  // the graph meets them first, as far as the budget goes.
  lemma {:induction false} WalkUnrolls(nodes: seq<Trace>, made: seq<Visit>, pending: seq<Visit>, bound: nat, left: nat)
    requires Acyclic(nodes) && bound <= |nodes| && forall k :: 0 <= k < |pending| ==> pending[k].id < bound
    requires ClosedBelow(nodes, made, bound)
    ensures Unrolls(nodes, made, pending, bound, left)
    decreases bound, |pending|, 1
  {
    if pending == [] {
      assert AppendNew(made, []) == made;
    } else {
      var rest, v := pending[..|pending| - 1], pending[|pending| - 1];
      assert pending == rest + [v];
      if v in made {
        WalkUnrolls(nodes, made, rest, bound, left);
        hide Acyclic, Back, ClosedBelow, Walk, AppendNew, Unrolled, UpTo;
        UnrolledSplits(nodes, made, rest, v, bound);
        MadeCovers(nodes, made, v, bound);
        AppendNothingNew(made, Unrolled(nodes, Back(nodes, v), v.id));
        WalkSkips(nodes, made, pending, left);
      } else {
        NewVisitUnrolls(nodes, made, rest, v, bound, left);
      }
    }
  }

  ghost predicate Unrolls(nodes: seq<Trace>, made: seq<Visit>, pending: seq<Visit>, bound: nat, left: nat)
    requires Acyclic(nodes) && bound <= |nodes| && forall k :: 0 <= k < |pending| ==> pending[k].id < bound
  {
    var all := AppendNew(made, Unrolled(nodes, pending, bound));
    && made <= all && ClosedBelow(nodes, all, bound)
    && Walk(nodes, made, pending, left) == UpTo(all, |made|, left)
  }

  lemma {:induction false} NewVisitUnrolls(
      nodes: seq<Trace>, made: seq<Visit>, rest: seq<Visit>, v: Visit, bound: nat, left: nat)
    requires Acyclic(nodes) && v.id < bound <= |nodes| && forall k :: 0 <= k < |rest| ==> rest[k].id < bound
    requires ClosedBelow(nodes, made, bound) && v !in made
    ensures Unrolls(nodes, made, rest + [v], bound, left)
    decreases bound, |rest| + 1, 0
  {
    hide Acyclic, Back, ClosedBelow, Walk, AppendNew, Unrolled, UpTo;
    UnrolledSplits(nodes, made, rest, v, bound);
    var inner := AppendNew(made + [v], Unrolled(nodes, Back(nodes, v), v.id));
    OpenedIsClosedBelow(nodes, made, v, bound);
    var below: nat := if left > 0 then left - 1 else 0;
    WalkUnrolls(nodes, made + [v], Back(nodes, v), v.id, below);
    VisitedIsClosed(nodes, made, v, bound);
    var spare: nat := if |inner| - |made| <= left then left - (|inner| - |made|) else 0;
    WalkUnrolls(nodes, inner, rest, bound, spare);
    WalkInTurn(nodes, made, rest, v, inner, AppendNew(inner, Unrolled(nodes, rest, bound)), left);
  }

  lemma AppendOne(made: seq<Visit>, v: Visit)
    ensures AppendNew(made, [v]) == if v in made then made else made + [v]
  {
    assert [v][..0] == [];
  }

  lemma MadeCovers(nodes: seq<Trace>, made: seq<Visit>, v: Visit, bound: nat)
    requires Acyclic(nodes) && bound <= |nodes| && ClosedBelow(nodes, made, bound) && v in made && v.id < bound
    ensures forall k :: 0 <= k < |Back(nodes, v)| ==> Back(nodes, v)[k].id < v.id
    ensures forall w :: w in Unrolled(nodes, Back(nodes, v), v.id) ==> w in made
  {
    BackIsOlder(nodes, v);
    hide Acyclic, Back;
    UnrolledWasMade(nodes, Back(nodes, v), v.id, made);
  }

  lemma OpenedIsClosedBelow(nodes: seq<Trace>, made: seq<Visit>, v: Visit, bound: nat)
    requires v.id < bound <= |nodes| && ClosedBelow(nodes, made, bound)
    ensures ClosedBelow(nodes, made + [v], v.id)
  {
    hide Back;
  }

  // Once everything behind a visit has been made, the visit is as good as the others.
  lemma VisitedIsClosed(nodes: seq<Trace>, made: seq<Visit>, v: Visit, bound: nat)
    requires Acyclic(nodes) && v.id < bound <= |nodes| && ClosedBelow(nodes, made, bound)
    requires forall k :: 0 <= k < |Back(nodes, v)| ==> Back(nodes, v)[k].id < v.id
    requires
      ClosedBelow(nodes, AppendNew(made + [v], Unrolled(nodes, Back(nodes, v), v.id)), v.id)
    ensures
      ClosedBelow(nodes, AppendNew(made + [v], Unrolled(nodes, Back(nodes, v), v.id)), bound)
  {
    hide Acyclic, Back, Unrolled, AppendNew;
    AppendNewMembers(made + [v], Unrolled(nodes, Back(nodes, v), v.id));
    UnrolledHoldsPending(nodes, Back(nodes, v), v.id);
  }

  /* From visits to replays. */

  lemma {:induction false} ReplaysOfConcat(nodes: seq<Trace>, a: seq<Visit>, b: seq<Visit>)
    requires forall i :: 0 <= i < |a| ==> a[i].id < |nodes|
    requires forall i :: 0 <= i < |b| ==> b[i].id < |nodes|
    ensures ReplaysOf(nodes, a + b) == ReplaysOf(nodes, a) + ReplaysOf(nodes, b)
  {
    if b == [] {
      assert a + b == a;
    } else {
      assert (a + b)[..|a + b| - 1] == a + b[..|b| - 1];
      ReplaysOfConcat(nodes, a, b[..|b| - 1]);
    }
  }

  // A visit is new exactly when its replay is.
  lemma NewVisitNewReplay(nodes: seq<Trace>, kept: seq<Visit>, last: Visit)
    requires last.id < |nodes| && forall i :: 0 <= i < |kept| ==> kept[i].id < |nodes|
    requires nodes[last.id].checkpoint.Some?
    ensures last in kept <==> Replay(last.id, Own(nodes, last.id) + last.later) in ReplaysOf(nodes, kept)
  {
    var r := Replay(last.id, Own(nodes, last.id) + last.later);
    ReplaysMembers(nodes, kept, r);
    if v :| v in kept && ReplayOf(nodes, v, r) {
      SameReplay(nodes, v, last);
    }
    assert ReplayOf(nodes, last, r);
  }

  lemma OneMoreNew(nodes: seq<Trace>, front: seq<Visit>, last: Visit, kept: seq<Visit>)
    requires last.id < |nodes| && forall i :: 0 <= i < |front| ==> front[i].id < |nodes|
    requires forall i :: 0 <= i < |kept| ==> kept[i].id < |nodes|
    requires ReplaysOf(nodes, kept) == AppendNew([], ReplaysOf(nodes, front))
    ensures ReplaysOf(nodes, if last in kept then kept else kept + [last]) ==
      AppendNew([], ReplaysOf(nodes, front + [last]))
  {
    hide ReplaysOf, AppendNew, Own;
    OneReplay(nodes, front, last);
    OneReplay(nodes, kept, last);
    if nodes[last.id].checkpoint.Some? {
      var r := Replay(last.id, Own(nodes, last.id) + last.later);
      NewVisitNewReplay(nodes, kept, last);
      AppendNewConcat([], ReplaysOf(nodes, front), [r]);
      AppendOneReplay(ReplaysOf(nodes, kept), r);
    } else {
      assert ReplaysOf(nodes, front) + [] == ReplaysOf(nodes, front);
      assert ReplaysOf(nodes, kept) + [] == ReplaysOf(nodes, kept);
    }
  }

  lemma {:induction false} ReplaysOfNew(nodes: seq<Trace>, visits: seq<Visit>)
    requires forall i :: 0 <= i < |visits| ==> visits[i].id < |nodes|
    ensures forall v :: v in AppendNew([], visits) ==> v.id < |nodes|
    ensures ReplaysOf(nodes, AppendNew([], visits)) == AppendNew([], ReplaysOf(nodes, visits))
  {
    AppendNewMembers([], visits);
    if visits == [] {
      assert ReplaysOf(nodes, []) == [];
    } else {
      var front, last := visits[..|visits| - 1], visits[|visits| - 1];
      assert visits == front + [last];
      ReplaysOfNew(nodes, front);
      var kept := AppendNew([], front);
      assert AppendNew([], visits) == if last in kept then kept else kept + [last];
      hide AppendNew, ReplaysOf;
      OneMoreNew(nodes, front, last, kept);
    }
  }

  lemma AppendOneReplay(found: seq<Replay>, r: Replay)
    ensures AppendNew(found, [r]) == if r in found then found else found + [r]
  {
    assert [r][..0] == [];
  }

  lemma {:induction false} ReplaysOfPrefix(nodes: seq<Trace>, visits: seq<Visit>, k: nat)
    requires k <= |visits| && forall i :: 0 <= i < |visits| ==> visits[i].id < |nodes|
    ensures ReplaysOf(nodes, visits[..k]) <= ReplaysOf(nodes, visits)
  {
    assert visits == visits[..k] + visits[k..];
    ReplaysOfConcat(nodes, visits[..k], visits[k..]);
  }

  lemma RefinedConcat(a: seq<Replay>, b: seq<Replay>, later: seq<Refinement>)
    ensures Refined(a + b, later) == Refined(a, later) + Refined(b, later)
  {
  }

  lemma RefinedTwice(a: seq<Replay>, r: seq<Refinement>, later: seq<Refinement>)
    ensures Refined(Refined(a, r), later) == Refined(a, r + later)
    ensures Refined(a, []) == a
  {
    forall k | 0 <= k < |a| ensures a[k].refinements + r + later == a[k].refinements + (r + later) {
    }
    forall k | 0 <= k < |a| ensures a[k].refinements + [] == a[k].refinements {
    }
  }

  // A visit to each of `parents` with the same refinements made later.
  function Visits(parents: seq<nat>, later: seq<Refinement>): seq<Visit> {
    seq(|parents|, k requires 0 <= k < |parents| => Visit(parents[k], later))
  }

  // What unrolling a visit replays is what its node replays, under what came later.
  lemma {:induction false} UnrolledReplays(nodes: seq<Trace>, parents: seq<nat>, later: seq<Refinement>, bound: nat)
    requires Acyclic(nodes) && bound <= |nodes| && forall k :: 0 <= k < |parents| ==> parents[k] < bound
    ensures forall v :: v in Unrolled(nodes, Visits(parents, later), bound) ==> v.id < bound
    ensures ReplaysOf(nodes, Unrolled(nodes, Visits(parents, later), bound)) ==
      Refined(ReplaysBehind(nodes, parents, bound), later)
    decreases bound, |parents|
  {
    UnrolledHoldsPending(nodes, Visits(parents, later), bound);
    if parents == [] {
      assert ReplaysOf(nodes, []) == [] && Refined([], later) == [];
    } else {
      var front, last := parents[..|parents| - 1], parents[|parents| - 1];
      var v := Visit(last, later);
      assert Visits(parents, later) == Visits(front, later) + [v];
      UnrolledOnce(nodes, Visits(front, later), v, bound);
      BackIsVisits(nodes, v);
      ParentsAreOlder(nodes, last);
      hide Acyclic, ReplaysOf, Refined, Back, Unrolled, Own, Visits;
      UnrolledReplays(nodes, nodes[last].parents, Own(nodes, last) + later, last);
      UnrolledReplays(nodes, front, later, bound);
      NodeReplays(nodes, last, later);
      RefinedConcat(Replays(nodes, last), ReplaysBehind(nodes, front, bound), later);
    }
  }

  lemma UnrolledOnce(nodes: seq<Trace>, rest: seq<Visit>, v: Visit, bound: nat)
    requires Acyclic(nodes) && v.id < bound <= |nodes| && forall k :: 0 <= k < |rest| ==> rest[k].id < bound
    ensures forall k :: 0 <= k < |Back(nodes, v)| ==> Back(nodes, v)[k].id < v.id
    ensures forall u :: u in Unrolled(nodes, Back(nodes, v), v.id) ==> u.id < bound
    ensures forall u :: u in Unrolled(nodes, rest, bound) ==> u.id < bound
    ensures forall u :: u in Unrolled(nodes, rest + [v], bound) ==> u.id < bound
    ensures
      ReplaysOf(nodes, Unrolled(nodes, rest + [v], bound)) ==
        ReplaysOf(nodes, [v]) + ReplaysOf(nodes, Unrolled(nodes, Back(nodes, v), v.id))
        + ReplaysOf(nodes, Unrolled(nodes, rest, bound))
  {
    BackIsOlder(nodes, v);
    assert (rest + [v])[..|rest|] == rest;
    var behind, others := Unrolled(nodes, Back(nodes, v), v.id), Unrolled(nodes, rest, bound);
    assert Unrolled(nodes, rest + [v], bound) == [v] + behind + others;
    UnrolledHoldsPending(nodes, Back(nodes, v), v.id);
    UnrolledHoldsPending(nodes, rest, bound);
    hide Acyclic, Back, Unrolled, ReplaysOf;
    assert forall i :: 0 <= i < |behind| ==> behind[i] in behind;
    assert forall i :: 0 <= i < |others| ==> others[i] in others;
    ReplaysOfConcat(nodes, [v] + behind, others);
    ReplaysOfConcat(nodes, [v], behind);
  }

  lemma BackIsVisits(nodes: seq<Trace>, v: Visit)
    requires v.id < |nodes|
    ensures Back(nodes, v) == Visits(nodes[v.id].parents, Own(nodes, v.id) + v.later)
  {
  }

  lemma ParentsAreOlder(nodes: seq<Trace>, id: nat)
    requires Acyclic(nodes) && id < |nodes|
    ensures forall k :: 0 <= k < |nodes[id].parents| ==> nodes[id].parents[k] < id
  {
  }

  lemma NodeReplays(nodes: seq<Trace>, id: nat, later: seq<Refinement>)
    requires Acyclic(nodes) && id < |nodes|
    requires forall k :: 0 <= k < |nodes[id].parents| ==> nodes[id].parents[k] < id
    ensures Refined(Replays(nodes, id), later) ==
      ReplaysOf(nodes, [Visit(id, later)])
      + Refined(ReplaysBehind(nodes, nodes[id].parents, id), Own(nodes, id) + later)
  {
    hide ReplaysBehind, Acyclic;
    var here := if nodes[id].checkpoint.Some? then [Replay(id, [])] else [];
    var behind, own := ReplaysBehind(nodes, nodes[id].parents, id), Own(nodes, id);
    RefinedTwice(here + behind, own, later);
    assert Replays(nodes, id) == Refined(here + behind, own);
    RefinedConcat(here, behind, own + later);
    assert [Visit(id, later)][..0] == [];
    assert [] + (own + later) == own + later;
    assert Refined(here, own + later) == ReplaysOf(nodes, [Visit(id, later)]);
  }

  // The whole walk from `exit` hands out what the graph replays for `exit`, each replay
  // where it occurs first; a walk cut short hands out a start of that.
  lemma WalkReplays(nodes: seq<Trace>, exit: nat, left: nat)
    requires Acyclic(nodes) && exit < |nodes|
    ensures
      var (made, ended) := Walk(nodes, [], [Visit(exit, [])], left);
      && (forall i :: 0 <= i < |made| ==> made[i].id < |nodes|)
      && ReplaysOf(nodes, made) <= AppendNew([], Replays(nodes, exit))
      && (ended ==> ReplaysOf(nodes, made) == AppendNew([], Replays(nodes, exit)))
  {
    hide Acyclic, Walk, Unrolled, Replays, ReplaysOf, AppendNew;
    var pending := [Visit(exit, [])];
    assert pending == Visits([exit], []);
    UnrolledReplays(nodes, [exit], [], |nodes|);
    WalkUnrolls(nodes, [], pending, |nodes|, left);
    var visits := Unrolled(nodes, pending, |nodes|);
    assert forall i :: 0 <= i < |visits| ==> visits[i] in visits;
    ReplaysOfNew(nodes, visits);
    var all := AppendNew([], visits);
    assert forall i :: 0 <= i < |all| ==> all[i] in all;
    ReplaysOfPrefix(nodes, all, if |all| <= left then |all| else left);
    OnlyReplays(nodes, exit);
    assert all[..|all|] == all;
  }

  lemma OnlyReplays(nodes: seq<Trace>, exit: nat)
    requires Acyclic(nodes) && exit < |nodes|
    ensures Refined(ReplaysBehind(nodes, [exit], |nodes|), []) == Replays(nodes, exit)
  {
    hide Acyclic, Replays;
    assert [exit][..0] == [];
    RefinedTwice(Replays(nodes, exit), [], []);
    assert ReplaysBehind(nodes, [exit], |nodes|) == Replays(nodes, exit) + [];
  }
}
