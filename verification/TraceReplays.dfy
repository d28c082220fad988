/** What inspections hand out, in terms of the operations that made the graph. */
module TraceReplays {
  import opened Options
  import opened Traces
  import opened TraceOrder
  import opened TraceCollection

  lemma ChronologicalCons(nodes: seq<Trace>, id: nat, path: seq<nat>)
    requires id < |nodes| && forall i :: 0 <= i < |path| ==> path[i] < |nodes|
    ensures Chronological(nodes, [id] + path) == Chronological(nodes, path) + Own(nodes, id)
    decreases |path|
  {
    var whole := [id] + path;
    if path == [] {
      assert whole[..0] == [];
    } else {
      assert whole[..|whole| - 1] == [id] + path[..|path| - 1];
      ChronologicalCons(nodes, id, path[..|path| - 1]);
    }
  }

  lemma OwnReplay(nodes: seq<Trace>, exit: nat)
    requires exit < |nodes| && nodes[exit].checkpoint.Some?
    ensures IsReplay(nodes, exit, Replay(exit, Own(nodes, exit)))
  {
    var path := [exit];
    assert path[..0] == [];
    assert IsPath(nodes, exit, path) && Chronological(nodes, path) == Own(nodes, exit);
  }

  lemma ParentReplay(nodes: seq<Trace>, exit: nat, parent: nat, r: Replay)
    requires exit < |nodes| && parent in nodes[exit].parents && IsReplay(nodes, parent, r)
    ensures IsReplay(nodes, exit, Replay(r.id, r.refinements + Own(nodes, exit)))
  {
    var path :| IsPath(nodes, parent, path) && path[|path| - 1] == r.id && nodes[r.id].checkpoint.Some?
      && r.refinements == Chronological(nodes, path);
    var whole := [exit] + path;
    forall i | 0 <= i < |whole| - 1 ensures whole[i + 1] in nodes[whole[i]].parents {
      assert i > 0 ==> path[i - 1 + 1] in nodes[path[i - 1]].parents;
    }
    assert IsPath(nodes, exit, whole);
    ChronologicalCons(nodes, exit, path);
  }

  // A replay is the node's own checkpoint or comes from a parent.
  lemma ReplayComesFrom(nodes: seq<Trace>, exit: nat, r: Replay) returns (parent: nat, s: Replay)
    requires exit < |nodes| && IsReplay(nodes, exit, r)
    ensures
      || (nodes[exit].checkpoint.Some? && r == Replay(exit, Own(nodes, exit)))
      || (parent in nodes[exit].parents && IsReplay(nodes, parent, s)
          && r == Replay(s.id, s.refinements + Own(nodes, exit)))
  {
    var path :| IsPath(nodes, exit, path) && path[|path| - 1] == r.id && nodes[r.id].checkpoint.Some?
      && r.refinements == Chronological(nodes, path);
    var rest := path[1..];
    assert path == [exit] + rest;
    ChronologicalCons(nodes, exit, rest);
    if rest == [] {
      parent, s := 0, r;
    } else {
      parent, s := rest[0], Replay(r.id, Chronological(nodes, rest));
      assert path[0 + 1] in nodes[path[0]].parents;
      forall i | 0 <= i < |rest| - 1 ensures rest[i + 1] in nodes[rest[i]].parents {
        assert path[i + 1 + 1] in nodes[path[i + 1]].parents;
      }
      assert IsPath(nodes, parent, rest);
    }
  }

  // Some of the given traces replays `r`.
  ghost predicate SomeReplays(nodes: seq<Trace>, traces: seq<nat>, r: Replay) {
    exists p :: p in traces && IsReplay(nodes, p, r)
  }

  // What a new node replays, from what its parents do.
  lemma NewNodeReplays(nodes: seq<Trace>, node: Trace, r: Replay)
    requires Acyclic(nodes) && forall p :: p in node.parents ==> p < |nodes|
    ensures
      var own := Own(nodes + [node], |nodes|);
      IsReplay(nodes + [node], |nodes|, r) <==>
        || (node.checkpoint.Some? && r == Replay(|nodes|, own))
        || exists s :: SomeReplays(nodes, node.parents, s) && r == Replay(s.id, s.refinements + own)
  {
    var after, n := nodes + [node], |nodes|;
    var own := Own(after, n);
    assert after[n] == node;
    hide IsReplay, Acyclic, Own;
    if IsReplay(after, n, r) {
      var p, s := ReplayComesFrom(after, n, r);
      if p in node.parents && IsReplay(after, p, s) && r == Replay(s.id, s.refinements + own) {
        ReplaysPersist(nodes, [node], p, s);
        assert SomeReplays(nodes, node.parents, s);
      }
    }
    if node.checkpoint.Some? {
      OwnReplay(after, n);
    }
    if s :| SomeReplays(nodes, node.parents, s) && r == Replay(s.id, s.refinements + own) {
      var p :| p in node.parents && IsReplay(nodes, p, s);
      ReplaysPersist(nodes, [node], p, s);
      ParentReplay(after, n, p, s);
    }
  }

  lemma PlainNodeReplays(nodes: seq<Trace>, node: Trace, r: Replay)
    requires Acyclic(nodes) && forall p :: p in node.parents ==> p < |nodes|
    requires node.refinement == None
    ensures IsReplay(nodes + [node], |nodes|, r) <==>
      (node.checkpoint.Some? && r == Replay(|nodes|, [])) || SomeReplays(nodes, node.parents, r)
  {
    hide IsReplay, Acyclic, SomeReplays;
    NewNodeReplays(nodes, node, r);
    assert Own(nodes + [node], |nodes|) == [];
    assert forall s: Replay :: s.refinements + [] == s.refinements;
    assert Replay(r.id, r.refinements + []) == r;
  }

  lemma RefinedNodeReplays(nodes: seq<Trace>, trace: nat, refinement: Refinement, r: Replay)
    requires Acyclic(nodes) && trace < |nodes|
    ensures IsReplay(nodes + [Trace([trace], None, Some(refinement))], |nodes|, r) <==>
      && r.refinements != []
      && r.refinements[|r.refinements| - 1] == refinement
      && IsReplay(nodes, trace, Replay(r.id, r.refinements[..|r.refinements| - 1]))
  {
    hide IsReplay, Acyclic;
    var node := Trace([trace], None, Some(refinement));
    NewNodeReplays(nodes, node, r);
    assert Own(nodes + [node], |nodes|) == [refinement];
    if s :| SomeReplays(nodes, [trace], s) && r == Replay(s.id, s.refinements + [refinement]) {
      assert r.refinements[..|r.refinements| - 1] == s.refinements;
      assert s == Replay(r.id, r.refinements[..|r.refinements| - 1]);
    }
    if r.refinements != [] && r.refinements[|r.refinements| - 1] == refinement {
      var s := Replay(r.id, r.refinements[..|r.refinements| - 1]);
      assert s.refinements + [refinement] == r.refinements;
      if IsReplay(nodes, trace, s) {
        assert trace in [trace];
        assert SomeReplays(nodes, [trace], s);
      }
    }
  }

  lemma {:induction false} OrderPersists(nodes: seq<Trace>, more: seq<Trace>, id: nat)
    requires Acyclic(nodes) && Acyclic(nodes + more) && id < |nodes|
    ensures Replays(nodes + more, id) == Replays(nodes, id)
    decreases id, 1, 0
  {
    assert (nodes + more)[id] == nodes[id];
    OrderBehindPersists(nodes, more, nodes[id].parents, id);
    hide ReplaysBehind;
  }

  lemma {:induction false} OrderBehindPersists(nodes: seq<Trace>, more: seq<Trace>, parents: seq<nat>, bound: nat)
    requires Acyclic(nodes) && Acyclic(nodes + more) && bound <= |nodes|
    requires forall k :: 0 <= k < |parents| ==> parents[k] < bound
    ensures ReplaysBehind(nodes + more, parents, bound) == ReplaysBehind(nodes, parents, bound)
    decreases bound, 0, |parents|
  {
    if parents != [] {
      OrderPersists(nodes, more, parents[|parents| - 1]);
      OrderBehindPersists(nodes, more, parents[..|parents| - 1], bound);
    }
  }

  lemma GraphsGrow(c: Collector, node: Trace)
    requires Sound(c) && |c.nodes| < c.limit && forall p :: p in node.parents ==> p < |c.nodes|
    ensures Allocate(c, node) == (c.(nodes := c.nodes + [node]), Some(|c.nodes|))
    ensures Sound(Allocate(c, node).0)
    ensures forall k :: 0 <= k < |node.parents| ==> node.parents[k] < |c.nodes|
    ensures ReplaysBehind(c.nodes + [node], node.parents, |c.nodes|) ==
      ReplaysBehind(c.nodes, node.parents, |c.nodes|)
  {
    AllocateIsSound(c, node);
    forall k | 0 <= k < |node.parents| ensures node.parents[k] < |c.nodes| {
      assert node.parents[k] in node.parents;
    }
    OrderBehindPersists(c.nodes, [node], node.parents, |c.nodes|);
  }

  // A refinement is applied last to everything that its trace replays.
  lemma RefineReplays(c: Collector, trace: nat, refinement: Refinement, r: Replay)
    requires Sound(c) && trace < |c.nodes| && |c.nodes| < c.limit
    ensures
      var (after, refined) := Allocate(c, Trace([trace], None, Some(refinement)));
      && refined == Some(|c.nodes|) && Sound(after)
      && (IsReplay(after.nodes, |c.nodes|, r) <==>
            && r.refinements != []
            && r.refinements[|r.refinements| - 1] == refinement
            && IsReplay(c.nodes, trace, Replay(r.id, r.refinements[..|r.refinements| - 1])))
      && Replays(after.nodes, |c.nodes|) == Refined(Replays(c.nodes, trace), [refinement])
  {
    var node := Trace([trace], None, Some(refinement));
    GraphsGrow(c, node);
    RefinedNodeReplays(c.nodes, trace, refinement, r);
    BehindOne(c.nodes, trace);
    hide IsReplay, Acyclic, Refined, ReplaysBehind;
    var behind := Replays(c.nodes, trace);
    assert [] + behind == behind;
  }

  lemma BehindOne(nodes: seq<Trace>, trace: nat)
    requires Acyclic(nodes) && trace < |nodes|
    ensures ReplaysBehind(nodes, [trace], |nodes|) == Replays(nodes, trace)
  {
    hide Replays, Acyclic;
    assert [trace][..0] == [];
    assert ReplaysBehind(nodes, [trace], |nodes|) == Replays(nodes, trace) + [];
  }

  // A new checkpoint is handed out first and with nothing to apply, before what its
  // parents replay.
  lemma CheckpointReplays(c: Collector, parents: seq<nat>, checkpoint: string, r: Replay)
    requires Sound(c) && |c.nodes| < c.limit && forall p :: p in parents ==> p < |c.nodes|
    ensures
      var (after, added) := Allocate(c, Trace(parents, Some(checkpoint), None));
      && added == Some(|c.nodes|) && Sound(after)
      && (IsReplay(after.nodes, |c.nodes|, r) <==> r == Replay(|c.nodes|, []) || SomeReplays(c.nodes, parents, r))
      && (forall k :: 0 <= k < |parents| ==> parents[k] < |c.nodes|)
      && Replays(after.nodes, |c.nodes|) == [Replay(|c.nodes|, [])] + ReplaysBehind(c.nodes, parents, |c.nodes|)
  {
    var node := Trace(parents, Some(checkpoint), None);
    GraphsGrow(c, node);
    PlainNodeReplays(c.nodes, node, r);
    hide IsReplay, Acyclic, ReplaysBehind;
  }

  // A join replays exactly what one of its traces does, those of the last trace first.
  lemma JoinReplays(c: Collector, traces: seq<Option<nat>>, r: Replay)
    requires Sound(c) && |c.nodes| < c.limit && forall t :: t in traces && t.Some? ==> t.value < |c.nodes|
    requires exists t :: t in traces && t.Some?
    ensures
      var (after, joined) := Join(c, traces);
      && joined.Some? && joined.value < |after.nodes| && Sound(after)
      && (IsReplay(after.nodes, joined.value, r) <==> exists p :: Some(p) in traces && IsReplay(c.nodes, p, r))
      && (forall k :: 0 <= k < |Present(traces)| ==> Present(traces)[k] < |c.nodes|)
      && Replays(after.nodes, joined.value) == ReplaysBehind(c.nodes, Present(traces), |c.nodes|)
  {
    var parents := Present(traces);
    PresentOnce(traces);
    hide IsReplay, Acyclic, ReplaysBehind, Replays, Present;
    var t :| t in traces && t.Some?;
    assert t.value in parents;
    forall p | p in parents ensures p < |c.nodes| {
      assert Some(p) in traces;
    }
    assert SomeReplays(c.nodes, parents, r) <==> exists p :: Some(p) in traces && IsReplay(c.nodes, p, r);
    if |parents| == 1 {
      OneTrace(c.nodes, parents, r);
    } else {
      hide SomeReplays;
      JoinedReplays(c, parents, r);
    }
  }

  lemma OneTrace(nodes: seq<Trace>, parents: seq<nat>, r: Replay)
    requires Acyclic(nodes) && |parents| == 1 && parents[0] < |nodes|
    ensures SomeReplays(nodes, parents, r) <==> IsReplay(nodes, parents[0], r)
    ensures ReplaysBehind(nodes, parents, |nodes|) == Replays(nodes, parents[0])
  {
    hide IsReplay;
    assert parents[0] in parents;
    assert parents == [parents[0]];
    BehindOne(nodes, parents[0]);
  }

  lemma JoinedReplays(c: Collector, parents: seq<nat>, r: Replay)
    requires Sound(c) && |c.nodes| < c.limit && forall p :: p in parents ==> p < |c.nodes|
    ensures
      var after := c.nodes + [Trace(parents, None, None)];
      && Allocate(c, Trace(parents, None, None)) == (c.(nodes := after), Some(|c.nodes|))
      && Sound(c.(nodes := after))
      && (IsReplay(after, |c.nodes|, r) <==> SomeReplays(c.nodes, parents, r))
      && (forall k :: 0 <= k < |parents| ==> parents[k] < |c.nodes|)
      && Replays(after, |c.nodes|) == ReplaysBehind(c.nodes, parents, |c.nodes|)
  {
    var node := Trace(parents, None, None);
    GraphsGrow(c, node);
    PlainNodeReplays(c.nodes, node, r);
    hide IsReplay, Acyclic, ReplaysBehind, SomeReplays;
    var behind := ReplaysBehind(c.nodes, parents, |c.nodes|);
    assert [] + behind == behind;
  }

  // Traces are joined in the order in which they are given first.
  lemma {:induction false} PresentInOrder(traces: seq<Option<nat>>, a: nat, b: nat, i: nat)
    requires a < b < |Present(traces)| && i < |traces| && traces[i] == Some(Present(traces)[b])
    ensures Some(Present(traces)[a]) in traces[..i]
  {
    var front, last := traces[..|traces| - 1], traces[|traces| - 1];
    assert traces == front + [last];
    PresentOnce(front);
    PresentOnce(traces);
    if b < |Present(front)| {
      if i < |front| {
        PresentInOrder(front, a, b, i);
        assert front[..i] == traces[..i];
      } else {
        assert Present(front)[a] in Present(front);
        assert traces[..i] == front;
      }
    } else {
      assert traces[..|front|] == front;
      assert Present(front)[a] in Present(front);
    }
  }

  // The list in which a node hands out its replays holds exactly its replays.
  lemma {:induction false} ListedAreReplays(nodes: seq<Trace>, id: nat, r: Replay)
    requires Acyclic(nodes) && id < |nodes|
    ensures r in Replays(nodes, id) <==> IsReplay(nodes, id, r)
    decreases id, 1, 0
  {
    var node, own := nodes[id], Own(nodes, id);
    ParentsAreOlder(nodes, id);
    var here := if node.checkpoint.Some? then [Replay(id, [])] else [];
    var behind := ReplaysBehind(nodes, node.parents, id);
    RefinedTwice(here + behind, [], []);
    assert Replays(nodes, id) == Refined(here + behind, own);
    hide IsReplay, Acyclic, ReplaysBehind, Replays, Own;
    RefinedMembers(here + behind, own, r);
    if IsReplay(nodes, id, r) {
      var p, s := ReplayComesFrom(nodes, id, r);
      if node.checkpoint.Some? && r == Replay(id, own) {
        assert (here + behind)[0] == Replay(id, []) && [] + own == own;
      } else {
        BehindAreReplays(nodes, node.parents, id, s);
        assert s in here + behind;
      }
    }
    if s: Replay :| s in here + behind && r == Replay(s.id, s.refinements + own) {
      if s in behind {
        BehindAreReplays(nodes, node.parents, id, s);
        var p :| p in node.parents && IsReplay(nodes, p, s);
        ParentReplay(nodes, id, p, s);
      } else {
        OwnReplay(nodes, id);
        assert [] + own == own;
      }
    }
  }

  lemma {:induction false} BehindAreReplays(nodes: seq<Trace>, parents: seq<nat>, bound: nat, r: Replay)
    requires Acyclic(nodes) && bound <= |nodes| && forall k :: 0 <= k < |parents| ==> parents[k] < bound
    ensures r in ReplaysBehind(nodes, parents, bound) <==> SomeReplays(nodes, parents, r)
    decreases bound, 0, |parents|
  {
    if parents != [] {
      var front, last := parents[..|parents| - 1], parents[|parents| - 1];
      assert parents == front + [last];
      ListedAreReplays(nodes, last, r);
      BehindAreReplays(nodes, front, bound, r);
      hide IsReplay, Acyclic, Replays;
    }
  }

  lemma RefinedMembers(replays: seq<Replay>, later: seq<Refinement>, r: Replay)
    ensures r in Refined(replays, later) <==> exists s :: s in replays && r == Replay(s.id, s.refinements + later)
  {
    if s :| s in replays && r == Replay(s.id, s.refinements + later) {
      var k :| 0 <= k < |replays| && replays[k] == s;
      assert Refined(replays, later)[k] == r;
    }
  }
}
