/** The bounded trace graph of one analysis request and the walk that replays
    inference refinements onto earlier checkpoints. */
module Traces {
  import opened Options
  import opened Sequences

  datatype Refinement = Refinement(operation: string, name: Option<string>, older: string, newer: string)

  /** One immutable node. Nodes are named by the order of their allocation. */
  datatype Trace = Trace(parents: seq<nat>, checkpoint: Option<string>, refinement: Option<Refinement>)

  // Every ancestry edge leads to an older node, so the graph is acyclic.
  ghost predicate Acyclic(nodes: seq<Trace>) {
    forall i, k :: 0 <= i < |nodes| && 0 <= k < |nodes[i].parents| ==> nodes[i].parents[k] < i
  }

  /* What the walk has to find. */

  // A node together with the refinements made after it along some path to the exit.
  datatype Visit = Visit(id: nat, later: seq<Refinement>)

  function Own(nodes: seq<Trace>, id: nat): seq<Refinement>
    requires id < |nodes|
  {
    if nodes[id].refinement.Some? then [nodes[id].refinement.value] else []
  }

  /** A path of ancestry edges, from `exit` back in time to its last node. */
  ghost predicate IsPath(nodes: seq<Trace>, exit: nat, path: seq<nat>) {
    && path != [] && path[0] == exit
    && (forall i :: 0 <= i < |path| ==> path[i] < |nodes|)
    && forall i :: 0 <= i < |path| - 1 ==> path[i + 1] in nodes[path[i]].parents
  }

  // The refinements of the nodes of a path in chronological order: the path runs
  // backwards, so those of its far end come first.
  function Chronological(nodes: seq<Trace>, path: seq<nat>): seq<Refinement>
    requires forall i :: 0 <= i < |path| ==> path[i] < |nodes|
  {
    if path == [] then [] else Own(nodes, path[|path| - 1]) + Chronological(nodes, path[..|path| - 1])
  }

  // `v` is the far end of some path, with the refinements made strictly after it.
  ghost predicate OnPath(nodes: seq<Trace>, exit: nat, v: Visit) {
    exists path :: IsPath(nodes, exit, path) && EndsAt(nodes, path, v)
  }

  ghost predicate EndsAt(nodes: seq<Trace>, path: seq<nat>, v: Visit)
    requires path != [] && forall i :: 0 <= i < |path| ==> path[i] < |nodes|
  {
    path[|path| - 1] == v.id && v.later == Chronological(nodes, path[..|path| - 1])
  }

  lemma PathStart(nodes: seq<Trace>, exit: nat)
    requires exit < |nodes|
    ensures OnPath(nodes, exit, Visit(exit, []))
  {
    var path := [exit];
    assert path[..0] == [];
    assert IsPath(nodes, exit, path) && EndsAt(nodes, path, Visit(exit, []));
  }

  lemma PathStep(nodes: seq<Trace>, exit: nat, v: Visit, parent: nat)
    requires Acyclic(nodes) && OnPath(nodes, exit, v)
    requires v.id < |nodes| && parent in nodes[v.id].parents
    ensures parent < |nodes| && OnPath(nodes, exit, Visit(parent, Own(nodes, v.id) + v.later))
  {
    var path :| IsPath(nodes, exit, path) && EndsAt(nodes, path, v);
    LongerPath(nodes, exit, path, parent);
    hide IsPath, Acyclic;
    LongerEnd(nodes, path, v, parent);
    assert IsPath(nodes, exit, path + [parent]);
  }

  lemma LongerPath(nodes: seq<Trace>, exit: nat, path: seq<nat>, parent: nat)
    requires Acyclic(nodes) && IsPath(nodes, exit, path)
    requires parent in nodes[path[|path| - 1]].parents
    ensures IsPath(nodes, exit, path + [parent])
    ensures forall i :: 0 <= i < |path + [parent]| ==> (path + [parent])[i] < |nodes|
  {
    var last := path[|path| - 1];
    var k :| 0 <= k < |nodes[last].parents| && nodes[last].parents[k] == parent;
    assert parent < last;
    hide Acyclic;
  }

  lemma LongerEnd(nodes: seq<Trace>, path: seq<nat>, v: Visit, parent: nat)
    requires path != [] && forall i :: 0 <= i < |path| ==> path[i] < |nodes|
    requires parent < |nodes| && EndsAt(nodes, path, v)
    ensures EndsAt(nodes, path + [parent], Visit(parent, Own(nodes, v.id) + v.later))
  {
    assert (path + [parent])[..|path|] == path;
  }

  lemma PathBounds(nodes: seq<Trace>, exit: nat, v: Visit)
    requires OnPath(nodes, exit, v)
    ensures v.id < |nodes|
  {
    var path :| IsPath(nodes, exit, path) && EndsAt(nodes, path, v);
  }

  // A set of visits closed under going one edge back.
  ghost predicate ClosedBack(nodes: seq<Trace>, s: set<Visit>) {
    forall v, parent: nat :: v in s && v.id < |nodes| && parent in nodes[v.id].parents ==>
      Visit(parent, Own(nodes, v.id) + v.later) in s
  }

  lemma {:induction false} ClosedHoldsPath(nodes: seq<Trace>, exit: nat, s: set<Visit>, path: seq<nat>)
    requires ClosedBack(nodes, s) && Visit(exit, []) in s
    requires IsPath(nodes, exit, path)
    ensures Visit(path[|path| - 1], Chronological(nodes, path[..|path| - 1])) in s
    decreases |path|
  {
    if |path| == 1 {
      assert path[..0] == [];
    } else {
      var front := path[..|path| - 1];
      assert IsPath(nodes, exit, front) by {
        forall i | 0 <= i < |front| - 1 ensures front[i + 1] in nodes[front[i]].parents {
          assert path[i + 1] in nodes[path[i]].parents;
        }
      }
      ClosedHoldsPath(nodes, exit, s, front);
      var v := Visit(front[|front| - 1], Chronological(nodes, front[..|front| - 1]));
      assert path[|path| - 1] in nodes[v.id].parents by {
        assert path[|path| - 2 + 1] in nodes[path[|path| - 2]].parents;
      }
    }
  }

  lemma ClosedHoldsAll(nodes: seq<Trace>, exit: nat, s: set<Visit>, v: Visit)
    requires ClosedBack(nodes, s) && Visit(exit, []) in s && OnPath(nodes, exit, v)
    ensures v in s
  {
    var path :| IsPath(nodes, exit, path) && EndsAt(nodes, path, v);
    ClosedHoldsPath(nodes, exit, s, path);
  }

  /** A checkpoint as it is handed out: with every refinement from its own node on. */
  datatype Replay = Replay(id: nat, refinements: seq<Refinement>)

  ghost predicate ReplayOf(nodes: seq<Trace>, v: Visit, r: Replay) {
    v.id < |nodes| && nodes[v.id].checkpoint.Some? && r == Replay(v.id, Own(nodes, v.id) + v.later)
  }

  function ReplaysOf(nodes: seq<Trace>, visits: seq<Visit>): seq<Replay>
    requires forall i :: 0 <= i < |visits| ==> visits[i].id < |nodes|
  {
    if visits == [] then []
    else
      var v := visits[|visits| - 1];
      ReplaysOf(nodes, visits[..|visits| - 1])
      + if nodes[v.id].checkpoint.Some? then [Replay(v.id, Own(nodes, v.id) + v.later)] else []
  }

  lemma {:induction false} ReplaysMembers(nodes: seq<Trace>, visits: seq<Visit>, r: Replay)
    requires forall i :: 0 <= i < |visits| ==> visits[i].id < |nodes|
    ensures r in ReplaysOf(nodes, visits) <==> exists v :: v in visits && ReplayOf(nodes, v, r)
  {
    if visits != [] {
      var front, last := visits[..|visits| - 1], visits[|visits| - 1];
      assert visits == front + [last];
      ReplaysMembers(nodes, front, r);
      hide ReplayOf;
      if v :| v in front && ReplayOf(nodes, v, r) {
        assert v in visits;
      }
      LastReplay(nodes, last, r);
      assert last in visits;
    }
  }

  lemma LastReplay(nodes: seq<Trace>, v: Visit, r: Replay)
    requires v.id < |nodes|
    ensures ReplayOf(nodes, v, r) <==>
      nodes[v.id].checkpoint.Some? && r == Replay(v.id, Own(nodes, v.id) + v.later)
  {
  }

  lemma SameReplay(nodes: seq<Trace>, v: Visit, w: Visit)
    requires v.id < |nodes| && w.id < |nodes|
    requires Replay(v.id, Own(nodes, v.id) + v.later) == Replay(w.id, Own(nodes, w.id) + w.later)
    ensures v == w
  {
    var own := Own(nodes, v.id);
    assert (own + v.later)[|own|..] == v.later && (own + w.later)[|own|..] == w.later;
  }

  lemma {:induction false} ReplaysDistinct(nodes: seq<Trace>, visits: seq<Visit>)
    requires Distinct(visits) && forall i :: 0 <= i < |visits| ==> visits[i].id < |nodes|
    ensures Distinct(ReplaysOf(nodes, visits))
  {
    if visits != [] {
      var front, last := visits[..|visits| - 1], visits[|visits| - 1];
      assert visits == front + [last];
      DistinctSplit(front, [last]);
      ReplaysDistinct(nodes, front);
      var r := Replay(last.id, Own(nodes, last.id) + last.later);
      ReplaysMembers(nodes, front, r);
      if v :| v in front && ReplayOf(nodes, v, r) {
        SameReplay(nodes, v, last);
      }
      assert Distinct([r]);
      if nodes[last.id].checkpoint.Some? {
        DistinctAppend(ReplaysOf(nodes, front), [r]);
      }
    }
  }

  /* The worklist. */

  function Back(nodes: seq<Trace>, v: Visit): seq<Visit>
    requires v.id < |nodes|
  {
    var parents := nodes[v.id].parents;
    seq(|parents|, k requires 0 <= k < |parents| => Visit(parents[k], Own(nodes, v.id) + v.later))
  }

  /** The state of the walk: every visit made or pending lies on a path, and what
      lies one edge behind a visit made is made or pending. */
  ghost predicate Walking(nodes: seq<Trace>, exit: nat, made: seq<Visit>, seen: set<Visit>, pending: seq<Visit>) {
    && Acyclic(nodes)
    && Distinct(made) && (forall v :: v in made <==> v in seen)
    && (forall v :: v in seen ==> OnPath(nodes, exit, v))
    && (forall v :: v in pending ==> OnPath(nodes, exit, v))
    && (Visit(exit, []) in seen || Visit(exit, []) in pending)
    && BehindCovered(nodes, seen, pending)
  }

  ghost predicate BehindCovered(nodes: seq<Trace>, seen: set<Visit>, pending: seq<Visit>) {
    forall v, parent: nat :: v in seen && v.id < |nodes| && parent in nodes[v.id].parents ==>
      Visit(parent, Own(nodes, v.id) + v.later) in seen || Visit(parent, Own(nodes, v.id) + v.later) in pending
  }

  lemma StartWalking(nodes: seq<Trace>, exit: nat)
    requires Acyclic(nodes) && exit < |nodes|
    ensures Walking(nodes, exit, [], {}, [Visit(exit, [])])
  {
    PathStart(nodes, exit);
  }

  lemma SkipSeen(nodes: seq<Trace>, exit: nat, made: seq<Visit>, seen: set<Visit>, pending: seq<Visit>)
    requires Walking(nodes, exit, made, seen, pending) && pending != [] && pending[|pending| - 1] in seen
    ensures Walking(nodes, exit, made, seen, pending[..|pending| - 1])
  {
    hide OnPath, Acyclic, Distinct;
    assert pending == pending[..|pending| - 1] + [pending[|pending| - 1]];
  }

  lemma BackMembers(nodes: seq<Trace>, v: Visit)
    requires v.id < |nodes|
    ensures forall w :: w in Back(nodes, v) <==>
      exists parent: nat :: parent in nodes[v.id].parents && w == Visit(parent, Own(nodes, v.id) + v.later)
  {
    var parents := nodes[v.id].parents;
    forall parent: nat | parent in parents ensures Visit(parent, Own(nodes, v.id) + v.later) in Back(nodes, v) {
      var k :| 0 <= k < |parents| && parents[k] == parent;
      assert Back(nodes, v)[k] == Visit(parent, Own(nodes, v.id) + v.later);
    }
  }

  lemma VisitNext(nodes: seq<Trace>, exit: nat, made: seq<Visit>, seen: set<Visit>, pending: seq<Visit>, v: Visit)
    requires Walking(nodes, exit, made, seen, pending) && pending != [] && v == pending[|pending| - 1] && v !in seen
    requires v.id < |nodes|
    ensures Walking(nodes, exit, made + [v], seen + {v}, pending[..|pending| - 1] + Back(nodes, v))
  {
    var rest, back := pending[..|pending| - 1], Back(nodes, v);
    assert pending == rest + [v];
    BackMembers(nodes, v);
    forall w | w in back ensures OnPath(nodes, exit, w) {
      var parent: nat :| parent in nodes[v.id].parents && w == Visit(parent, Own(nodes, v.id) + v.later);
      PathStep(nodes, exit, v, parent);
    }
    assert Distinct([v]);
    DistinctAppend(made, [v]);
    hide OnPath, Acyclic, Distinct, Back;
    assert BehindCovered(nodes, seen + {v}, rest + back);
  }

  lemma WalkEnds(nodes: seq<Trace>, exit: nat, made: seq<Visit>, seen: set<Visit>)
    requires Walking(nodes, exit, made, seen, [])
    ensures forall v :: v in made <==> OnPath(nodes, exit, v)
  {
    forall v | OnPath(nodes, exit, v) ensures v in seen {
      ClosedHoldsAll(nodes, exit, seen, v);
    }
  }

  lemma WalkBounds(nodes: seq<Trace>, exit: nat, made: seq<Visit>, seen: set<Visit>, pending: seq<Visit>)
    requires Walking(nodes, exit, made, seen, pending)
    ensures forall i :: 0 <= i < |made| ==> made[i].id < |nodes|
    ensures forall i :: 0 <= i < |pending| ==> pending[i].id < |nodes|
  {
    forall i | 0 <= i < |made| ensures made[i].id < |nodes| {
      assert made[i] in seen;
      PathBounds(nodes, exit, made[i]);
    }
    forall i | 0 <= i < |pending| ensures pending[i].id < |nodes| {
      assert pending[i] in pending;
      PathBounds(nodes, exit, pending[i]);
    }
  }

  /* How many visits there are. */

  // A visit and everything behind it: finite, because edges lead to older nodes.
  ghost function Behind(nodes: seq<Trace>, v: Visit): set<Visit>
    requires Acyclic(nodes) && v.id < |nodes|
    decreases v.id
  {
    var back := Back(nodes, v);
    BackIsOlder(nodes, v);
    {v} + set k, w | 0 <= k < |back| && w in Behind(nodes, back[k]) :: w
  }

  lemma BackIsOlder(nodes: seq<Trace>, v: Visit)
    requires Acyclic(nodes) && v.id < |nodes|
    ensures forall k :: 0 <= k < |Back(nodes, v)| ==> Back(nodes, v)[k].id < v.id
  {
  }

  lemma {:induction false} BehindIsClosed(nodes: seq<Trace>, v: Visit, w: Visit, u: Visit)
    requires Acyclic(nodes) && v.id < |nodes| && w in Behind(nodes, v)
    requires w.id < |nodes| && u in Back(nodes, w)
    ensures u in Behind(nodes, v)
    decreases v.id
  {
    BackIsOlder(nodes, v);
    var back := Back(nodes, v);
    if w == v {
      var k :| 0 <= k < |back| && back[k] == u;
      assert u in Behind(nodes, back[k]);
    } else {
      var k :| 0 <= k < |back| && w in Behind(nodes, back[k]);
      BehindIsClosed(nodes, back[k], w, u);
    }
  }

  lemma {:induction false} BehindIsOnPath(nodes: seq<Trace>, exit: nat, v: Visit, w: Visit)
    requires Acyclic(nodes) && v.id < |nodes| && OnPath(nodes, exit, v) && w in Behind(nodes, v)
    ensures OnPath(nodes, exit, w)
    decreases v.id
  {
    hide OnPath;
    if w != v {
      BackIsOlder(nodes, v);
      var back := Back(nodes, v);
      var k :| 0 <= k < |back| && w in Behind(nodes, back[k]);
      PathStep(nodes, exit, v, back[k].id);
      BehindIsOnPath(nodes, exit, back[k], w);
    }
  }

  // The visits on paths to the exit.
  ghost function PathVisits(nodes: seq<Trace>, exit: nat): set<Visit>
    requires Acyclic(nodes) && exit < |nodes|
  {
    Behind(nodes, Visit(exit, []))
  }

  lemma PathVisitsAreExact(nodes: seq<Trace>, exit: nat, v: Visit)
    requires Acyclic(nodes) && exit < |nodes|
    ensures v in PathVisits(nodes, exit) <==> OnPath(nodes, exit, v)
  {
    var start, all := Visit(exit, []), PathVisits(nodes, exit);
    PathStart(nodes, exit);
    assert start in all;
    if OnPath(nodes, exit, v) {
      hide OnPath, Acyclic, Behind;
      forall w, parent: nat | w in all && w.id < |nodes| && parent in nodes[w.id].parents
        ensures Visit(parent, Own(nodes, w.id) + w.later) in all
      {
        BackMembers(nodes, w);
        BehindIsClosed(nodes, start, w, Visit(parent, Own(nodes, w.id) + w.later));
      }
      ClosedHoldsAll(nodes, exit, all, v);
    }
    if v in all {
      BehindIsOnPath(nodes, exit, start, v);
    }
  }

  lemma OneReplay(nodes: seq<Trace>, made: seq<Visit>, v: Visit)
    requires v.id < |nodes| && forall i :: 0 <= i < |made| ==> made[i].id < |nodes|
    ensures ReplaysOf(nodes, made + [v]) ==
      ReplaysOf(nodes, made)
      + if nodes[v.id].checkpoint.Some? then [Replay(v.id, Own(nodes, v.id) + v.later)] else []
  {
    assert (made + [v])[..|made|] == made;
  }

  /** Exactly the checkpoints on paths to the exit, with the refinements along the path. */
  ghost predicate AllReplays(nodes: seq<Trace>, exit: nat, replays: seq<Replay>) {
    forall r :: r in replays <==> IsReplay(nodes, exit, r)
  }

  ghost predicate IsReplay(nodes: seq<Trace>, exit: nat, r: Replay) {
    exists path ::
      && IsPath(nodes, exit, path)
      && path[|path| - 1] == r.id
      && nodes[r.id].checkpoint.Some?
      && r.refinements == Chronological(nodes, path)
  }

  lemma ReplayIsVisit(nodes: seq<Trace>, exit: nat, r: Replay)
    ensures IsReplay(nodes, exit, r) <==> exists v :: OnPath(nodes, exit, v) && ReplayOf(nodes, v, r)
  {
    if IsReplay(nodes, exit, r) {
      var path :| IsPath(nodes, exit, path) && path[|path| - 1] == r.id && nodes[r.id].checkpoint.Some?
        && r.refinements == Chronological(nodes, path);
      var v := Visit(r.id, Chronological(nodes, path[..|path| - 1]));
      assert EndsAt(nodes, path, v);
      assert OnPath(nodes, exit, v) && ReplayOf(nodes, v, r);
    }
    if v :| OnPath(nodes, exit, v) && ReplayOf(nodes, v, r) {
      var path :| IsPath(nodes, exit, path) && EndsAt(nodes, path, v);
      assert r.refinements == Chronological(nodes, path);
    }
  }

  lemma ReplaysAreExact(nodes: seq<Trace>, exit: nat, made: seq<Visit>)
    requires Distinct(made) && (forall v :: v in made <==> OnPath(nodes, exit, v))
    requires forall i :: 0 <= i < |made| ==> made[i].id < |nodes|
    ensures Distinct(ReplaysOf(nodes, made)) && AllReplays(nodes, exit, ReplaysOf(nodes, made))
  {
    ReplaysDistinct(nodes, made);
    hide OnPath, IsReplay, ReplaysOf, Distinct;
    forall r ensures r in ReplaysOf(nodes, made) <==> IsReplay(nodes, exit, r) {
      ReplaysMembers(nodes, made, r);
      ReplayIsVisit(nodes, exit, r);
    }
  }

  lemma {:induction false} PathStaysBelow(nodes: seq<Trace>, more: seq<Trace>, exit: nat, path: seq<nat>)
    requires Acyclic(nodes) && exit < |nodes| && IsPath(nodes + more, exit, path)
    ensures IsPath(nodes, exit, path) && Chronological(nodes, path) == Chronological(nodes + more, path)
    decreases |path|
  {
    if |path| == 1 {
      assert path[..0] == [];
    } else {
      var front, last := path[..|path| - 1], path[|path| - 1];
      assert IsPath(nodes + more, exit, front) by {
        forall i | 0 <= i < |front| - 1 ensures front[i + 1] in (nodes + more)[front[i]].parents {
          assert path[i + 1] in (nodes + more)[path[i]].parents;
        }
      }
      PathStaysBelow(nodes, more, exit, front);
      var previous := path[|path| - 2];
      assert path[|path| - 2 + 1] in (nodes + more)[path[|path| - 2]].parents;
      assert previous < |nodes| && last in nodes[previous].parents;
      assert last < |nodes|;
      forall i | 0 <= i < |path| - 1 ensures path[i + 1] in nodes[path[i]].parents {
        assert i < |front| - 1 ==> front[i + 1] in nodes[front[i]].parents;
      }
    }
  }

  lemma {:induction false} PathPersists(nodes: seq<Trace>, more: seq<Trace>, exit: nat, path: seq<nat>)
    requires IsPath(nodes, exit, path)
    ensures IsPath(nodes + more, exit, path)
  {
  }

  lemma {:induction false} ChronologicalPersists(nodes: seq<Trace>, more: seq<Trace>, path: seq<nat>)
    requires forall i :: 0 <= i < |path| ==> path[i] < |nodes|
    ensures Chronological(nodes + more, path) == Chronological(nodes, path)
  {
    if path != [] {
      ChronologicalPersists(nodes, more, path[..|path| - 1]);
    }
  }

  // The graph is persistent: later allocations do not change what an exit replays.
  lemma ReplaysPersist(nodes: seq<Trace>, more: seq<Trace>, exit: nat, r: Replay)
    requires Acyclic(nodes) && exit < |nodes|
    ensures IsReplay(nodes + more, exit, r) <==> IsReplay(nodes, exit, r)
  {
    if IsReplay(nodes + more, exit, r) {
      var path :| IsPath(nodes + more, exit, path) && path[|path| - 1] == r.id
        && (nodes + more)[r.id].checkpoint.Some? && r.refinements == Chronological(nodes + more, path);
      PathStaysBelow(nodes, more, exit, path);
    }
    if IsReplay(nodes, exit, r) {
      var path :| IsPath(nodes, exit, path) && path[|path| - 1] == r.id && nodes[r.id].checkpoint.Some?
        && r.refinements == Chronological(nodes, path);
      PathPersists(nodes, more, exit, path);
      ChronologicalPersists(nodes, more, path);
    }
  }
}
