/** The static check that no task-isolated resource is captured by a spawned task. */
module Transfer {
  import opened Options
  import opened Sequences
  import opened TransferTypes
  import opened TransferSearch
  import opened TransferOrder

  /* The check itself: it stops at the first violation, sharing one set of keys
     that are being opened along the current path. */

  function First<T>(list: seq<T>): Option<T> {
    if list == [] then None else Some(list[0])
  }

  class Checker {
    const env: Environment
    const show: Show
    var visiting: set<Key>

    constructor (env: Environment, show: Show)
      ensures this.env == env && this.show == show && visiting == {}
    {
      this.env, this.show := env, show;
      visiting := {};
    }

    method Visit(item: Type, path: seq<Segment>, ghost universe: set<Type>) returns (violation: Option<Violation>)
      requires Covers(env, universe, item)
      modifies this`visiting
      ensures visiting == old(visiting)
      ensures violation == First(Found(env, show, universe, visiting, path, item))
      decreases Keys(show, universe) - visiting, item
    {
      hide Covers, Parts, Attributes, Concat, Found;
      if Isolated(env, item) {
        FoundHere(env, show, universe, visiting, path, item);
        return Some(Violation(path, item));
      }
      FoundSplits(env, show, universe, visiting, path, item);
      PartsCovered(env, universe, item);
      ghost var entered := visiting;
      var parts := Parts(item);
      ghost var below := InParts(env, show, universe, visiting, path, parts);
      for k := 0 to |parts|
        invariant visiting == entered
        invariant forall j :: 0 <= j < k ==> below[j] == []
      {
        var inner := Visit(parts[k].typ, path + parts[k].path, universe);
        if inner.Some? {
          ConcatFirst(below, k);
          return inner;
        }
      }
      ConcatEmpty(below);
      if !item.Nominal? || IsChannel(item) || item.name !in env {
        return None;
      }
      var key := KeyOf(show, item);
      if key in visiting {
        return None;
      }
      OpeningShrinks(env, show, universe, visiting, item);
      visiting := visiting + {key};
      var attributes := Attributes(env, item);
      ghost var within := InParts(env, show, universe, visiting, path, attributes);
      for k := 0 to |attributes|
        invariant visiting == entered + {key}
        invariant forall j :: 0 <= j < k ==> within[j] == []
      {
        var inner := Visit(attributes[k].typ, path + attributes[k].path, universe);
        if inner.Some? {
          ConcatFirst(within, k);
          visiting := visiting - {key};
          return inner;
        }
      }
      ConcatEmpty(within);
      visiting := visiting - {key};
      return None;
    }
  }

  function Universe(env: Environment, t: Type): set<Type> {
    Subterms(t)
    + set name, k, s | name in env && 0 <= k < |env[name].attributes| && s in Subterms(env[name].attributes[k].typ) :: s
  }

  lemma UniverseCovers(env: Environment, t: Type)
    ensures Covers(env, Universe(env, t), t)
  {
    hide Subterms;
  }

  // Every violation in traversal order; the check reports the first.
  ghost function AllViolations(env: Environment, show: Show, typ: Type, path: seq<Segment>): seq<Violation> {
    UniverseCovers(env, typ);
    Found(env, show, Universe(env, typ), {}, path, typ)
  }

  // There is no violation exactly when no isolated type is held at any depth.
  ghost predicate Exact(env: Environment, show: Show, typ: Type, path: seq<Segment>) {
    AllViolations(env, show, typ, path) == [] <==> forall at, u :: Reaches(env, typ, at, u) ==> !Isolated(env, u)
  }

  lemma CheckIsSound(env: Environment, show: Show, typ: Type, path: seq<Segment>, v: Violation)
    requires v in AllViolations(env, show, typ, path)
    ensures Located(env, path, typ, v)
  {
    UniverseCovers(env, typ);
    FoundIsLocated(env, show, Universe(env, typ), {}, path, typ, v);
  }

  lemma CheckIsExact(env: Environment, show: Show, typ: Type, path: seq<Segment>)
    requires SpelledApart(env)
    ensures Exact(env, show, typ, path)
  {
    UniverseCovers(env, typ);
    var universe := Universe(env, typ);
    var all := AllViolations(env, show, typ, path);
    hide Isolated, Found, Universe, Covers, ReachesBy, ReachesIn, SpelledApart;
    if all != [] {
      CheckIsSound(env, show, typ, path, all[0]);
    }
    forall at, u | Reaches(env, typ, at, u) && Isolated(env, u) ensures all != [] {
      var n: nat :| ReachesBy(env, n, typ, at, u);
      var m, at', v := FirstIsolated(env, show, n, typ, at, u);
      IsolatedIsFound(env, show, universe, {}, path, m, typ, at', v);
    }
  }

  // The check reports an isolated type that sits at the reported path. It misses nothing
  // when the objects it opens are spelled apart, even for definitions that refer to each
  // other and whatever renderings types share, and it then reports the first isolated
  // type: at each step down the path the earliest place that holds one.
  method ValidateTaskTransferType(typ: Type, env: Environment, show: Show, path: seq<Segment>)
    returns (violation: Option<Violation>)
    ensures violation == First(AllViolations(env, show, typ, path))
    ensures violation.Some? ==>
      && Isolated(env, violation.value.typ)
      && path <= violation.value.path
      && Reaches(env, typ, violation.value.path[|path|..], violation.value.typ)
    ensures SpelledApart(env) ==>
      (violation.None? <==> forall at, u :: Reaches(env, typ, at, u) ==> !Isolated(env, u))
    ensures SpelledApart(env) && violation.Some? ==> FirstIsLeftmost(env, show, {}, path, typ, violation.value)
  {
    var checker := new Checker(env, show);
    UniverseCovers(env, typ);
    violation := checker.Visit(typ, path, Universe(env, typ));
    hide Reaches, Isolated, Found, SpelledApart, FirstIsLeftmost, Universe, Covers;
    if violation.Some? {
      CheckIsSound(env, show, typ, path, violation.value);
    }
    if SpelledApart(env) {
      CheckIsExact(env, show, typ, path);
      if violation.Some? {
        FirstFound(env, show, Universe(env, typ), {}, path, typ);
      }
    }
  }
}
