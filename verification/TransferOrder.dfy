/** Which violation is the first: the one in the earliest place, all the way down. */
module TransferOrder {
  import opened Sequences
  import opened Symbols
  import opened TransferTypes
  import opened TransferSearch

  /** `u` is what `t` holds at its place number `k`, from left to right: the arguments of
      a nominal type by index and then its attributes in the order of the definition, the
      items of a tuple by index, the alternatives as listed, the base of a row and then
      its fields. */
  ghost predicate HeldAt(env: Environment, t: Type, k: nat, path: seq<Segment>, u: Type) {
    match t
    case Nominal(name, args, _) =>
      && name != Symbol("Channel", [])
      && if k < |args| then path == [TypeArgument(k)] && u == args[k]
         else
           && name in env && k - |args| < |env[name].attributes|
           && path == [Attribute(env[name].attributes[k - |args|].name)]
           && u == env[name].attributes[k - |args|].typ
    case Wrapped(_, inner) => k == 0 && path == [] && u == inner
    case Collection(_, base) => k == 0 && path == [Element] && u == base
    case Tuple(items) => k < |items| && path == [Index(k)] && u == items[k]
    case VariadicTuple(items) => k < |items| && path == [Index(k)] && u == items[k].typ
    case Union(items) => k < |items| && path == [] && u == items[k]
    case Intersection(items) => k < |items| && path == [] && u == items[k]
    case Row(base, fields, _) =>
      if k == 0 then path == [] && u == base
      else k - 1 < |fields| && path == [Attribute(fields[k - 1].name)] && u == fields[k - 1].typ
    case Task(_, _) => false
    case Callable(_, _, _) => false
    case Opaque(_) => false
  }

  // The traversal visits the places in this order.
  lemma PartsAreInPlace(env: Environment, t: Type, k: nat, part: Part)
    ensures HeldAt(env, t, k, part.path, part.typ) <==>
      || (k < |Parts(t)| && part == Parts(t)[k])
      || (|Parts(t)| <= k < |Parts(t)| + |Attributes(env, t)| && part == Attributes(env, t)[k - |Parts(t)|])
  {
    if t.Nominal? && !IsChannel(t) {
      assert |Parts(t)| == |t.args|;
    }
  }

  // The places hold exactly what the type holds.
  lemma PlacesHold(env: Environment, t: Type, path: seq<Segment>, u: Type)
    ensures Holds(env, t, path, u) <==> exists k: nat :: HeldAt(env, t, k, path, u)
  {
    var part := Part(path, u);
    PartsAreHeld(env, t, part);
    hide Holds, HeldAt, Parts, Attributes;
    if part in Parts(t) {
      var k :| 0 <= k < |Parts(t)| && Parts(t)[k] == part;
      PartsAreInPlace(env, t, k, part);
    }
    if part in Attributes(env, t) {
      var k :| 0 <= k < |Attributes(env, t)| && Attributes(env, t)[k] == part;
      PartsAreInPlace(env, t, |Parts(t)| + k, part);
    }
    if k: nat :| HeldAt(env, t, k, path, u) {
      PartsAreInPlace(env, t, k, part);
    }
  }

  /* Reaching past keys. */

  // A step into an attribute opens the key of the type that has it.
  ghost predicate OpensKey(t: Type, path: seq<Segment>) {
    t.Nominal? && path != [] && path[0].Attribute?
  }

  ghost function CutBehind(show: Show, cut: set<Key>, t: Type, path: seq<Segment>): set<Key> {
    if OpensKey(t, path) then cut + {Key(Dotted(t.name), show(t))} else cut
  }

  // One step inside `t` that opens no key in `cut`.
  ghost predicate StepPast(env: Environment, show: Show, cut: set<Key>, t: Type, path: seq<Segment>, u: Type) {
    Holds(env, t, path, u) && (OpensKey(t, path) ==> Key(Dotted(t.name), show(t)) !in cut)
  }

  ghost predicate ReachesPast(
    env: Environment, show: Show, cut: set<Key>, n: nat, t: Type, path: seq<Segment>, u: Type)
    decreases n
  {
    if n == 0 then t == u && path == []
    else
      exists part: Part, rest ::
        StepPast(env, show, cut, t, part.path, part.typ) && path == part.path + rest
        && ReachesPast(env, show, cut, n - 1, part.typ, rest, u)
  }

  /** An isolated type can be reached inside `t` without opening a key in `cut`. */
  ghost predicate HoldsIsolated(env: Environment, show: Show, cut: set<Key>, t: Type) {
    exists n: nat, at, u :: ReachesPast(env, show, cut, n, t, at, u) && Isolated(env, u)
  }

  lemma PastFirstStep(env: Environment, show: Show, cut: set<Key>, n: nat, t: Type, path: seq<Segment>, u: Type)
    returns (part: Part, rest: seq<Segment>)
    requires n > 0 && ReachesPast(env, show, cut, n, t, path, u)
    ensures StepPast(env, show, cut, t, part.path, part.typ) && path == part.path + rest
    ensures ReachesPast(env, show, cut, n - 1, part.typ, rest, u)
  {
    hide StepPast;
    part, rest :| StepPast(env, show, cut, t, part.path, part.typ) && path == part.path + rest
      && ReachesPast(env, show, cut, n - 1, part.typ, rest, u);
  }

  lemma PastOneMoreStep(
      env: Environment, show: Show, cut: set<Key>, n: nat, t: Type, part: Part, rest: seq<Segment>, u: Type)
    requires StepPast(env, show, cut, t, part.path, part.typ) && ReachesPast(env, show, cut, n, part.typ, rest, u)
    ensures ReachesPast(env, show, cut, n + 1, t, part.path + rest, u)
  {
    hide StepPast;
  }

  lemma PastNoStep(env: Environment, show: Show, cut: set<Key>, t: Type, path: seq<Segment>, u: Type)
    ensures ReachesPast(env, show, cut, 0, t, path, u) <==> t == u && path == []
  {
  }

  // The traversal takes just the steps that open no key in `cut`.
  lemma InsideIsStepPast(env: Environment, show: Show, cut: set<Key>, t: Type, part: Part)
    requires !Isolated(env, t)
    ensures part in Inside(env, show, cut, t) <==> StepPast(env, show, cut, t, part.path, part.typ)
  {
    InsideMembers(env, show, cut, t, part);
    PartsAreHeld(env, t, part);
    AttributesOpen(env, t, part);
    hide Holds, Parts, Attributes;
  }

  lemma AttributesOpen(env: Environment, t: Type, part: Part)
    ensures part in Parts(t) ==> !OpensKey(t, part.path)
    ensures part in Attributes(env, t) ==> OpensKey(t, part.path) && !IsChannel(t) && t.name in env
  {
  }

  lemma {:induction false} InsideIsPast(
      env: Environment, show: Show, cut: set<Key>, n: nat, t: Type, path: seq<Segment>, u: Type)
    requires ReachesIn(env, show, cut, n, t, path, u)
    ensures ReachesPast(env, show, cut, n, t, path, u)
    decreases n
  {
    hide StepPast, Inside, ReachesIn, ReachesPast, Isolated;
    if n == 0 {
      NoStep(env, show, cut, t, path, u);
      PastNoStep(env, show, cut, t, path, u);
    } else {
      var part, rest := FirstStep(env, show, cut, n, t, path, u);
      InsideIsPast(env, show, cut, n - 1, part.typ, rest, u);
      NoneInsideIsolated(env, show, cut, t, part);
      InsideIsStepPast(env, show, cut, t, part);
      PastOneMoreStep(env, show, cut, n - 1, t, part, rest, u);
    }
  }

  lemma NoneInsideIsolated(env: Environment, show: Show, cut: set<Key>, t: Type, part: Part)
    requires part in Inside(env, show, cut, t)
    ensures !Isolated(env, t)
  {
  }

  lemma {:induction false} PastIsInside(
      env: Environment, show: Show, cut: set<Key>, n: nat, t: Type, path: seq<Segment>, u: Type)
    returns (m: nat, at: seq<Segment>, v: Type)
    requires ReachesPast(env, show, cut, n, t, path, u) && Isolated(env, u)
    ensures ReachesIn(env, show, cut, m, t, at, v) && Isolated(env, v)
    decreases n
  {
    hide StepPast, Inside, ReachesIn, ReachesPast, Isolated;
    if Isolated(env, t) {
      m, at, v := 0, [], t;
      NoStep(env, show, cut, t, [], t);
    } else {
      PastNoStep(env, show, cut, t, path, u);
      var part, rest := PastFirstStep(env, show, cut, n, t, path, u);
      m, at, v := PastIsInside(env, show, cut, n - 1, part.typ, rest, u);
      InsideIsStepPast(env, show, cut, t, part);
      OneMoreStep(env, show, cut, m, t, part, at, v);
      m, at := m + 1, part.path + at;
    }
  }

  // The search finds something exactly when an isolated type can be reached without
  // opening the keys that are being opened.
  lemma FoundExactly(
      env: Environment, show: Show, universe: set<Type>, visiting: set<Key>, path: seq<Segment>, t: Type)
    requires SpelledApart(env) && Covers(env, universe, t)
    ensures Found(env, show, universe, visiting, path, t) != [] <==> HoldsIsolated(env, show, visiting, t)
  {
    hide Found, Covers, ReachesIn, ReachesPast, Isolated, SpelledApart;
    var found := Found(env, show, universe, visiting, path, t);
    if found != [] {
      var v := found[0];
      FoundIsMet(env, show, universe, visiting, path, t, v);
      var n: nat :| ReachesIn(env, show, visiting, n, t, v.path[|path|..], v.typ);
      InsideIsPast(env, show, visiting, n, t, v.path[|path|..], v.typ);
    }
    if n: nat, at, u :| ReachesPast(env, show, visiting, n, t, at, u) && Isolated(env, u) {
      var m, at', v := PastIsInside(env, show, visiting, n, t, at, u);
      IsolatedIsFound(env, show, universe, visiting, path, m, t, at', v);
    }
  }

  /* The first violation. */

  // No place of `t` before the one numbered `k` holds an isolated type.
  ghost predicate NothingBefore(env: Environment, show: Show, cut: set<Key>, t: Type, k: nat) {
    forall j: nat, path, u :: j < k && HeldAt(env, t, j, path, u) ==>
      !HoldsIsolated(env, show, CutBehind(show, cut, t, path), u)
  }

  /** `u` is the first isolated type in `t`: at each step down to it, in the earliest
      place that holds an isolated type. A key that has been opened on the way is not
      opened again. */
  ghost predicate Leftmost(
    env: Environment, show: Show, cut: set<Key>, n: nat, t: Type, path: seq<Segment>, u: Type)
    decreases n
  {
    if n == 0 then t == u && path == [] && Isolated(env, t)
    else
      && !Isolated(env, t)
      && exists k: nat, part: Part, rest ::
           && HeldAt(env, t, k, part.path, part.typ) && StepPast(env, show, cut, t, part.path, part.typ)
           && path == part.path + rest
           && NothingBefore(env, show, cut, t, k)
           && Leftmost(env, show, CutBehind(show, cut, t, part.path), n - 1, part.typ, rest, u)
  }

  lemma LeftmostStep(
      env: Environment, show: Show, cut: set<Key>, n: nat, t: Type, k: nat, part: Part, rest: seq<Segment>, u: Type)
    requires !Isolated(env, t)
    requires HeldAt(env, t, k, part.path, part.typ) && StepPast(env, show, cut, t, part.path, part.typ)
    requires NothingBefore(env, show, cut, t, k)
    requires Leftmost(env, show, CutBehind(show, cut, t, part.path), n, part.typ, rest, u)
    ensures Leftmost(env, show, cut, n + 1, t, part.path + rest, u)
  {
    hide HeldAt, StepPast, NothingBefore, CutBehind, Isolated;
  }

  lemma LeftmostFirstStep(env: Environment, show: Show, cut: set<Key>, n: nat, t: Type, path: seq<Segment>, u: Type)
    returns (k: nat, part: Part, rest: seq<Segment>)
    requires n > 0 && Leftmost(env, show, cut, n, t, path, u)
    ensures !Isolated(env, t) && path == part.path + rest
    ensures HeldAt(env, t, k, part.path, part.typ) && StepPast(env, show, cut, t, part.path, part.typ)
    ensures NothingBefore(env, show, cut, t, k)
    ensures Leftmost(env, show, CutBehind(show, cut, t, part.path), n - 1, part.typ, rest, u)
  {
    hide HeldAt, StepPast, NothingBefore, CutBehind, Isolated;
    k, part, rest :|
      && HeldAt(env, t, k, part.path, part.typ) && StepPast(env, show, cut, t, part.path, part.typ)
      && path == part.path + rest
      && NothingBefore(env, show, cut, t, k)
      && Leftmost(env, show, CutBehind(show, cut, t, part.path), n - 1, part.typ, rest, u);
  }

  // The first violation found is the first isolated type.
  ghost predicate FirstIsLeftmost(
    env: Environment, show: Show, cut: set<Key>, path: seq<Segment>, t: Type, v: Violation)
  {
    path <= v.path && exists n: nat :: Leftmost(env, show, cut, n, t, v.path[|path|..], v.typ)
  }

  lemma FirstNonEmpty<T>(lists: seq<seq<T>>) returns (k: nat)
    requires Concat(lists) != []
    ensures k < |lists| && lists[k] != [] && forall j :: 0 <= j < k ==> lists[j] == []
  {
    ConcatEmpty(lists);
    k := 0;
    while lists[k] == []
      invariant k < |lists| && forall j :: 0 <= j < k ==> lists[j] == []
      decreases |lists| - k
    {
      if k + 1 == |lists| {
        assert forall j :: 0 <= j < |lists| ==> lists[j] == [];
        assert false;
      }
      k := k + 1;
    }
  }

  // Nothing was found in the parts before the one numbered `k`.
  lemma NothingInParts(
      env: Environment, show: Show, universe: set<Type>, visiting: set<Key>, path: seq<Segment>, t: Type, k: nat)
    requires SpelledApart(env) && !Isolated(env, t) && k <= |Parts(t)|
    requires forall j :: 0 <= j < |Parts(t)| ==> Covers(env, universe, Parts(t)[j].typ)
    requires forall j :: 0 <= j < k ==> InParts(env, show, universe, visiting, path, Parts(t))[j] == []
    ensures NothingBefore(env, show, visiting, t, k)
  {
    hide Found, Covers, HeldAt, Parts, Attributes, SpelledApart, HoldsIsolated;
    forall j: nat, at, u | j < k && HeldAt(env, t, j, at, u)
      ensures !HoldsIsolated(env, show, CutBehind(show, visiting, t, at), u)
    {
      PartsAreInPlace(env, t, j, Part(at, u));
      AttributesOpen(env, t, Part(at, u));
      assert Parts(t)[j] in Parts(t);
      assert InParts(env, show, universe, visiting, path, Parts(t))[j] == [];
      FoundExactly(env, show, universe, visiting, path + at, u);
    }
  }

  // ... nor in the attributes before the one numbered `k`.
  lemma NothingInAttributes(
      env: Environment, show: Show, universe: set<Type>, visiting: set<Key>, path: seq<Segment>, t: Type, k: nat)
    requires SpelledApart(env) && NothingBefore(env, show, visiting, t, |Parts(t)|) && t.Nominal?
    requires k <= |Attributes(env, t)|
    requires forall j :: 0 <= j < |Attributes(env, t)| ==> Covers(env, universe, Attributes(env, t)[j].typ)
    requires forall j :: 0 <= j < k ==>
      InParts(env, show, universe, visiting + {KeyOf(show, t)}, path, Attributes(env, t))[j] == []
    ensures NothingBefore(env, show, visiting, t, |Parts(t)| + k)
  {
    hide Found, Covers, HeldAt, Parts, Attributes, SpelledApart, HoldsIsolated;
    forall j: nat, at, u | |Parts(t)| <= j < |Parts(t)| + k && HeldAt(env, t, j, at, u)
      ensures !HoldsIsolated(env, show, CutBehind(show, visiting, t, at), u)
    {
      PartsAreInPlace(env, t, j, Part(at, u));
      var attribute := Attributes(env, t)[j - |Parts(t)|];
      assert InParts(env, show, universe, visiting + {KeyOf(show, t)}, path, Attributes(env, t))[j - |Parts(t)|] == [];
      assert attribute in Attributes(env, t);
      AttributesOpen(env, t, attribute);
      FoundExactly(env, show, universe, visiting + {KeyOf(show, t)}, path + at, u);
    }
  }

  lemma LeftmostInPlace(
      env: Environment, show: Show, cut: set<Key>, path: seq<Segment>, t: Type, k: nat, part: Part, v: Violation)
    requires !Isolated(env, t) && part in Inside(env, show, cut, t)
    requires HeldAt(env, t, k, part.path, part.typ) && NothingBefore(env, show, cut, t, k)
    requires FirstIsLeftmost(env, show, CutBehind(show, cut, t, part.path), path + part.path, part.typ, v)
    ensures FirstIsLeftmost(env, show, cut, path, t, v)
  {
    hide HeldAt, Inside, NothingBefore, Leftmost, CutBehind, Isolated;
    var rest := v.path[|path + part.path|..];
    var n: nat :| Leftmost(env, show, CutBehind(show, cut, t, part.path), n, part.typ, rest, v.typ);
    InsideIsStepPast(env, show, cut, t, part);
    LeftmostStep(env, show, cut, n, t, k, part, rest, v.typ);
    assert v.path == path + part.path + rest;
    assert v.path[|path|..] == part.path + rest;
  }

  lemma LeftmostHere(env: Environment, show: Show, cut: set<Key>, path: seq<Segment>, t: Type)
    requires Isolated(env, t)
    ensures FirstIsLeftmost(env, show, cut, path, t, Violation(path, t))
  {
    assert path[|path|..] == [];
    assert Leftmost(env, show, cut, 0, t, [], t);
  }

  // The first violation in traversal order is the first isolated type.
  lemma {:induction false} FirstFound(
      env: Environment, show: Show, universe: set<Type>, visiting: set<Key>, path: seq<Segment>, t: Type)
    requires SpelledApart(env) && Covers(env, universe, t)
    requires Found(env, show, universe, visiting, path, t) != []
    ensures FirstIsLeftmost(env, show, visiting, path, t, Found(env, show, universe, visiting, path, t)[0])
    decreases Keys(show, universe) - visiting, t
  {
    hide Parts, Attributes, Covers, Found, Inside, Isolated, SpelledApart, FirstIsLeftmost, NothingBefore, HeldAt;
    if Isolated(env, t) {
      FoundHere(env, show, universe, visiting, path, t);
      LeftmostHere(env, show, visiting, path, t);
    } else {
      PartsCovered(env, universe, t);
      FoundSplits(env, show, universe, visiting, path, t);
      var parts, attributes := Parts(t), Attributes(env, t);
      var below := InParts(env, show, universe, visiting, path, parts);
      if Concat(below) != [] {
        var k := FirstNonEmpty(below);
        ConcatFirst(below, k);
        FirstFound(env, show, universe, visiting, path + parts[k].path, parts[k].typ);
        NothingInParts(env, show, universe, visiting, path, t, k);
        FirstInPart(env, show, visiting, path, t, k, below[k][0]);
      } else {
        ConcatEmpty(below);
        NothingInParts(env, show, universe, visiting, path, t, |parts|);
        var opening := visiting + {KeyOf(show, t)};
        var inner := InParts(env, show, universe, opening, path, attributes);
        assert [] + Concat(inner) == Concat(inner);
        var k := FirstNonEmpty(inner);
        ConcatFirst(inner, k);
        OpeningShrinks(env, show, universe, visiting, t);
        FirstFound(env, show, universe, opening, path + attributes[k].path, attributes[k].typ);
        NothingInAttributes(env, show, universe, visiting, path, t, k);
        FirstInAttribute(env, show, visiting, path, t, k, inner[k][0]);
      }
    }
  }

  lemma FirstInPart(
      env: Environment, show: Show, cut: set<Key>, path: seq<Segment>, t: Type, k: nat, v: Violation)
    requires !Isolated(env, t) && k < |Parts(t)| && NothingBefore(env, show, cut, t, k)
    requires FirstIsLeftmost(env, show, cut, path + Parts(t)[k].path, Parts(t)[k].typ, v)
    ensures FirstIsLeftmost(env, show, cut, path, t, v)
  {
    hide Parts, Inside, Isolated, FirstIsLeftmost, NothingBefore, HeldAt;
    var part := Parts(t)[k];
    assert part in Parts(t);
    AttributesOpen(env, t, part);
    PartsAreInPlace(env, t, k, part);
    InsideMembers(env, show, cut, t, part);
    LeftmostInPlace(env, show, cut, path, t, k, part, v);
  }

  lemma FirstInAttribute(
      env: Environment, show: Show, cut: set<Key>, path: seq<Segment>, t: Type, k: nat, v: Violation)
    requires !Isolated(env, t) && Opened(env, show, cut, t) && k < |Attributes(env, t)|
    requires NothingBefore(env, show, cut, t, |Parts(t)| + k)
    requires FirstIsLeftmost(
               env, show, cut + {KeyOf(show, t)}, path + Attributes(env, t)[k].path, Attributes(env, t)[k].typ, v)
    ensures FirstIsLeftmost(env, show, cut, path, t, v)
  {
    hide Parts, Attributes, Inside, Isolated, FirstIsLeftmost, NothingBefore, HeldAt;
    var part := Attributes(env, t)[k];
    assert part in Attributes(env, t);
    AttributesOpen(env, t, part);
    PartsAreInPlace(env, t, |Parts(t)| + k, part);
    InsideMembers(env, show, cut, t, part);
    LeftmostInPlace(env, show, cut, path, t, |Parts(t)| + k, part, v);
  }

  /* There is one first isolated type. */

  lemma PlaceHoldsOne(env: Environment, t: Type, k: nat, a: Part, b: Part)
    requires HeldAt(env, t, k, a.path, a.typ) && HeldAt(env, t, k, b.path, b.typ)
    ensures a == b
  {
  }

  // Reaching past keys is not hindered by opening fewer.
  lemma {:induction false} LeftmostIsReached(
      env: Environment, show: Show, cut: set<Key>, n: nat, t: Type, path: seq<Segment>, u: Type)
    requires Leftmost(env, show, cut, n, t, path, u)
    ensures ReachesPast(env, show, cut, n, t, path, u) && Isolated(env, u)
    decreases n
  {
    hide Leftmost, ReachesPast, HeldAt, StepPast, NothingBefore, Isolated;
    if n == 0 {
      LeftmostNoStep(env, show, cut, t, path, u);
      PastNoStep(env, show, cut, t, path, u);
    } else {
      var k, part, rest := LeftmostFirstStep(env, show, cut, n, t, path, u);
      LeftmostIsReached(env, show, CutBehind(show, cut, t, part.path), n - 1, part.typ, rest, u);
      PastCutLess(env, show, cut, CutBehind(show, cut, t, part.path), n - 1, part.typ, rest, u);
      PastOneMoreStep(env, show, cut, n - 1, t, part, rest, u);
    }
  }

  lemma {:induction false} PastCutLess(
      env: Environment, show: Show, cut: set<Key>, more: set<Key>, n: nat, t: Type, path: seq<Segment>, u: Type)
    requires cut <= more && ReachesPast(env, show, more, n, t, path, u)
    ensures ReachesPast(env, show, cut, n, t, path, u)
    decreases n
  {
    hide ReachesPast, Holds, OpensKey;
    if n == 0 {
      PastNoStep(env, show, more, t, path, u);
      PastNoStep(env, show, cut, t, path, u);
    } else {
      var part, rest := PastFirstStep(env, show, more, n, t, path, u);
      PastCutLess(env, show, cut, more, n - 1, part.typ, rest, u);
      PastOneMoreStep(env, show, cut, n - 1, t, part, rest, u);
    }
  }

  lemma LeftmostHoldsIsolated(
      env: Environment, show: Show, cut: set<Key>, n: nat, t: Type, path: seq<Segment>, u: Type)
    requires Leftmost(env, show, cut, n, t, path, u)
    ensures HoldsIsolated(env, show, cut, t)
  {
    hide Leftmost, ReachesPast, Isolated;
    LeftmostIsReached(env, show, cut, n, t, path, u);
  }

  lemma LeftmostNow(env: Environment, show: Show, cut: set<Key>, n: nat, t: Type, at: seq<Segment>, u: Type)
    requires Leftmost(env, show, cut, n, t, at, u)
    ensures n == 0 <==> Isolated(env, t)
  {
  }

  lemma LeftmostNoStep(env: Environment, show: Show, cut: set<Key>, t: Type, at: seq<Segment>, u: Type)
    ensures Leftmost(env, show, cut, 0, t, at, u) <==> t == u && at == [] && Isolated(env, t)
  {
  }

  // At most one type is the first isolated one, at one path.
  lemma {:induction false} LeftmostIsUnique(
      env: Environment, show: Show, cut: set<Key>, t: Type, m: nat, at: seq<Segment>, u: Type, n: nat,
      path: seq<Segment>, v: Type)
    requires Leftmost(env, show, cut, m, t, at, u) && Leftmost(env, show, cut, n, t, path, v)
    ensures at == path && u == v
    decreases m
  {
    hide Leftmost, HeldAt, StepPast, Isolated, HoldsIsolated, CutBehind;
    LeftmostNoStep(env, show, cut, t, at, u);
    LeftmostNoStep(env, show, cut, t, path, v);
    if m == 0 || n == 0 {
      LeftmostNow(env, show, cut, m, t, at, u);
      LeftmostNow(env, show, cut, n, t, path, v);
    } else {
      var j, a, more := LeftmostFirstStep(env, show, cut, m, t, at, u);
      var k, b, rest := LeftmostFirstStep(env, show, cut, n, t, path, v);
      LeftmostHoldsIsolated(env, show, CutBehind(show, cut, t, a.path), m - 1, a.typ, more, u);
      LeftmostHoldsIsolated(env, show, CutBehind(show, cut, t, b.path), n - 1, b.typ, rest, v);
      assert j == k;
      PlaceHoldsOne(env, t, k, a, b);
      LeftmostIsUnique(env, show, CutBehind(show, cut, t, a.path), a.typ, m - 1, more, u, n - 1, rest, v);
    }
  }

  /* In terms of what types hold. */

  lemma {:induction false} PastNothingIsHeld(
      env: Environment, show: Show, n: nat, t: Type, path: seq<Segment>, u: Type)
    ensures ReachesPast(env, show, {}, n, t, path, u) <==> ReachesBy(env, n, t, path, u)
    decreases n
  {
    hide ReachesPast, ReachesBy, Holds, OpensKey;
    if n == 0 {
      PastNoStep(env, show, {}, t, path, u);
      HeldNoStep(env, t, path, u);
    } else {
      if ReachesPast(env, show, {}, n, t, path, u) {
        var part, rest := PastFirstStep(env, show, {}, n, t, path, u);
        PastNothingIsHeld(env, show, n - 1, part.typ, rest, u);
        HeldOneMoreStep(env, n - 1, t, part, rest, u);
      }
      if ReachesBy(env, n, t, path, u) {
        var part, rest := HeldFirstStep(env, n, t, path, u);
        PastNothingIsHeld(env, show, n - 1, part.typ, rest, u);
        PastOneMoreStep(env, show, {}, n - 1, t, part, rest, u);
      }
    }
  }

  // An isolated type is held at any depth.
  ghost predicate CarriesIsolated(env: Environment, t: Type) {
    exists at, u :: Reaches(env, t, at, u) && Isolated(env, u)
  }

  lemma HoldsAnyIsolated(env: Environment, show: Show, t: Type)
    ensures HoldsIsolated(env, show, {}, t) <==> CarriesIsolated(env, t)
  {
    hide ReachesPast, ReachesBy, Isolated;
    if n: nat, at, u :| ReachesPast(env, show, {}, n, t, at, u) && Isolated(env, u) {
      PastNothingIsHeld(env, show, n, t, at, u);
      assert Reaches(env, t, at, u);
    }
    if at, u :| Reaches(env, t, at, u) && Isolated(env, u) {
      var n: nat :| ReachesBy(env, n, t, at, u);
      PastNothingIsHeld(env, show, n, t, at, u);
    }
  }

  lemma PlaceOpens(env: Environment, show: Show, t: Type, k: nat, path: seq<Segment>, u: Type)
    requires HeldAt(env, t, k, path, u)
    ensures CutBehind(show, {}, t, path) ==
      if t.Nominal? && k >= |t.args| then {Key(Dotted(t.name), show(t))} else {}
  {
  }

  // The first isolated type in a captured type lies in its earliest place that carries
  // one: of the arguments the first that carries one; only if none does, of the
  // attributes the first that carries one reached without opening the captured type
  // again; for every other type the first part that carries one.
  lemma FirstPlace(env: Environment, show: Show, n: nat, t: Type, at: seq<Segment>, u: Type)
    returns (k: nat, part: Part)
    requires Leftmost(env, show, {}, n, t, at, u) && !Isolated(env, t)
    ensures HeldAt(env, t, k, part.path, part.typ)
    ensures part.path <= at && Reaches(env, part.typ, at[|part.path|..], u)
    ensures forall j: nat, path, v :: j < k && HeldAt(env, t, j, path, v) ==>
      if t.Nominal? && j >= |t.args| then !HoldsIsolated(env, show, {Key(Dotted(t.name), show(t))}, v)
      else !CarriesIsolated(env, v)
  {
    var rest;
    hide Leftmost, StepPast, Isolated, HoldsIsolated, CarriesIsolated, ReachesPast, ReachesBy;
    LeftmostNow(env, show, {}, n, t, at, u);
    k, part, rest := LeftmostFirstStep(env, show, {}, n, t, at, u);
    var cut := CutBehind(show, {}, t, part.path);
    LeftmostIsReached(env, show, cut, n - 1, part.typ, rest, u);
    PastCutLess(env, show, {}, cut, n - 1, part.typ, rest, u);
    PastNothingIsHeld(env, show, n - 1, part.typ, rest, u);
    assert at[|part.path|..] == rest;
    forall j: nat, path, v | j < k && HeldAt(env, t, j, path, v)
      ensures if t.Nominal? && j >= |t.args| then !HoldsIsolated(env, show, {Key(Dotted(t.name), show(t))}, v)
              else !CarriesIsolated(env, v)
    {
      HoldsAnyIsolated(env, show, v);
      PlaceOpens(env, show, t, j, path, v);
    }
  }
}
