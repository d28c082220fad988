/** What the transfer check looks for: the violations in a type in traversal order. */
module TransferSearch {
  import opened Sequences
  import opened Symbols
  import opened TransferTypes

  /** How types are rendered. Nothing is asked of it: different types may share a
      rendering, and the check must be right all the same. */
  type Show = Type -> string

  /** What stands for a nominal type that is being opened. */
  datatype Key = Key(spelling: string, rendering: string)

  function KeyOf(show: Show, t: Type): Key
    requires t.Nominal?
  {
    Key(Dotted(t.name), show(t))
  }

  // Are the attributes of `t` looked up at all? Channels are a boundary, and an
  // isolated type is reported instead.
  predicate Opens(env: Environment, t: Type) {
    t.Nominal? && !IsChannel(t) && t.name in env && !env[t.name].taskIsolated
  }

  // They are not when a type with the same key is being opened further up.
  predicate Opened(env: Environment, show: Show, visiting: set<Key>, t: Type) {
    Opens(env, t) && KeyOf(show, t) !in visiting
  }

  /** Objects that are opened and spelled alike have the same attributes. */
  ghost predicate SpelledApart(env: Environment) {
    forall m, n ::
      m in env && n in env && !env[m].taskIsolated && !env[n].taskIsolated && Dotted(m) == Dotted(n) ==>
        env[m].attributes == env[n].attributes
  }

  lemma SameKeySameAttributes(env: Environment, show: Show, t: Type, u: Type)
    requires SpelledApart(env) && Opens(env, t) && Opens(env, u)
    requires KeyOf(show, t) == KeyOf(show, u)
    ensures Attributes(env, t) == Attributes(env, u)
  {
    assert env[t.name].attributes == env[u.name].attributes;
  }

  // The types one step inside `t` for the traversal, when the keys in `cut` are not
  // opened: it does not look behind an isolated type.
  function Inside(env: Environment, show: Show, cut: set<Key>, t: Type): seq<Part> {
    if Isolated(env, t) then []
    else Parts(t) + if Opened(env, show, cut, t) then Attributes(env, t) else []
  }

  ghost predicate ReachesIn(
    env: Environment, show: Show, cut: set<Key>, n: nat, t: Type, path: seq<Segment>, u: Type)
    decreases n
  {
    if n == 0 then t == u && path == []
    else
      exists part, rest ::
        && part in Inside(env, show, cut, t) && path == part.path + rest
        && ReachesIn(env, show, cut, n - 1, part.typ, rest, u)
  }

  lemma FirstStep(env: Environment, show: Show, cut: set<Key>, n: nat, t: Type, path: seq<Segment>, u: Type)
    returns (part: Part, rest: seq<Segment>)
    requires n > 0 && ReachesIn(env, show, cut, n, t, path, u)
    ensures part in Inside(env, show, cut, t) && path == part.path + rest
    ensures ReachesIn(env, show, cut, n - 1, part.typ, rest, u)
  {
    hide Inside;
    part, rest :| part in Inside(env, show, cut, t) && path == part.path + rest
      && ReachesIn(env, show, cut, n - 1, part.typ, rest, u);
  }

  lemma OneMoreStep(
      env: Environment, show: Show, cut: set<Key>, n: nat, t: Type, part: Part, rest: seq<Segment>, u: Type)
    requires part in Inside(env, show, cut, t) && ReachesIn(env, show, cut, n, part.typ, rest, u)
    ensures ReachesIn(env, show, cut, n + 1, t, part.path + rest, u)
  {
    hide Inside;
  }

  lemma NoStep(env: Environment, show: Show, cut: set<Key>, t: Type, path: seq<Segment>, u: Type)
    ensures ReachesIn(env, show, cut, 0, t, path, u) <==> t == u && path == []
  {
  }

  lemma InsideMembers(env: Environment, show: Show, cut: set<Key>, t: Type, part: Part)
    ensures part in Inside(env, show, cut, t) <==>
      !Isolated(env, t) && (part in Parts(t) || (Opened(env, show, cut, t) && part in Attributes(env, t)))
  {
    hide Parts, Attributes, Opened, Isolated;
    var parts, attributes := Parts(t), Attributes(env, t);
    if part in parts {
      var k :| 0 <= k < |parts| && parts[k] == part;
      assert (parts + attributes)[k] == part && (parts + [])[k] == part;
    }
    if part in attributes {
      var k :| 0 <= k < |attributes| && attributes[k] == part;
      assert (parts + attributes)[|parts| + k] == part;
    }
  }

  /* The traversal against what types hold. */

  lemma HeldFirstStep(env: Environment, n: nat, t: Type, path: seq<Segment>, u: Type)
    returns (part: Part, rest: seq<Segment>)
    requires n > 0 && ReachesBy(env, n, t, path, u)
    ensures Holds(env, t, part.path, part.typ) && path == part.path + rest
    ensures ReachesBy(env, n - 1, part.typ, rest, u)
  {
    hide Holds;
    part, rest :| Holds(env, t, part.path, part.typ) && path == part.path + rest
      && ReachesBy(env, n - 1, part.typ, rest, u);
  }

  lemma HeldOneMoreStep(env: Environment, n: nat, t: Type, part: Part, rest: seq<Segment>, u: Type)
    requires Holds(env, t, part.path, part.typ) && ReachesBy(env, n, part.typ, rest, u)
    ensures ReachesBy(env, n + 1, t, part.path + rest, u)
  {
    hide Holds;
  }

  lemma HeldNoStep(env: Environment, t: Type, path: seq<Segment>, u: Type)
    ensures ReachesBy(env, 0, t, path, u) <==> t == u && path == []
  {
  }

  // Whatever the traversal reaches is held.
  lemma {:induction false} InsideIsHeld(
      env: Environment, show: Show, cut: set<Key>, n: nat, t: Type, path: seq<Segment>, u: Type)
    requires ReachesIn(env, show, cut, n, t, path, u)
    ensures ReachesBy(env, n, t, path, u)
    decreases n
  {
    hide Holds, Parts, Attributes, Inside, ReachesIn, ReachesBy;
    if n == 0 {
      NoStep(env, show, cut, t, path, u);
      HeldNoStep(env, t, path, u);
    } else {
      var part, rest := FirstStep(env, show, cut, n, t, path, u);
      InsideIsHeld(env, show, cut, n - 1, part.typ, rest, u);
      InsideMembers(env, show, cut, t, part);
      PartsAreHeld(env, t, part);
      HeldOneMoreStep(env, n - 1, t, part, rest, u);
    }
  }

  // On the way to an isolated type the traversal, cutting nothing, reaches one.
  lemma {:induction false} FirstIsolated(
      env: Environment, show: Show, n: nat, t: Type, path: seq<Segment>, u: Type)
    returns (m: nat, at: seq<Segment>, v: Type)
    requires ReachesBy(env, n, t, path, u) && Isolated(env, u)
    ensures ReachesIn(env, show, {}, m, t, at, v) && Isolated(env, v)
    decreases n
  {
    hide Holds, Parts, Inside, ReachesIn, ReachesBy;
    if Isolated(env, t) {
      m, at, v := 0, [], t;
      NoStep(env, show, {}, t, [], t);
    } else if n == 0 {
      HeldNoStep(env, t, path, u);
      assert false;
    } else {
      var part, rest := HeldFirstStep(env, n, t, path, u);
      m, at, v := FirstIsolated(env, show, n - 1, part.typ, rest, u);
      PartsAreHeld(env, t, part);
      InsideMembers(env, show, {}, t, part);
      OneMoreStep(env, show, {}, m, t, part, at, v);
      m, at := m + 1, part.path + at;
    }
  }

  // The traversal reaches an isolated type exactly when one is held.
  lemma ReachesBothWays(env: Environment, show: Show, t: Type)
    ensures (exists n: nat, at, u :: ReachesIn(env, show, {}, n, t, at, u) && Isolated(env, u)) <==>
      (exists at, u :: Reaches(env, t, at, u) && Isolated(env, u))
  {
    hide Isolated, ReachesIn, ReachesBy;
    if n: nat, at, u :| ReachesIn(env, show, {}, n, t, at, u) && Isolated(env, u) {
      InsideIsHeld(env, show, {}, n, t, at, u);
      assert Reaches(env, t, at, u);
    }
    if at, u :| Reaches(env, t, at, u) && Isolated(env, u) {
      var n: nat :| ReachesBy(env, n, t, at, u);
      var m, at', v := FirstIsolated(env, show, n, t, at, u);
    }
  }

  /* The search. */

  function Subterms(t: Type): set<Type>
    decreases t
  {
    {t} + set k, s | 0 <= k < |Parts(t)| && s in Subterms(Parts(t)[k].typ) :: s
  }

  // `universe` holds every type the search can meet below `t`.
  ghost predicate Covers(env: Environment, universe: set<Type>, t: Type) {
    && Subterms(t) <= universe
    && forall name, k :: name in env && 0 <= k < |env[name].attributes| ==>
         Subterms(env[name].attributes[k].typ) <= universe
  }

  function Keys(show: Show, universe: set<Type>): set<Key> {
    set t | t in universe && t.Nominal? :: KeyOf(show, t)
  }

  // Every violation in `t` in traversal order, not opening nominal types with a
  // key in `visiting`: those are being opened further up.
  ghost function Found(
    env: Environment, show: Show, universe: set<Type>, visiting: set<Key>, path: seq<Segment>, t: Type):
    seq<Violation>
    requires Covers(env, universe, t)
    decreases Keys(show, universe) - visiting, t
  {
    if Isolated(env, t) then [Violation(path, t)]
    else
      var parts, attributes := Parts(t), Attributes(env, t);
      PartsCovered(env, universe, t);
      Concat(seq(|parts|, k requires 0 <= k < |parts| =>
        Found(env, show, universe, visiting, path + parts[k].path, parts[k].typ)))
      + if !Opened(env, show, visiting, t) then []
        else
          Concat(seq(|attributes|, k requires 0 <= k < |attributes| =>
            Found(env, show, universe, visiting + {KeyOf(show, t)}, path + attributes[k].path, attributes[k].typ)))
  }

  lemma PartsCovered(env: Environment, universe: set<Type>, t: Type)
    requires Covers(env, universe, t)
    ensures t in universe
    ensures forall k :: 0 <= k < |Parts(t)| ==> Covers(env, universe, Parts(t)[k].typ)
    ensures forall k :: 0 <= k < |Attributes(env, t)| ==> Covers(env, universe, Attributes(env, t)[k].typ)
  {
    assert t in Subterms(t);
    forall k | 0 <= k < |Parts(t)| ensures Covers(env, universe, Parts(t)[k].typ) {
      assert Subterms(Parts(t)[k].typ) <= Subterms(t);
    }
  }

  /* Soundness: what is found is isolated and sits where the path says. */

  ghost predicate Located(env: Environment, path: seq<Segment>, t: Type, v: Violation) {
    && Isolated(env, v.typ)
    && path <= v.path
    && Reaches(env, t, v.path[|path|..], v.typ)
  }

  // ... and is reached without opening the keys in `cut`.
  ghost predicate Met(env: Environment, show: Show, cut: set<Key>, path: seq<Segment>, t: Type, v: Violation) {
    && Isolated(env, v.typ)
    && path <= v.path
    && exists n: nat :: ReachesIn(env, show, cut, n, t, v.path[|path|..], v.typ)
  }

  lemma MetInPart(
      env: Environment, show: Show, cut: set<Key>, path: seq<Segment>, t: Type, part: Part, v: Violation)
    requires part in Inside(env, show, cut, t) && Met(env, show, cut, path + part.path, part.typ, v)
    ensures Met(env, show, cut, path, t, v)
  {
    hide ReachesIn, Inside;
    var rest := v.path[|path + part.path|..];
    var n: nat :| ReachesIn(env, show, cut, n, part.typ, rest, v.typ);
    OneMoreStep(env, show, cut, n, t, part, rest, v.typ);
    assert v.path == path + part.path + rest;
    assert v.path[|path|..] == part.path + rest;
  }

  lemma MetHere(env: Environment, show: Show, cut: set<Key>, path: seq<Segment>, t: Type)
    requires Isolated(env, t)
    ensures Met(env, show, cut, path, t, Violation(path, t))
  {
    NoStep(env, show, cut, t, [], t);
    assert path[|path|..] == [];
  }

  // What is reached without opening more keys is reached without opening fewer.
  lemma {:induction false} CutLess(
      env: Environment, show: Show, cut: set<Key>, more: set<Key>, n: nat, t: Type, path: seq<Segment>, u: Type)
    requires cut <= more && ReachesIn(env, show, more, n, t, path, u)
    ensures ReachesIn(env, show, cut, n, t, path, u)
    decreases n
  {
    hide ReachesIn, Inside, Attributes, Parts, Isolated;
    if n == 0 {
      NoStep(env, show, more, t, path, u);
      NoStep(env, show, cut, t, path, u);
    } else {
      var part, rest := FirstStep(env, show, more, n, t, path, u);
      CutLess(env, show, cut, more, n - 1, part.typ, rest, u);
      InsideMembers(env, show, more, t, part);
      InsideMembers(env, show, cut, t, part);
      OneMoreStep(env, show, cut, n - 1, t, part, rest, u);
    }
  }

  lemma MetCutLess(
      env: Environment, show: Show, cut: set<Key>, more: set<Key>, path: seq<Segment>, t: Type, v: Violation)
    requires cut <= more && Met(env, show, more, path, t, v)
    ensures Met(env, show, cut, path, t, v)
  {
    hide ReachesIn;
    var n: nat :| ReachesIn(env, show, more, n, t, v.path[|path|..], v.typ);
    CutLess(env, show, cut, more, n, t, v.path[|path|..], v.typ);
  }

  lemma {:induction false} FoundIsMet(
      env: Environment, show: Show, universe: set<Type>, visiting: set<Key>, path: seq<Segment>, t: Type, v: Violation)
    requires Covers(env, universe, t)
    requires v in Found(env, show, universe, visiting, path, t)
    ensures Met(env, show, visiting, path, t, v)
    decreases Keys(show, universe) - visiting, t
  {
    hide Met, Parts, Attributes, Covers, Found, Inside;
    if Isolated(env, t) {
      FoundHere(env, show, universe, visiting, path, t);
      MetHere(env, show, visiting, path, t);
    } else {
      PartsCovered(env, universe, t);
      FoundSplits(env, show, universe, visiting, path, t);
      var parts, attributes := Parts(t), Attributes(env, t);
      var below := InParts(env, show, universe, visiting, path, parts);
      ConcatMembers(below, v);
      if v in Concat(below) {
        var k :| 0 <= k < |below| && v in below[k];
        FoundIsMet(env, show, universe, visiting, path + parts[k].path, parts[k].typ, v);
        InsideMembers(env, show, visiting, t, parts[k]);
        MetInPart(env, show, visiting, path, t, parts[k], v);
      } else {
        var opening := visiting + {KeyOf(show, t)};
        var inner := InParts(env, show, universe, opening, path, attributes);
        ConcatMembers(inner, v);
        var k :| 0 <= k < |inner| && v in inner[k];
        OpeningShrinks(env, show, universe, visiting, t);
        FoundIsMet(env, show, universe, opening, path + attributes[k].path, attributes[k].typ, v);
        MetCutLess(env, show, visiting, opening, path + attributes[k].path, attributes[k].typ, v);
        InsideMembers(env, show, visiting, t, attributes[k]);
        MetInPart(env, show, visiting, path, t, attributes[k], v);
      }
    }
  }

  lemma FoundIsLocated(
      env: Environment, show: Show, universe: set<Type>, visiting: set<Key>, path: seq<Segment>, t: Type, v: Violation)
    requires Covers(env, universe, t)
    requires v in Found(env, show, universe, visiting, path, t)
    ensures Located(env, path, t, v)
  {
    hide Covers, Found, ReachesIn, ReachesBy;
    FoundIsMet(env, show, universe, visiting, path, t, v);
    var n: nat :| ReachesIn(env, show, visiting, n, t, v.path[|path|..], v.typ);
    InsideIsHeld(env, show, visiting, n, t, v.path[|path|..], v.typ);
  }

  // Opening one more type leaves fewer keys to open.
  lemma OpeningShrinks(env: Environment, show: Show, universe: set<Type>, visiting: set<Key>, t: Type)
    requires t in universe && Opened(env, show, visiting, t)
    ensures Keys(show, universe) - (visiting + {KeyOf(show, t)}) < Keys(show, universe) - visiting
  {
    var key := KeyOf(show, t);
    assert key in Keys(show, universe) - visiting;
    assert key !in Keys(show, universe) - (visiting + {key});
  }

  lemma FoundHere(
      env: Environment, show: Show, universe: set<Type>, visiting: set<Key>, path: seq<Segment>, t: Type)
    requires Covers(env, universe, t) && Isolated(env, t)
    ensures Found(env, show, universe, visiting, path, t) == [Violation(path, t)]
  {
  }

  ghost function InParts(
    env: Environment, show: Show, universe: set<Type>, visiting: set<Key>, path: seq<Segment>, parts: seq<Part>):
    seq<seq<Violation>>
    requires forall k :: 0 <= k < |parts| ==> Covers(env, universe, parts[k].typ)
  {
    seq(|parts|, k requires 0 <= k < |parts| =>
      Found(env, show, universe, visiting, path + parts[k].path, parts[k].typ))
  }

  lemma FoundSplits(
      env: Environment, show: Show, universe: set<Type>, visiting: set<Key>, path: seq<Segment>, t: Type)
    requires Covers(env, universe, t) && !Isolated(env, t)
    ensures forall k :: 0 <= k < |Parts(t)| ==> Covers(env, universe, Parts(t)[k].typ)
    ensures forall k :: 0 <= k < |Attributes(env, t)| ==> Covers(env, universe, Attributes(env, t)[k].typ)
    ensures Found(env, show, universe, visiting, path, t) ==
      Concat(InParts(env, show, universe, visiting, path, Parts(t)))
      + if !Opened(env, show, visiting, t) then []
        else Concat(InParts(env, show, universe, visiting + {KeyOf(show, t)}, path, Attributes(env, t)))
  {
    PartsCovered(env, universe, t);
    var parts, attributes := Parts(t), Attributes(env, t);
    assert InParts(env, show, universe, visiting, path, parts) ==
      seq(|parts|, k requires 0 <= k < |parts| =>
        Found(env, show, universe, visiting, path + parts[k].path, parts[k].typ));
    if Opened(env, show, visiting, t) {
      assert InParts(env, show, universe, visiting + {KeyOf(show, t)}, path, attributes) ==
        seq(|attributes|, k requires 0 <= k < |attributes| =>
          Found(env, show, universe, visiting + {KeyOf(show, t)}, path + attributes[k].path, attributes[k].typ));
    }
  }

  /* Completeness: not opening a key again loses nothing. */

  // Some attribute of `t` reaches `u` in fewer than `n` steps without opening its key.
  ghost predicate ReachesFromAttribute(env: Environment, show: Show, cut: set<Key>, t: Type, n: nat, u: Type)
    requires t.Nominal?
  {
    exists m: nat, k, rest :: m < n && 0 <= k < |Attributes(env, t)|
      && ReachesIn(env, show, cut + {KeyOf(show, t)}, m, Attributes(env, t)[k].typ, rest, u)
  }

  lemma FromAttribute(
      env: Environment, show: Show, cut: set<Key>, t: Type, n: nat, part: Part, rest: seq<Segment>, u: Type)
    requires t.Nominal? && n > 0 && part in Attributes(env, t)
    requires ReachesIn(env, show, cut + {KeyOf(show, t)}, n - 1, part.typ, rest, u)
    ensures ReachesFromAttribute(env, show, cut, t, n, u)
  {
    hide Attributes;
    var k :| 0 <= k < |Attributes(env, t)| && Attributes(env, t)[k] == part;
    assert ReachesIn(env, show, cut + {KeyOf(show, t)}, n - 1, Attributes(env, t)[k].typ, rest, u);
  }

  lemma OpenAttribute(env: Environment, show: Show, cut: set<Key>, t: Type, n: nat, u: Type)
    returns (m: nat, k: nat, rest: seq<Segment>)
    requires t.Nominal? && ReachesFromAttribute(env, show, cut, t, n, u)
    ensures m < n && k < |Attributes(env, t)|
    ensures ReachesIn(env, show, cut + {KeyOf(show, t)}, m, Attributes(env, t)[k].typ, rest, u)
  {
    hide Attributes, ReachesIn;
    m, k, rest :| m < n && 0 <= k < |Attributes(env, t)|
      && ReachesIn(env, show, cut + {KeyOf(show, t)}, m, Attributes(env, t)[k].typ, rest, u);
  }

  lemma FromAttributeSooner(env: Environment, show: Show, cut: set<Key>, t: Type, m: nat, n: nat, u: Type)
    requires t.Nominal? && ReachesFromAttribute(env, show, cut, t, m, u) && m <= n
    ensures ReachesFromAttribute(env, show, cut, t, n, u)
  {
  }

  // A path that may open the key of `t` either does not open it, or its last stretch
  // after the last opening starts at an attribute of `t` and is shorter: whatever type
  // was opened there has the attributes of `t`.
  lemma {:induction false} CutLastOpening(
      env: Environment, show: Show, cut: set<Key>, t: Type, n: nat, from: Type, path: seq<Segment>, u: Type)
    requires SpelledApart(env) && Opened(env, show, cut, t)
    requires ReachesIn(env, show, cut, n, from, path, u)
    ensures ReachesIn(env, show, cut + {KeyOf(show, t)}, n, from, path, u)
            || ReachesFromAttribute(env, show, cut, t, n, u)
    decreases n
  {
    hide ReachesIn, ReachesFromAttribute, Attributes, Parts, Inside, Isolated, SpelledApart;
    var more := cut + {KeyOf(show, t)};
    if n == 0 {
      NoStep(env, show, cut, from, path, u);
      NoStep(env, show, more, from, path, u);
    } else {
      var part, rest := FirstStep(env, show, cut, n, from, path, u);
      CutLastOpening(env, show, cut, t, n - 1, part.typ, rest, u);
      InsideMembers(env, show, cut, from, part);
      InsideMembers(env, show, more, from, part);
      if ReachesFromAttribute(env, show, cut, t, n - 1, u) {
        FromAttributeSooner(env, show, cut, t, n - 1, n, u);
      } else if part in Inside(env, show, more, from) {
        OneMoreStep(env, show, more, n - 1, from, part, rest, u);
      } else {
        SameKeySameAttributes(env, show, from, t);
        FromAttribute(env, show, cut, t, n, part, rest, u);
      }
    }
  }

  // If an isolated type can be reached without opening the keys being visited, the
  // search finds something.
  lemma {:induction false} IsolatedIsFound(
      env: Environment, show: Show, universe: set<Type>, visiting: set<Key>, path: seq<Segment>, n: nat, t: Type,
      at: seq<Segment>, u: Type)
    requires SpelledApart(env) && Covers(env, universe, t) && Isolated(env, u)
    requires ReachesIn(env, show, visiting, n, t, at, u)
    ensures Found(env, show, universe, visiting, path, t) != []
    decreases Keys(show, universe) - visiting, n
  {
    hide ReachesIn, ReachesFromAttribute, Attributes, Parts, Inside, Isolated, Covers, Subterms, Found, SpelledApart,
         Keys;
    if Isolated(env, t) {
      FoundHere(env, show, universe, visiting, path, t);
    } else {
      PartsCovered(env, universe, t);
      NoStep(env, show, visiting, t, at, u);
      var part, rest := FirstStep(env, show, visiting, n, t, at, u);
      InsideMembers(env, show, visiting, t, part);
      if part in Parts(t) {
        var k :| 0 <= k < |Parts(t)| && Parts(t)[k] == part;
        IsolatedIsFound(env, show, universe, visiting, path + part.path, n - 1, part.typ, rest, u);
        FoundInPart(env, show, universe, visiting, path, t, k);
      } else {
        var opening := visiting + {KeyOf(show, t)};
        CutLastOpening(env, show, visiting, t, n - 1, part.typ, rest, u);
        if ReachesIn(env, show, opening, n - 1, part.typ, rest, u) {
          FromAttribute(env, show, visiting, t, n, part, rest, u);
        } else {
          FromAttributeSooner(env, show, visiting, t, n - 1, n, u);
        }
        var m, k, rest' := OpenAttribute(env, show, visiting, t, n, u);
        var attribute := Attributes(env, t)[k];
        OpeningShrinks(env, show, universe, visiting, t);
        IsolatedIsFound(env, show, universe, opening, path + attribute.path, m, attribute.typ, rest', u);
        FoundInAttribute(env, show, universe, visiting, path, t, k);
      }
    }
  }

  lemma FoundInPart(
      env: Environment, show: Show, universe: set<Type>, visiting: set<Key>, path: seq<Segment>, t: Type, k: nat)
    requires Covers(env, universe, t) && !Isolated(env, t) && k < |Parts(t)| && Covers(env, universe, Parts(t)[k].typ)
    requires Found(env, show, universe, visiting, path + Parts(t)[k].path, Parts(t)[k].typ) != []
    ensures Found(env, show, universe, visiting, path, t) != []
  {
    hide Found, Covers, Parts, Attributes;
    FoundSplits(env, show, universe, visiting, path, t);
    var below := InParts(env, show, universe, visiting, path, Parts(t));
    ConcatEmpty(below);
    assert below[k] != [];
  }

  lemma FoundInAttribute(
      env: Environment, show: Show, universe: set<Type>, visiting: set<Key>, path: seq<Segment>, t: Type, k: nat)
    requires Covers(env, universe, t) && !Isolated(env, t) && Opened(env, show, visiting, t)
    requires k < |Attributes(env, t)| && Covers(env, universe, Attributes(env, t)[k].typ)
    requires
      var attribute := Attributes(env, t)[k];
      Found(env, show, universe, visiting + {KeyOf(show, t)}, path + attribute.path, attribute.typ) != []
    ensures Found(env, show, universe, visiting, path, t) != []
  {
    hide Found, Covers, Parts, Attributes;
    FoundSplits(env, show, universe, visiting, path, t);
    var inner := InParts(env, show, universe, visiting + {KeyOf(show, t)}, path, Attributes(env, t));
    ConcatEmpty(inner);
    assert inner[k] != [];
  }
}
