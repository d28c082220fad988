/** When the transfer check can be relied on: exactly when the objects it opens have
    spellings of their own. */
module TransferSpelling {
  import opened Options
  import opened Sequences
  import opened Symbols
  import opened TransferTypes
  import opened TransferSearch
  import opened Transfer

  // All definitions that are not isolated are among `names`.
  ghost predicate OpensOnly(env: Environment, names: set<Symbol>) {
    forall name :: name in env && !env[name].taskIsolated ==> name in names
  }

  /** The check is exact for every type, whatever the objects `names` are defined to be
      and whatever isolated objects there are beside them. */
  ghost predicate Reliable(show: Show, names: set<Symbol>) {
    forall env, typ, path :: OpensOnly(env, names) ==> Exact(env, show, typ, path)
  }

  ghost predicate DistinctSpellings(names: set<Symbol>) {
    forall m, n :: m in names && n in names && Dotted(m) == Dotted(n) ==> m == n
  }

  // A type without arguments is rendered as its name is spelled.
  ghost predicate ShowsSpelling(show: Show, names: set<Symbol>) {
    forall m, n :: m in names && n in names && Dotted(m) == Dotted(n) ==> show(Bare(m)) == show(Bare(n))
  }

  function Bare(name: Symbol): Type {
    Nominal(name, [], false)
  }

  lemma DistinctIsApart(env: Environment, names: set<Symbol>)
    requires DistinctSpellings(names) && OpensOnly(env, names)
    ensures SpelledApart(env)
  {
  }

  /* Two objects with one spelling: `m` holds an `n`, which holds a resource. */

  function Clash(m: Symbol, n: Symbol, resource: Symbol): Environment {
    map[
      resource := ObjectDefinition(true, []),
      n := ObjectDefinition(false, [Field("resource", Bare(resource))]),
      m := ObjectDefinition(false, [Field("inner", Bare(n))])
    ]
  }

  // A name unlike two others and unlike that of channels.
  function Another(m: Symbol, n: Symbol): (r: Symbol)
    ensures r != m && r != n && r != CHANNEL
  {
    Symbol("Resource" + m.text + n.text, [])
  }

  lemma ClashOpensOnly(m: Symbol, n: Symbol, names: set<Symbol>)
    requires m != n && m in names && n in names
    ensures OpensOnly(Clash(m, n, Another(m, n)), names)
  {
  }

  lemma ClashHoldsResource(m: Symbol, n: Symbol)
    requires m != n && m != CHANNEL && n != CHANNEL
    ensures
      var resource := Another(m, n);
      var env := Clash(m, n, resource);
      Isolated(env, Bare(resource))
      && Reaches(env, Bare(m), [Attribute("inner"), Attribute("resource")], Bare(resource))
  {
    var resource := Another(m, n);
    var env := Clash(m, n, resource);
    var inner, last := [Attribute("inner")], [Attribute("resource")];
    assert Field("inner", Bare(n)) in env[m].attributes;
    assert Field("resource", Bare(resource)) in env[n].attributes;
    HeldNoStep(env, Bare(resource), [], Bare(resource));
    HeldOneMoreStep(env, 0, Bare(n), Part(last, Bare(resource)), [], Bare(resource));
    assert last + [] == last && inner + last == [Attribute("inner"), Attribute("resource")];
    HeldOneMoreStep(env, 1, Bare(m), Part(inner, Bare(n)), last, Bare(resource));
  }

  // While `m` is being opened, the attributes of `n` are skipped.
  lemma ClashIsMissed(show: Show, m: Symbol, n: Symbol)
    requires m != n && m != CHANNEL && n != CHANNEL && KeyOf(show, Bare(m)) == KeyOf(show, Bare(n))
    ensures AllViolations(Clash(m, n, Another(m, n)), show, Bare(m), []) == []
  {
    var env := Clash(m, n, Another(m, n));
    var top, inner := Bare(m), Bare(n);
    UniverseCovers(env, top);
    var universe := Universe(env, top);
    var opening := {} + {KeyOf(show, top)};
    hide Found, Universe, Covers, KeyOf, Dotted;
    FoundSplits(env, show, universe, {}, [], top);
    var attributes := Attributes(env, top);
    assert attributes == [Part([Attribute("inner")], inner)];
    FoundSplits(env, show, universe, opening, [] + [Attribute("inner")], inner);
    var below := InParts(env, show, universe, opening, [], attributes);
    assert Parts(top) == [] && Parts(inner) == [];
    assert below == [[]];
    ConcatEmpty(below);
  }

  lemma ClashBreaksTheCheck(show: Show, m: Symbol, n: Symbol)
    requires m != n && m != CHANNEL && n != CHANNEL && KeyOf(show, Bare(m)) == KeyOf(show, Bare(n))
    ensures !Exact(Clash(m, n, Another(m, n)), show, Bare(m), [])
  {
    hide Clash, Another, KeyOf, AllViolations, Isolated;
    ClashIsMissed(show, m, n);
    ClashHoldsResource(m, n);
  }

  lemma ClashIsNoChannel(m: Symbol, n: Symbol)
    requires m != n && Dotted(m) == Dotted(n)
    ensures m != CHANNEL && n != CHANNEL
  {
    if m == CHANNEL {
      UndottedIsUnique(m, n);
    }
    if n == CHANNEL {
      UndottedIsUnique(n, m);
    }
  }

  // The check is exact for all definitions of the objects `names` exactly when no two
  // of them are spelled alike.
  lemma ReliableExactlyWhenSpelledApart(show: Show, names: set<Symbol>)
    requires ShowsSpelling(show, names)
    ensures Reliable(show, names) <==> DistinctSpellings(names)
  {
    hide Exact, Dotted, Clash;
    if DistinctSpellings(names) {
      forall env, typ, path | OpensOnly(env, names) ensures Exact(env, show, typ, path) {
        DistinctIsApart(env, names);
        CheckIsExact(env, show, typ, path);
      }
    } else {
      var m, n :| m in names && n in names && Dotted(m) == Dotted(n) && m != n;
      assert show(Bare(m)) == show(Bare(n));
      ClashIsNoChannel(m, n);
      ClashOpensOnly(m, n, names);
      ClashBreaksTheCheck(show, m, n);
    }
  }

  /* What is reported first depends on the keys. */

  // A box holds a box of `b` and then a file.
  function Boxes(box: Symbol, file: Symbol, b: Type): Environment {
    map[
      file := ObjectDefinition(true, []),
      box := ObjectDefinition(false, [Field("inner", Nominal(box, [b], false)), Field("res", Bare(file))])
    ]
  }

  // Inside a box that is being opened, a box with the same key is skipped.
  lemma SkippedBox(
      show: Show, env: Environment, universe: set<Type>, visiting: set<Key>, path: seq<Segment>, t: Type)
    requires Covers(env, universe, t) && t.Nominal? && !Isolated(env, t) && KeyOf(show, t) in visiting
    requires forall k :: 0 <= k < |t.args| ==> t.args[k].Opaque?
    ensures Found(env, show, universe, visiting, path, t) == []
  {
    FoundSplits(env, show, universe, visiting, path, t);
    var below := InParts(env, show, universe, visiting, path, Parts(t));
    forall k | 0 <= k < |below| ensures below[k] == [] {
      OpaqueHoldsNothing(env, show, universe, visiting, path + Parts(t)[k].path, Parts(t)[k].typ);
    }
    ConcatEmpty(below);
  }

  lemma OpaqueHoldsNothing(
      env: Environment, show: Show, universe: set<Type>, visiting: set<Key>, path: seq<Segment>, t: Type)
    requires Covers(env, universe, t) && t.Opaque?
    ensures Found(env, show, universe, visiting, path, t) == []
  {
    FoundSplits(env, show, universe, visiting, path, t);
    assert InParts(env, show, universe, visiting, path, Parts(t)) == [];
  }

  // What an opened box holds: what its inner box holds, then the file.
  lemma OpenedBox(
      show: Show, box: Symbol, file: Symbol, a: Type, b: Type, universe: set<Type>, visiting: set<Key>,
      path: seq<Segment>)
    requires box != file && box != CHANNEL && file != CHANNEL && a.Opaque?
    requires Covers(Boxes(box, file, b), universe, Nominal(box, [a], false))
    requires Covers(Boxes(box, file, b), universe, Nominal(box, [b], false))
    requires KeyOf(show, Nominal(box, [a], false)) !in visiting
    ensures
      var env := Boxes(box, file, b);
      var opening := visiting + {KeyOf(show, Nominal(box, [a], false))};
      Found(env, show, universe, visiting, path, Nominal(box, [a], false)) ==
        Found(env, show, universe, opening, path + [Attribute("inner")], Nominal(box, [b], false))
        + [Violation(path + [Attribute("res")], Bare(file))]
  {
    var env, t := Boxes(box, file, b), Nominal(box, [a], false);
    var opening := visiting + {KeyOf(show, t)};
    BoxFacts(show, box, file, a, b, visiting);
    hide Found, Covers, KeyOf, Dotted, Boxes, Attributes, Parts, Opened, Isolated;
    FoundSplits(env, show, universe, visiting, path, t);
    var below := InParts(env, show, universe, visiting, path, Parts(t));
    OpaqueHoldsNothing(env, show, universe, visiting, path + [TypeArgument(0)], a);
    ConcatEmpty(below);
    var inner := InParts(env, show, universe, opening, path, Attributes(env, t));
    FoundHere(env, show, universe, opening, path + [Attribute("res")], Bare(file));
    ConcatTwo(inner);
  }

  lemma BoxFacts(show: Show, box: Symbol, file: Symbol, a: Type, b: Type, visiting: set<Key>)
    requires box != file && box != CHANNEL && file != CHANNEL
    requires KeyOf(show, Nominal(box, [a], false)) !in visiting
    ensures
      var env, t := Boxes(box, file, b), Nominal(box, [a], false);
      && !Isolated(env, t) && Opened(env, show, visiting, t) && Isolated(env, Bare(file))
      && Parts(t) == [Part([TypeArgument(0)], a)]
      && Attributes(env, t) ==
           [Part([Attribute("inner")], Nominal(box, [b], false)), Part([Attribute("res")], Bare(file))]
  {
    hide KeyOf;
  }

  lemma ConcatTwo<T>(lists: seq<seq<T>>)
    requires |lists| == 2
    ensures Concat(lists) == lists[0] + lists[1]
  {
    ConcatSnoc([lists[0]], lists[1]);
    ConcatSnoc([], lists[0]);
    assert lists == [lists[0]] + [lists[1]] && [] + [lists[0]] == [lists[0]];
  }

  lemma InnerBoxSkipped(
      show: Show, box: Symbol, file: Symbol, b: Type, universe: set<Type>, visiting: set<Key>, path: seq<Segment>)
    requires box != file && b.Opaque? && Covers(Boxes(box, file, b), universe, Nominal(box, [b], false))
    requires KeyOf(show, Nominal(box, [b], false)) in visiting
    ensures Found(Boxes(box, file, b), show, universe, visiting, path, Nominal(box, [b], false)) == []
  {
    hide Found, Covers, Boxes, KeyOf, Isolated;
    BoxIsNotIsolated(box, file, b);
    SkippedBox(show, Boxes(box, file, b), universe, visiting, path, Nominal(box, [b], false));
  }

  lemma BoxesFound(show: Show, box: Symbol, file: Symbol, a: Type, b: Type, universe: set<Type>)
    requires box != file && box != CHANNEL && file != CHANNEL && a.Opaque? && b.Opaque?
    requires Covers(Boxes(box, file, b), universe, Nominal(box, [a], false))
    requires Covers(Boxes(box, file, b), universe, Nominal(box, [b], false))
    ensures
      var outer, inner := Nominal(box, [a], false), Nominal(box, [b], false);
      var found := Found(Boxes(box, file, b), show, universe, {}, [], outer);
      var own := [Violation([Attribute("res")], Bare(file))];
      found ==
        if show(outer) == show(inner) then own
        else [Violation([Attribute("inner"), Attribute("res")], Bare(file))] + own
  {
    hide Found, Covers, Boxes, Dotted;
    var outer, inner := Nominal(box, [a], false), Nominal(box, [b], false);
    var opening: set<Key> := {} + {KeyOf(show, outer)};
    OpenedBox(show, box, file, a, b, universe, {}, []);
    assert [] + [Attribute("inner")] == [Attribute("inner")] && [] + [Attribute("res")] == [Attribute("res")];
    if show(outer) == show(inner) {
      InnerBoxSkipped(show, box, file, b, universe, opening, [Attribute("inner")]);
    } else {
      var path := [Attribute("inner")];
      OpenedBox(show, box, file, b, b, universe, opening, path);
      InnerBoxSkipped(show, box, file, b, universe, opening + {KeyOf(show, inner)}, path + [Attribute("inner")]);
      assert path + [Attribute("res")] == [Attribute("inner"), Attribute("res")];
    }
  }

  lemma InnerBoxCovered(box: Symbol, file: Symbol, a: Type, b: Type, universe: set<Type>)
    requires box != file && box != CHANNEL && file != CHANNEL
    requires Covers(Boxes(box, file, b), universe, Nominal(box, [a], false))
    ensures Covers(Boxes(box, file, b), universe, Nominal(box, [b], false))
  {
    var env, outer := Boxes(box, file, b), Nominal(box, [a], false);
    PartsCovered(env, universe, outer);
    assert Attributes(env, outer)[0] == Part([Attribute("inner")], Nominal(box, [b], false));
  }

  // A captured box is reported for its own file when its inner box is rendered like
  // it, and for the file of the inner box otherwise.
  lemma KeysDecideFirstViolation(show: Show, box: Symbol, file: Symbol, a: Type, b: Type)
    requires box != file && box != CHANNEL && file != CHANNEL && a.Opaque? && b.Opaque?
    ensures
      var outer, inner := Nominal(box, [a], false), Nominal(box, [b], false);
      First(AllViolations(Boxes(box, file, b), show, outer, [])) ==
        Some(Violation(
          if show(outer) == show(inner) then [Attribute("res")] else [Attribute("inner"), Attribute("res")],
          Bare(file)))
  {
    hide Found, Covers, Universe, Boxes;
    var env, outer := Boxes(box, file, b), Nominal(box, [a], false);
    UniverseCovers(env, outer);
    InnerBoxCovered(box, file, a, b, Universe(env, outer));
    BoxesFound(show, box, file, a, b, Universe(env, outer));
  }

  lemma BoxIsNotIsolated(box: Symbol, file: Symbol, b: Type)
    requires box != file
    ensures !Isolated(Boxes(box, file, b), Nominal(box, [b], false))
  {
  }
}
