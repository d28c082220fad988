/** Top-level definitions as the analyser's ordering phase sees them. */
module Definitions {
  import opened Options
  import opened Graphs

  /** The parts of a syntax tree the reference collector can tell apart: element
      calls, other nodes with fields, collections of children, everything else. */
  datatype Syntax =
    | Element(name: string, fields: seq<Syntax>)
    | Record(fields: seq<Syntax>)
    | Items(items: seq<Syntax>)
    | Scalar

  datatype Param = Param(name: string, typ: Option<string>, default: seq<Syntax>)

  // `body` stands for every field of the function that is not named here.
  datatype Callable = Callable(
    overloads: seq<Syntax>,
    params: Option<seq<Param>>,
    results: Option<seq<string>>,
    body: Syntax)

  datatype Definition = Definition(name: string, callable: Callable)

  // Does the definition publish complete callable signatures of its own?
  predicate HasCompleteContract(d: Definition) {
    || d.callable.overloads != []
    || (&& (d.callable.params.Some? || "\\" <= d.name)
        && d.callable.results.Some?
        && (d.callable.params.Some? ==>
              forall p :: p in d.callable.params.value ==> p.typ.Some?))
  }

  predicate Incomplete(defs: seq<Definition>, i: nat) {
    i < |defs| && !HasCompleteContract(defs[i])
  }

  function IncompleteSet(defs: seq<Definition>): (r: set<nat>)
    ensures forall i: nat :: i in r <==> Incomplete(defs, i)
  {
    set i: nat | i < |defs| && Incomplete(defs, i)
  }

  /* What leaving a part out does. */

  // Without overloads, a definition whose results, whose parameter list or the type of
  // one of whose parameters is erased is incomplete; the list is not missed by names
  // that start with a backslash.
  lemma ErasedIsIncomplete(d: Definition, k: nat)
    requires d.callable.overloads == []
    ensures !HasCompleteContract(d.(callable := d.callable.(results := None)))
    ensures d.callable.params.Some? && k < |d.callable.params.value| ==>
      var params := d.callable.params.value;
      !HasCompleteContract(d.(callable := d.callable.(params := Some(params[k := params[k].(typ := None)]))))
    ensures d.name == "" || d.name[0] != '\\' ==> !HasCompleteContract(d.(callable := d.callable.(params := None)))
  {
    if d.callable.params.Some? && k < |d.callable.params.value| {
      var params := d.callable.params.value;
      assert params[k := params[k].(typ := None)][k] == params[k].(typ := None);
    }
  }

  // A definition with every part written is complete, and so is one with an overload.
  lemma WrittenIsComplete(d: Definition, typs: seq<string>, results: seq<string>, overload: Syntax, more: seq<Syntax>)
    requires d.callable.params.Some? && |typs| == |d.callable.params.value|
    ensures
      var params := d.callable.params.value;
      var written := seq(|typs|, k requires 0 <= k < |typs| => params[k].(typ := Some(typs[k])));
      HasCompleteContract(d.(callable := d.callable.(params := Some(written), results := Some(results))))
    ensures HasCompleteContract(d.(callable := d.callable.(overloads := [overload] + more)))
  {
  }

  // `d` is what is left of itself when some part is erased.
  ghost predicate LacksPart(d: Definition) {
    || d == d.(callable := d.callable.(results := None))
    || (d.callable.params.Some? && exists k ::
          && 0 <= k < |d.callable.params.value|
          && d.callable.params.value[k] == d.callable.params.value[k].(typ := None))
    || (d == d.(callable := d.callable.(params := None)) && (d.name == "" || d.name[0] != '\\'))
  }

  // Nothing else makes a definition incomplete.
  lemma IncompleteExactlyWhenErased(d: Definition)
    ensures !HasCompleteContract(d) <==> d.callable.overloads == [] && LacksPart(d)
  {
    if d.callable.overloads == [] && d.callable.params.Some? {
      var params := d.callable.params.value;
      if k :| 0 <= k < |params| && params[k] == params[k].(typ := None) {
        assert params[k] in params && params[k].typ.None?;
      }
      if p :| p in params && p.typ.None? {
        var k :| 0 <= k < |params| && params[k] == p;
      }
    }
    assert "\\" <= d.name <==> d.name != "" && d.name[0] == '\\';
  }

  // The element names collected from a definition's function.
  function References(item: Syntax): set<string> {
    match item
    case Element(name, fields) => {name} + ReferencesIn(fields)
    case Record(fields) => ReferencesIn(fields)
    case Items(items) => ReferencesIn(items)
    case Scalar => {}
  }

  function ReferencesIn(items: seq<Syntax>): set<string> {
    if items == [] then {} else References(items[0]) + ReferencesIn(items[1..])
  }

  // The default values of all parameters, one after the other.
  function Defaults(params: seq<Param>): seq<Syntax> {
    if params == [] then [] else params[0].default + Defaults(params[1..])
  }

  // Everything a function holds that may contain calls.
  function Content(f: Callable): seq<Syntax> {
    f.overloads + (if f.params.Some? then Defaults(f.params.value) else []) + [f.body]
  }

  function CallableReferences(f: Callable): set<string> {
    ReferencesIn(Content(f))
  }

  // `name` is called by some element node nested at any depth inside `item`.
  ghost predicate Calls(item: Syntax, name: string) {
    match item
    case Element(n, fields) => n == name || exists i :: 0 <= i < |fields| && Calls(fields[i], name)
    case Record(fields) => exists i :: 0 <= i < |fields| && Calls(fields[i], name)
    case Items(items) => exists i :: 0 <= i < |items| && Calls(items[i], name)
    case Scalar => false
  }

  lemma {:induction false} ReferencesAreCalls(item: Syntax, name: string)
    ensures name in References(item) <==> Calls(item, name)
    decreases item, 0
  {
    match item
    case Element(_, fields) => ReferencesInAreCalls(fields, name);
    case Record(fields) => ReferencesInAreCalls(fields, name);
    case Items(items) => ReferencesInAreCalls(items, name);
    case Scalar =>
  }

  lemma {:induction false} ReferencesInAreCalls(items: seq<Syntax>, name: string)
    ensures name in ReferencesIn(items) <==> exists i :: 0 <= i < |items| && Calls(items[i], name)
    decreases items, 1
  {
    if items != [] {
      ReferencesAreCalls(items[0], name);
      ReferencesInAreCalls(items[1..], name);
      if name in ReferencesIn(items[1..]) {
        var i :| 0 <= i < |items[1..]| && Calls(items[1..][i], name);
        assert Calls(items[i + 1], name);
      }
      if i :| 0 <= i < |items| && Calls(items[i], name) {
        assert i > 0 ==> Calls(items[1..][i - 1], name);
      }
    }
  }

  // `name` is called by an overload, in a parameter default or elsewhere in the function.
  ghost predicate CalledIn(f: Callable, name: string) {
    || (exists k :: 0 <= k < |f.overloads| && Calls(f.overloads[k], name))
    || (f.params.Some? && exists p, k ::
          p in f.params.value && 0 <= k < |p.default| && Calls(p.default[k], name))
    || Calls(f.body, name)
  }

  ghost predicate CalledInSome(items: seq<Syntax>, name: string) {
    exists k :: 0 <= k < |items| && Calls(items[k], name)
  }

  lemma CalledInConcat(a: seq<Syntax>, b: seq<Syntax>, name: string)
    ensures CalledInSome(a + b, name) <==> CalledInSome(a, name) || CalledInSome(b, name)
  {
    hide Calls;
    if k :| 0 <= k < |a| && Calls(a[k], name) {
      assert Calls((a + b)[k], name);
    }
    if k :| 0 <= k < |b| && Calls(b[k], name) {
      assert Calls((a + b)[|a| + k], name);
    }
    if k :| 0 <= k < |a + b| && Calls((a + b)[k], name) {
      assert if k < |a| then Calls(a[k], name) else Calls(b[k - |a|], name);
    }
  }

  lemma {:induction false} DefaultsAreCalled(params: seq<Param>, name: string)
    ensures CalledInSome(Defaults(params), name) <==> exists p :: p in params && CalledInSome(p.default, name)
  {
    if params != [] {
      var first, rest := params[0], params[1..];
      assert params == [first] + rest;
      DefaultsAreCalled(rest, name);
      CalledInConcat(first.default, Defaults(rest), name);
      hide CalledInSome;
      assert first in params;
      if p :| p in rest && CalledInSome(p.default, name) {
        assert p in params;
      }
    }
  }

  // The collected references are exactly the names called anywhere in the function.
  lemma CallableReferencesAreCalls(f: Callable, name: string)
    ensures name in CallableReferences(f) <==> CalledIn(f, name)
  {
    hide Calls, References;
    var defaults := if f.params.Some? then Defaults(f.params.value) else [];
    ReferencesInAreCalls(Content(f), name);
    CalledInConcat(f.overloads + defaults, [f.body], name);
    CalledInConcat(f.overloads, defaults, name);
    assert Calls(f.body, name) <==> CalledInSome([f.body], name) by {
      assert [f.body][0] == f.body;
    }
    if f.params.Some? {
      DefaultsAreCalled(f.params.value, name);
      SomeDefault(f.params.value, name);
    }
  }

  lemma SomeDefault(params: seq<Param>, name: string)
    ensures (exists p :: p in params && CalledInSome(p.default, name)) <==>
      exists p, k :: p in params && 0 <= k < |p.default| && Calls(p.default[k], name)
  {
    hide Calls;
    if p :| p in params && CalledInSome(p.default, name) {
      var k :| 0 <= k < |p.default| && Calls(p.default[k], name);
    }
    if p, k :| p in params && 0 <= k < |p.default| && Calls(p.default[k], name) {
      assert CalledInSome(p.default, name);
    }
  }

  // Position `i` depends on every definition whose name its function calls: a name
  // with several definitions contributes all of them.
  ghost predicate DependsOn(defs: seq<Definition>, i: nat, j: nat) {
    && i < |defs|
    && j < |defs|
    && CalledIn(defs[i].callable, defs[j].name)
  }

  ghost predicate IsDependencyGraph(defs: seq<Definition>, g: Graph) {
    && |g| == |defs|
    && forall i: nat, j: nat :: i < |g| ==> (j in g[i] <==> DependsOn(defs, i, j))
  }

  ghost predicate Named(defs: seq<Definition>, k: nat, name: string, j: nat) {
    j < k <= |defs| && defs[j].name == name
  }

  method Dependencies(defs: seq<Definition>) returns (g: Graph)
    ensures IsDependencyGraph(defs, g)
    ensures WellFormed(g)
  {
    var byName: map<string, set<nat>> := map[];
    for k := 0 to |defs|
      invariant forall j: nat :: j < k ==> defs[j].name in byName
      invariant forall name :: name in byName ==> forall j: nat :: j in byName[name] <==> Named(defs, k, name, j)
    {
      var name := defs[k].name;
      var sameName := if name in byName then byName[name] else {};
      assert forall j: nat :: j in sameName <==> Named(defs, k, name, j);
      byName := byName[name := sameName + {k}];
    }
    g := [];
    for k := 0 to |defs|
      invariant |g| == k
      invariant forall i: nat, j: nat :: i < k ==> (j in g[i] <==> DependsOn(defs, i, j))
    {
      hide CalledIn;
      var referenced := CallableReferences(defs[k].callable) * byName.Keys;
      var targets: set<nat> := set name, j | name in referenced && j in byName[name] :: j;
      assert forall j: nat :: j in targets <==> DependsOn(defs, k, j) by {
        forall j: nat | j < |defs|
          ensures defs[j].name in CallableReferences(defs[k].callable) <==> CalledIn(defs[k].callable, defs[j].name)
        {
          CallableReferencesAreCalls(defs[k].callable, defs[j].name);
        }
        hide CallableReferences;
        forall j: nat | DependsOn(defs, k, j) ensures j in targets {
          assert j in byName[defs[j].name] by { assert Named(defs, |defs|, defs[j].name, j); }
        }
      }
      g := g + [targets];
    }
  }
}
