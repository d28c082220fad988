/** The runtime prelude of one analysis session: hidden bindings for imported declarations. */
module ImportPrelude {
  import opened Options
  import opened Symbols
  import opened ImportRuntime
  import opened Sequences

  /** Typed declarations, before and after hoisting. A provider may list declarations
      that it has imported itself: those are hoisted again. `plainObject` tells whether
      an object declaration introduces a nominal type of its own. `details` stands for
      the source node, the type and the dispatch plan, `methods` for the results and
      identities of an object's methods, so that equality is that of declarations. */
  datatype TypedNode =
    | FunctionNode(details: string, name: Option<Symbol>, overloads: seq<Value>)
    | ObjectNode(details: string, objectName: Symbol, plainObject: bool, typed: bool, methods: string,
                 methodBodies: seq<Value>)
    | OtherNode(details: string)
    | ImportedFunction(details: string, name: Option<Symbol>, overloads: seq<Value>, runtimeName: Symbol)
    | ImportedObject(details: string, objectName: Symbol, plainObject: bool, methods: string,
                     methodBodies: seq<Value>, runtimeName: Symbol, nominal: Option<Symbol>,
                     origins: seq<(Symbol, Symbol)>)

  datatype Binding = Binding(node: TypedNode, source: Symbol, runtime: Symbol)

  // The nominal identity a binding was requested with.
  datatype Identity = Identity(nominal: Option<Symbol>, origins: seq<(Symbol, Symbol)>)

  const NO_IDENTITY := Identity(None, [])

  function WithImportRuntimeName(node: TypedNode, runtime: Symbol, links: Links, identity: Identity): TypedNode {
    match node
    case FunctionNode(details, name, overloads) =>
      ImportedFunction(details, name, RewriteAll(overloads, SelfName(node), runtime, links), runtime)
    case ImportedFunction(details, name, overloads, _) =>
      ImportedFunction(details, name, RewriteAll(overloads, SelfName(node), runtime, links), runtime)
    case ObjectNode(details, name, plain, typed, methods, bodies) =>
      ImportedObject(details, name, plain, if typed then methods else "",
                     if typed then RewriteAll(bodies, name, runtime, links) else [], runtime,
                     identity.nominal, identity.origins)
    case ImportedObject(details, name, plain, methods, bodies, _, _, _) =>
      ImportedObject(details, name, plain, methods, RewriteAll(bodies, name, runtime, links), runtime,
                     identity.nominal, identity.origins)
    case OtherNode(_) => node
  }

  // The name under which a declaration calls itself.
  function SelfName(node: TypedNode): Symbol {
    match node
    case FunctionNode(_, name, _) => if name.Some? then name.value else Symbol("", [])
    case ImportedFunction(_, name, _, _) => if name.Some? then name.value else Symbol("", [])
    case ObjectNode(_, name, _, _, _, _) => name
    case ImportedObject(_, name, _, _, _, _, _, _) => name
    case OtherNode(_) => Symbol("", [])
  }

  // The runtime name a declaration is published under.
  function RuntimeName(node: TypedNode): Option<Symbol> {
    match node
    case ImportedFunction(_, _, _, runtime) => Some(runtime)
    case ImportedObject(_, _, _, _, _, runtime, _, _) => Some(runtime)
    case _ => None
  }

  function IdentityOf(origins: map<Symbol, Identity>, runtime: Symbol): Identity {
    if runtime in origins then origins[runtime] else NO_IDENTITY
  }

  predicate Matches(b: Binding, origins: map<Symbol, Identity>, node: TypedNode, source: Symbol, identity: Identity) {
    b.node == node && b.source == source && IdentityOf(origins, b.runtime) == identity
  }

  // The first binding that already serves a request.
  function Lookup(
    bindings: seq<Binding>, origins: map<Symbol, Identity>, node: TypedNode, source: Symbol,
    identity: Identity): Option<Symbol>
  {
    if bindings == [] then None
    else if Matches(bindings[0], origins, node, source, identity) then Some(bindings[0].runtime)
    else Lookup(bindings[1..], origins, node, source, identity)
  }

  // The declarations that a runtime name stands for: a name with several overloads
  // has several.
  function Group(bindings: seq<Binding>, runtime: Symbol): seq<TypedNode> {
    if bindings == [] then []
    else
      Group(bindings[..|bindings| - 1], runtime)
      + if bindings[|bindings| - 1].runtime == runtime then [bindings[|bindings| - 1].node] else []
  }

  datatype Declaration = Declaration(name: Symbol, node: TypedNode)

  // The declarations a provider lists under a name, in order.
  function Listed(declarations: seq<Declaration>, name: Symbol): seq<TypedNode> {
    if declarations == [] then []
    else
      Listed(declarations[..|declarations| - 1], name)
      + if declarations[|declarations| - 1].name == name then [declarations[|declarations| - 1].node] else []
  }

  function SplitDots(s: string): seq<string> {
    if s == "" then [""]
    else
      var rest := SplitDots(s[1..]);
      if s[0] == '.' then [""] + rest
      else if rest == [] then [[s[0]]]
      else [[s[0]] + rest[0]] + rest[1..]
  }

  function PrivateIdentity(moduleName: string, name: Symbol, node: TypedNode): Identity {
    if (node.ObjectNode? || node.ImportedObject?) && node.plainObject then
      Identity(Some(Symbol(name.text, SplitDots(moduleName))), [])
    else NO_IDENTITY
  }

  /** Every name in use was issued with a number below the number of bindings. */
  ghost predicate IssuedBelow(seed: string, limit: nat, runtime: Symbol) {
    exists i: nat, text :: i < limit && runtime == HiddenName(seed, text, i)
  }

  ghost predicate LinksIssued(seed: string, limit: nat, links: map<Symbol, Symbol>) {
    && (forall name :: name in links ==> IssuedBelow(seed, limit, links[name]))
    && (forall m, n :: m in links && n in links && m != n ==> links[m] != links[n])
  }

  lemma FreshName(seed: string, limit: nat, text: string, i: nat, runtime: Symbol)
    requires IssuedBelow(seed, limit, runtime) && i >= limit
    ensures runtime != HiddenName(seed, text, i)
  {
    hide HiddenName;
    var j: nat, t :| j < limit && runtime == HiddenName(seed, t, j);
    if runtime == HiddenName(seed, text, i) {
      HiddenNamesDiffer(seed, t, text, j, i);
    }
  }

  lemma IssuedLater(seed: string, limit: nat, more: nat, runtime: Symbol)
    requires IssuedBelow(seed, limit, runtime) && limit <= more
    ensures IssuedBelow(seed, more, runtime)
  {
    hide HiddenName;
  }

  ghost predicate AllIssued(seed: string, limit: nat, bindings: seq<Binding>) {
    forall k :: 0 <= k < |bindings| ==> IssuedBelow(seed, limit, bindings[k].runtime)
  }

  /* How the two tables grow. */

  lemma {:induction false} LookupPersists(
      bindings: seq<Binding>, more: seq<Binding>, origins: map<Symbol, Identity>, origins': map<Symbol, Identity>,
      node: TypedNode, source: Symbol, identity: Identity)
    requires Lookup(bindings, origins, node, source, identity).Some?
    requires forall k :: 0 <= k < |bindings| ==>
      IdentityOf(origins', bindings[k].runtime) == IdentityOf(origins, bindings[k].runtime)
    ensures Lookup(bindings + more, origins', node, source, identity) ==
      Lookup(bindings, origins, node, source, identity)
  {
    assert (bindings + more)[1..] == bindings[1..] + more;
    if !Matches(bindings[0], origins, node, source, identity) {
      LookupPersists(bindings[1..], more, origins, origins', node, source, identity);
    }
  }

  lemma {:induction false} LookupLast(
      bindings: seq<Binding>, b: Binding, origins: map<Symbol, Identity>, origins': map<Symbol, Identity>,
      identity: Identity)
    requires Lookup(bindings, origins, b.node, b.source, identity).None?
    requires forall k :: 0 <= k < |bindings| ==>
      IdentityOf(origins', bindings[k].runtime) == IdentityOf(origins, bindings[k].runtime)
    requires IdentityOf(origins', b.runtime) == identity
    ensures Lookup(bindings + [b], origins', b.node, b.source, identity) == Some(b.runtime)
  {
    if bindings == [] {
      assert [] + [b] == [b];
    } else {
      assert (bindings + [b])[1..] == bindings[1..] + [b];
      LookupLast(bindings[1..], b, origins, origins', identity);
    }
  }

  lemma {:induction false} GroupConcat(a: seq<Binding>, b: seq<Binding>, runtime: Symbol)
    ensures Group(a + b, runtime) == Group(a, runtime) + Group(b, runtime)
  {
    if b == [] {
      assert a + b == a;
    } else {
      assert (a + b)[..|a + b| - 1] == a + b[..|b| - 1];
      GroupConcat(a, b[..|b| - 1], runtime);
    }
  }

  lemma {:induction false} GroupAbsent(bindings: seq<Binding>, runtime: Symbol)
    requires forall k :: 0 <= k < |bindings| ==> bindings[k].runtime != runtime
    ensures Group(bindings, runtime) == []
  {
    if bindings != [] {
      GroupAbsent(bindings[..|bindings| - 1], runtime);
    }
  }

  // The bindings of one group of overloads, all under the same runtime name.
  function Uniform(group: seq<TypedNode>, name: Symbol, runtime: Symbol): seq<Binding> {
    if group == [] then []
    else Uniform(group[..|group| - 1], name, runtime) + [Binding(group[|group| - 1], name, runtime)]
  }

  lemma {:induction false} UniformGroup(group: seq<TypedNode>, name: Symbol, runtime: Symbol)
    ensures |Uniform(group, name, runtime)| == |group|
    ensures forall k :: 0 <= k < |group| ==> Uniform(group, name, runtime)[k] == Binding(group[k], name, runtime)
    ensures Group(Uniform(group, name, runtime), runtime) == group
  {
    if group != [] {
      var front := group[..|group| - 1];
      UniformGroup(front, name, runtime);
      var all := Uniform(group, name, runtime);
      assert all[..|all| - 1] == Uniform(front, name, runtime);
    }
  }

  /** The two tables never change what an earlier request or call resolves to. */
  ghost predicate Stable(
    bindings: seq<Binding>, bindings': seq<Binding>, origins: map<Symbol, Identity>, origins': map<Symbol, Identity>)
  {
    && (forall node, source, identity :: Lookup(bindings, origins, node, source, identity).Some? ==>
          Lookup(bindings', origins', node, source, identity) == Lookup(bindings, origins, node, source, identity))
    && (forall k :: 0 <= k < |bindings| ==>
          Group(bindings', bindings[k].runtime) == Group(bindings, bindings[k].runtime))
  }

  lemma AppendIsStable(
      bindings: seq<Binding>, more: seq<Binding>, origins: map<Symbol, Identity>, origins': map<Symbol, Identity>)
    requires forall k :: 0 <= k < |bindings| ==>
      IdentityOf(origins', bindings[k].runtime) == IdentityOf(origins, bindings[k].runtime)
    requires forall k, j :: 0 <= k < |bindings| && 0 <= j < |more| ==> bindings[k].runtime != more[j].runtime
    ensures Stable(bindings, bindings + more, origins, origins')
  {
    forall node, source, identity | Lookup(bindings, origins, node, source, identity).Some?
      ensures Lookup(bindings + more, origins', node, source, identity) ==
        Lookup(bindings, origins, node, source, identity)
    {
      LookupPersists(bindings, more, origins, origins', node, source, identity);
    }
    forall k | 0 <= k < |bindings|
      ensures Group(bindings + more, bindings[k].runtime) == Group(bindings, bindings[k].runtime)
    {
      GroupConcat(bindings, more, bindings[k].runtime);
      GroupAbsent(more, bindings[k].runtime);
    }
  }

  lemma NothingAddedIsStable(bindings: seq<Binding>, origins: map<Symbol, Identity>)
    ensures Stable(bindings, bindings, origins, origins)
  {
  }

  // No name in use, by a binding, by a provider's links or by an identity record.
  ghost predicate Unused(
    bindings: seq<Binding>, origins: map<Symbol, Identity>, providers: map<string, map<Symbol, Symbol>>,
    runtime: Symbol)
  {
    && (forall k :: 0 <= k < |bindings| ==> bindings[k].runtime != runtime)
    && runtime !in origins
    && (forall m, name :: m in providers && name in providers[m] ==> providers[m][name] != runtime)
  }

  ghost predicate TablesIssued(
    seed: string, bindings: seq<Binding>, origins: map<Symbol, Identity>, providers: map<string, map<Symbol, Symbol>>)
  {
    && AllIssued(seed, |bindings|, bindings)
    && (forall r :: r in origins ==> IssuedBelow(seed, |bindings|, r))
    && (forall m :: m in providers ==> LinksIssued(seed, |bindings|, providers[m]))
  }

  lemma NextNameUnused(
      seed: string, bindings: seq<Binding>, origins: map<Symbol, Identity>, providers: map<string, map<Symbol, Symbol>>,
      text: string, i: nat)
    requires TablesIssued(seed, bindings, origins, providers) && i >= |bindings|
    ensures Unused(bindings, origins, providers, HiddenName(seed, text, i))
  {
    hide HiddenName, IssuedBelow;
    var runtime := HiddenName(seed, text, i);
    forall k | 0 <= k < |bindings| ensures bindings[k].runtime != runtime {
      FreshName(seed, |bindings|, text, i, bindings[k].runtime);
    }
    if runtime in origins {
      FreshName(seed, |bindings|, text, i, runtime);
    }
    forall m, name | m in providers && name in providers[m] ensures providers[m][name] != runtime {
      FreshName(seed, |bindings|, text, i, providers[m][name]);
    }
  }

  lemma TablesGrow(
      seed: string, bindings: seq<Binding>, more: seq<Binding>, origins: map<Symbol, Identity>,
      providers: map<string, map<Symbol, Symbol>>)
    requires TablesIssued(seed, bindings, origins, providers)
    requires AllIssued(seed, |bindings + more|, more)
    ensures TablesIssued(seed, bindings + more, origins, providers)
  {
    hide HiddenName, IssuedBelow;
    var limit, total := |bindings|, |bindings + more|;
    forall k | 0 <= k < |bindings + more| ensures IssuedBelow(seed, total, (bindings + more)[k].runtime) {
      if k < limit {
        IssuedLater(seed, limit, total, bindings[k].runtime);
      }
    }
    forall r | r in origins ensures IssuedBelow(seed, total, r) {
      IssuedLater(seed, limit, total, r);
    }
    forall m, name | m in providers && name in providers[m] ensures IssuedBelow(seed, total, providers[m][name]) {
      IssuedLater(seed, limit, total, providers[m][name]);
    }
  }

  /** What hoisting a provider adds: `hoisted[k]` is the declaration of `added[k]`
      with its calls retargeted to the provider's links. */
  ghost predicate HoistedUnder(
    moduleName: string, links: map<Symbol, Symbol>, added: seq<Binding>, hoisted: seq<TypedNode>)
  {
    && |added| == |hoisted|
    && forall k :: 0 <= k < |added| ==>
         && added[k].source in links
         && added[k].runtime == links[added[k].source]
         && hoisted[k] == WithImportRuntimeName(added[k].node, added[k].runtime, Links(links),
                                                PrivateIdentity(moduleName, added[k].source, added[k].node))
  }

  // Each listed name has one link, numbered from the size of the binding table on.
  ghost predicate LinksFrom(seed: string, base: nat, names: seq<Symbol>, links: map<Symbol, Symbol>) {
    && Distinct(names)
    && (forall name :: name in links <==> name in names)
    && forall i :: 0 <= i < |names| ==>
         names[i] in links && links[names[i]] == HiddenName(seed, names[i].text, base + i)
  }

  ghost predicate Among(names: seq<Symbol>, done: nat, name: Symbol) {
    exists i :: 0 <= i < done && i < |names| && names[i] == name
  }

  // The groups of the first `done` names have been hoisted.
  ghost predicate GroupsHoisted(
    declarations: seq<Declaration>, names: seq<Symbol>, links: map<Symbol, Symbol>, done: nat, added: seq<Binding>)
    requires forall i :: 0 <= i < |names| ==> names[i] in links
    requires done <= |names|
  {
    && |added| >= done
    && OnlyFrom(names, done, added)
    && (forall j :: 0 <= j < done ==> Group(added, links[names[j]]) == Listed(declarations, names[j]))
  }

  ghost predicate OnlyFrom(names: seq<Symbol>, done: nat, added: seq<Binding>) {
    forall k :: 0 <= k < |added| ==> Among(names, done, added[k].source)
  }

  lemma LinksDiffer(seed: string, base: nat, names: seq<Symbol>, links: map<Symbol, Symbol>, i: nat, j: nat)
    requires LinksFrom(seed, base, names, links) && i < |names| && j < |names| && i != j
    ensures links[names[i]] != links[names[j]]
  {
    hide HiddenName;
    if links[names[i]] == links[names[j]] {
      HiddenNamesDiffer(seed, names[i].text, names[j].text, base + i, base + j);
    }
  }

  lemma HoistNextGroup(
      seed: string, base: nat, declarations: seq<Declaration>, names: seq<Symbol>, links: map<Symbol, Symbol>,
      done: nat,
      added: seq<Binding>, group: seq<TypedNode>)
    requires LinksFrom(seed, base, names, links) && done < |names|
    requires GroupsHoisted(declarations, names, links, done, added)
    requires forall k :: 0 <= k < |added| ==> added[k].source in links && added[k].runtime == links[added[k].source]
    requires group == Listed(declarations, names[done]) && group != []
    ensures GroupsHoisted(declarations, names, links, done + 1, added + Uniform(group, names[done], links[names[done]]))
  {
    hide Uniform, HiddenName, Listed, Group, Distinct, OnlyFrom, Among;
    var runtime := links[names[done]];
    var more := Uniform(group, names[done], runtime);
    UniformGroup(group, names[done], runtime);
    forall j: nat | j < done ensures links[names[j]] != runtime {
      LinksDiffer(seed, base, names, links, j, done);
    }
    hide LinksFrom;
    NoneOfLater(names, links, done, added);
    OneMoreSource(names, done, added, more);
    assert |added + more| >= done + 1;
    NewGroup(added, more, runtime);
    forall j: nat | j < done ensures Group(added + more, links[names[j]]) == Listed(declarations, names[j]) {
      OldGroup(added, more, links[names[j]]);
    }
  }

  lemma NewGroup(added: seq<Binding>, more: seq<Binding>, runtime: Symbol)
    requires forall k :: 0 <= k < |added| ==> added[k].runtime != runtime
    ensures Group(added + more, runtime) == Group(more, runtime)
  {
    GroupConcat(added, more, runtime);
    GroupAbsent(added, runtime);
  }

  lemma OldGroup(added: seq<Binding>, more: seq<Binding>, runtime: Symbol)
    requires forall k :: 0 <= k < |more| ==> more[k].runtime != runtime
    ensures Group(added + more, runtime) == Group(added, runtime)
  {
    GroupConcat(added, more, runtime);
    GroupAbsent(more, runtime);
  }

  lemma OneMoreSource(names: seq<Symbol>, done: nat, added: seq<Binding>, more: seq<Binding>)
    requires done < |names| && OnlyFrom(names, done, added)
    requires forall k :: 0 <= k < |more| ==> more[k].source == names[done]
    ensures OnlyFrom(names, done + 1, added + more)
  {
    forall k | 0 <= k < |added + more| ensures Among(names, done + 1, (added + more)[k].source) {
      if k < |added| {
        assert Among(names, done, added[k].source);
      } else {
        assert names[done] == more[k - |added|].source;
      }
    }
  }

  lemma NoneOfLater(names: seq<Symbol>, links: map<Symbol, Symbol>, done: nat, added: seq<Binding>)
    requires done < |names| && forall i :: 0 <= i < |names| ==> names[i] in links
    requires OnlyFrom(names, done, added)
    requires forall k :: 0 <= k < |added| ==> added[k].source in links && added[k].runtime == links[added[k].source]
    requires forall j: nat :: j < done ==> links[names[j]] != links[names[done]]
    ensures forall k :: 0 <= k < |added| ==> added[k].runtime != links[names[done]]
  {
    forall k | 0 <= k < |added| ensures added[k].runtime != links[names[done]] {
      assert Among(names, done, added[k].source);
      var i :| 0 <= i < done && i < |names| && names[i] == added[k].source;
    }
  }

  lemma LinksAreIssued(seed: string, base: nat, names: seq<Symbol>, links: map<Symbol, Symbol>, limit: nat)
    requires LinksFrom(seed, base, names, links) && base + |names| <= limit
    ensures LinksIssued(seed, limit, links)
  {
    hide HiddenName;
    forall name | name in links ensures IssuedBelow(seed, limit, links[name]) {
      var i :| 0 <= i < |names| && names[i] == name;
      assert links[name] == HiddenName(seed, name.text, base + i);
    }
    forall m, n | m in links && n in links && m != n ensures links[m] != links[n] {
      var i :| 0 <= i < |names| && names[i] == m;
      var j :| 0 <= j < |names| && names[j] == n;
      LinksDiffer(seed, base, names, links, i, j);
    }
  }

  // `names` lists what the declarations name, each once; `groups` collects the
  // declarations under each name.
  ghost predicate GroupsOf(
    declarations: seq<Declaration>, names: seq<Symbol>, groups: map<Symbol, seq<TypedNode>>)
  {
    && Distinct(names)
    && (forall name :: name in groups <==> name in names)
    && (forall name :: name in groups <==> Listed(declarations, name) != [])
    && (forall name :: name in groups ==> groups[name] == Listed(declarations, name))
  }

  lemma GroupsGrow(
      declarations: seq<Declaration>, d: Declaration, names: seq<Symbol>, groups: map<Symbol, seq<TypedNode>>)
    requires GroupsOf(declarations, names, groups)
    ensures
      if d.name in groups
      then GroupsOf(declarations + [d], names, groups[d.name := groups[d.name] + [d.node]])
      else GroupsOf(declarations + [d], names + [d.name], groups[d.name := [d.node]])
  {
    hide Distinct, Listed;
    forall name
      ensures Listed(declarations + [d], name) ==
        Listed(declarations, name) + (if d.name == name then [d.node] else [])
    {
      ListedOne(declarations, d, name);
    }
    if d.name !in groups {
      NewName(names, d.name);
    }
  }

  lemma ListedOne(declarations: seq<Declaration>, d: Declaration, name: Symbol)
    ensures Listed(declarations + [d], name) ==
      Listed(declarations, name) + (if d.name == name then [d.node] else [])
  {
    assert (declarations + [d])[..|declarations|] == declarations;
  }

  lemma NewName(names: seq<Symbol>, name: Symbol)
    requires Distinct(names) && name !in names
    ensures Distinct(names + [name])
  {
    assert Distinct([name]);
    DistinctAppend(names, [name]);
  }

  lemma {:induction false} ListedMeans(declarations: seq<Declaration>, name: Symbol)
    ensures Listed(declarations, name) != [] <==> exists k :: 0 <= k < |declarations| && declarations[k].name == name
  {
    if declarations != [] {
      var front := declarations[..|declarations| - 1];
      ListedMeans(front, name);
      if k :| 0 <= k < |front| && front[k].name == name {
        assert declarations[k].name == name;
      }
      if k :| 0 <= k < |declarations| && declarations[k].name == name {
        assert k < |front| ==> front[k].name == name;
      }
    }
  }

  // The names a provider lists, in the order of first appearance, with their declarations.
  method CollectGroups(declarations: seq<Declaration>) returns (names: seq<Symbol>, groups: map<Symbol, seq<TypedNode>>)
    ensures GroupsOf(declarations, names, groups) && Distinct(names)
  {
    names, groups := [], map[];
    assert GroupsOf([], names, groups);
    assert declarations[..0] == [];
    hide GroupsOf;
    for k := 0 to |declarations|
      invariant GroupsOf(declarations[..k], names, groups)
    {
      var d := declarations[k];
      GroupsGrow(declarations[..k], d, names, groups);
      assert declarations[..k + 1] == declarations[..k] + [d];
      if d.name in groups {
        groups := groups[d.name := groups[d.name] + [d.node]];
      } else {
        names := names + [d.name];
        groups := groups[d.name := [d.node]];
      }
    }
    assert declarations[..|declarations|] == declarations;
    GroupNamesDistinct(declarations, names, groups);
  }

  lemma GroupNamesDistinct(declarations: seq<Declaration>, names: seq<Symbol>, groups: map<Symbol, seq<TypedNode>>)
    requires GroupsOf(declarations, names, groups)
    ensures Distinct(names)
  {
  }

  /** The tables of a session, and what one request does to them. */
  datatype Tables = Tables(
    seed: string,
    nodes: seq<TypedNode>,
    bindings: seq<Binding>,
    origins: map<Symbol, Identity>,
    providers: map<string, map<Symbol, Symbol>>)

  ghost predicate Issued(t: Tables) {
    TablesIssued(t.seed, t.bindings, t.origins, t.providers)
  }

  ghost predicate Fresh(t: Tables, runtime: Symbol) {
    Unused(t.bindings, t.origins, t.providers, runtime)
  }

  /** Hoisting one declaration: an equal request has its answer and changes nothing, a
      new one gets the next name, which is in use nowhere; earlier requests and calls
      keep their answers. */
  ghost predicate Declares(
    t: Tables, node: TypedNode, source: Symbol, links: Links, identity: Identity, runtime: Symbol, u: Tables)
  {
    && u.seed == t.seed && u.providers == t.providers
    && Lookup(u.bindings, u.origins, node, source, identity) == Some(runtime)
    && Stable(t.bindings, u.bindings, t.origins, u.origins)
    && var known := Lookup(t.bindings, t.origins, node, source, identity);
       if known.Some? then known.value == runtime && u == t
       else
         && runtime == HiddenName(t.seed, source.text, |t.bindings|)
         && Fresh(t, runtime)
         && u.nodes == t.nodes + [WithImportRuntimeName(node, runtime, links, identity)]
         && u.bindings == t.bindings + [Binding(node, source, runtime)]
         && u.origins == t.origins[runtime := identity]
  }

  /** Hoisting a provider: a known module has its links and changes nothing; a new one
      gets one fresh link per listed name, standing for exactly its declarations, all of
      them hoisted with their calls retargeted; earlier requests and calls keep their
      answers. */
  ghost predicate Provides(
    t: Tables, moduleName: string, declarations: seq<Declaration>, links: map<Symbol, Symbol>, u: Tables)
  {
    && u.seed == t.seed && u.origins == t.origins
    && moduleName in u.providers && u.providers[moduleName] == links
    && Stable(t.bindings, u.bindings, t.origins, u.origins)
    && (moduleName in t.providers ==> links == t.providers[moduleName] && u == t)
    && (moduleName !in t.providers ==>
          && u.providers == t.providers[moduleName := links]
          && LinksIssued(t.seed, |u.bindings|, links)
          && (forall name :: name in links <==> exists k :: 0 <= k < |declarations| && declarations[k].name == name)
          && (forall name :: name in links ==> Fresh(t, links[name]))
          && (forall name :: name in links ==> Group(u.bindings, links[name]) == Listed(declarations, name))
          && t.bindings <= u.bindings && t.nodes <= u.nodes
          && HoistedUnder(moduleName, links, u.bindings[|t.bindings|..], u.nodes[|t.nodes|..]))
  }

  class Prelude {
    const seed: string
    var nodes: seq<TypedNode>
    var bindings: seq<Binding>
    var origins: map<Symbol, Identity>
    var providerLinks: map<string, map<Symbol, Symbol>>

    ghost function Now(): Tables
      reads this
    {
      Tables(seed, nodes, bindings, origins, providerLinks)
    }

    ghost predicate Valid()
      reads this
    {
      Issued(Now())
    }

    constructor (seed: string)
      ensures Valid() && Now() == Tables(seed, [], [], map[], map[])
    {
      this.seed := seed;
      nodes, bindings, origins, providerLinks := [], [], map[], map[];
    }

    // Hoist one declaration, or return the binding an equal request already got.
    method AddDeclaration(node: TypedNode, source: Symbol, links: Links, identity: Identity) returns (runtime: Symbol)
      requires Valid()
      modifies this
      ensures Valid() && Declares(old(Now()), node, source, links, identity, runtime, Now())
    {
      for k := 0 to |bindings|
        invariant unchanged(this)
        invariant Lookup(bindings, origins, node, source, identity) ==
          Lookup(bindings[k..], origins, node, source, identity)
      {
        if Matches(bindings[k], origins, node, source, identity) {
          runtime := bindings[k].runtime;
          return;
        }
      }
      var index := |bindings|;
      runtime := HiddenName(seed, source.text, index);
      NextNameUnused(seed, bindings, origins, providerLinks, source.text, index);
      nodes := nodes + [WithImportRuntimeName(node, runtime, links, identity)];
      bindings := bindings + [Binding(node, source, runtime)];
      origins := origins[runtime := identity];
      DeclarationAdded(seed, old(bindings), old(origins), providerLinks, Binding(node, source, runtime), identity);
    }

    // Hoist all declarations of a provider under one set of private links, or
    // return the links it already has.
    method AddProviderDeclarations(moduleName: string, declarations: seq<Declaration>)
      returns (links: map<Symbol, Symbol>)
      requires Valid()
      modifies this
      ensures Valid() && Provides(old(Now()), moduleName, declarations, links, Now())
    {
      hide HiddenName, Listed, Group, Lookup, Distinct, Stable, TablesIssued, GroupsHoisted, LinksFrom, Unused,
           LinksIssued,
           HoistedUnder, GroupsOf;
      if moduleName in providerLinks {
        NothingAddedIsStable(bindings, origins);
        return providerLinks[moduleName];
      }
      var names, groups := CollectGroups(declarations);
      links := IssueLinks(names, |bindings|);
      ghost var base, oldBindings, oldNodes, oldLinks := |bindings|, bindings, nodes, providerLinks;
      providerLinks := providerLinks[moduleName := links];
      HoistGroups(moduleName, declarations, names, groups, links);
      ghost var added, hoisted := bindings[base..], nodes[|oldNodes|..];
      assert bindings == oldBindings + added;
      ProviderAdded(seed, oldBindings, origins, oldLinks, moduleName, declarations, names, links, added, hoisted);
      LinksNameDeclarations(seed, base, declarations, names, groups, links);
    }

    method IssueLinks(names: seq<Symbol>, base: nat) returns (links: map<Symbol, Symbol>)
      requires Distinct(names)
      ensures LinksFrom(seed, base, names, links)
    {
      links := map[];
      hide HiddenName;
      for i := 0 to |names|
        invariant forall name :: name in links <==> name in names[..i]
        invariant forall j :: 0 <= j < i ==>
          names[j] in links && links[names[j]] == HiddenName(seed, names[j].text, base + j)
      {
        assert names[..i + 1] == names[..i] + [names[i]];
        links := links[names[i] := HiddenName(seed, names[i].text, base + i)];
      }
      assert names[..|names|] == names;
    }

    method HoistGroups(
        moduleName: string, ghost declarations: seq<Declaration>, names: seq<Symbol>,
        groups: map<Symbol, seq<TypedNode>>, links: map<Symbol, Symbol>)
      requires LinksFrom(seed, |bindings|, names, links)
      requires GroupsOf(declarations, names, groups)
      modifies `nodes, `bindings
      ensures old(bindings) <= bindings && old(nodes) <= nodes
      ensures HoistedUnder(moduleName, links, bindings[|old(bindings)|..], nodes[|old(nodes)|..])
      ensures GroupsHoisted(declarations, names, links, |names|, bindings[|old(bindings)|..])
    {
      ghost var base, oldBindings, oldNodes := |bindings|, bindings, nodes;
      ghost var added: seq<Binding>, hoisted: seq<TypedNode> := [], [];
      hide HiddenName, Listed, Group, Uniform, Distinct, WithImportRuntimeName;
      for i := 0 to |names|
        invariant bindings == oldBindings + added && nodes == oldNodes + hoisted
        invariant HoistedUnder(moduleName, links, added, hoisted)
        invariant GroupsHoisted(declarations, names, links, i, added)
      {
        var name := names[i];
        assert name in names;
        HoistNextGroup(seed, base, declarations, names, links, i, added, groups[name]);
        ghost var more, moreNodes := HoistGroup(moduleName, name, groups[name], links);
        added, hoisted := added + more, hoisted + moreNodes;
      }
      assert bindings[|oldBindings|..] == added && nodes[|oldNodes|..] == hoisted;
    }

    method HoistGroup(moduleName: string, name: Symbol, group: seq<TypedNode>, links: map<Symbol, Symbol>)
      returns (ghost more: seq<Binding>, ghost moreNodes: seq<TypedNode>)
      requires name in links
      modifies `nodes, `bindings
      ensures more == Uniform(group, name, links[name])
      ensures bindings == old(bindings) + more && nodes == old(nodes) + moreNodes
      ensures HoistedUnder(moduleName, links, more, moreNodes)
    {
      more, moreNodes := [], [];
      assert group[..0] == [];
      hide WithImportRuntimeName;
      for t := 0 to |group|
        invariant more == Uniform(group[..t], name, links[name])
        invariant bindings == old(bindings) + more && nodes == old(nodes) + moreNodes
        invariant HoistedUnder(moduleName, links, more, moreNodes)
      {
        var node := group[t];
        var hoisted := WithImportRuntimeName(node, links[name], Links(links), PrivateIdentity(moduleName, name, node));
        assert group[..t + 1][..t] == group[..t];
        nodes := nodes + [hoisted];
        bindings := bindings + [Binding(node, name, links[name])];
        more, moreNodes := more + [Binding(node, name, links[name])], moreNodes + [hoisted];
      }
      assert group[..|group|] == group;
    }
  }

  lemma LinksNameDeclarations(
      seed: string, base: nat, declarations: seq<Declaration>, names: seq<Symbol>, groups: map<Symbol, seq<TypedNode>>,
      links: map<Symbol, Symbol>)
    requires GroupsOf(declarations, names, groups) && LinksFrom(seed, base, names, links)
    ensures forall name :: name in links <==> exists k :: 0 <= k < |declarations| && declarations[k].name == name
  {
    hide HiddenName, Listed, Distinct;
    forall name ensures name in links <==> exists k :: 0 <= k < |declarations| && declarations[k].name == name {
      ListedMeans(declarations, name);
    }
  }

  lemma ProviderAdded(
      seed: string, bindings: seq<Binding>, origins: map<Symbol, Identity>, providers: map<string, map<Symbol, Symbol>>,
      moduleName: string, declarations: seq<Declaration>, names: seq<Symbol>, links: map<Symbol, Symbol>,
      added: seq<Binding>, hoisted: seq<TypedNode>)
    requires TablesIssued(seed, bindings, origins, providers)
    requires LinksFrom(seed, |bindings|, names, links)
    requires GroupsHoisted(declarations, names, links, |names|, added)
    requires HoistedUnder(moduleName, links, added, hoisted)
    ensures LinksIssued(seed, |bindings + added|, links)
    ensures forall name :: name in links ==> Unused(bindings, origins, providers, links[name])
    ensures forall name :: name in links ==> Group(bindings + added, links[name]) == Listed(declarations, name)
    ensures Stable(bindings, bindings + added, origins, origins)
    ensures TablesIssued(seed, bindings + added, origins, providers[moduleName := links])
  {
    hide HiddenName, IssuedBelow, Listed, Group, Lookup, Distinct, Stable;
    LinksAreIssued(seed, |bindings|, names, links, |bindings + added|);
    forall name | name in links ensures Unused(bindings, origins, providers, links[name]) {
      var i :| 0 <= i < |names| && names[i] == name;
      NextNameUnused(seed, bindings, origins, providers, name.text, |bindings| + i);
    }
    forall name | name in links ensures Group(bindings + added, links[name]) == Listed(declarations, name) {
      var i :| 0 <= i < |names| && names[i] == name;
      GroupConcat(bindings, added, links[name]);
      GroupAbsent(bindings, links[name]);
      assert [] + Group(added, links[name]) == Group(added, links[name]);
    }
    AppendIsStable(bindings, added, origins, origins);
    TablesGrow(seed, bindings, added, origins, providers);
  }

  lemma DeclarationAdded(
      seed: string, bindings: seq<Binding>, origins: map<Symbol, Identity>, providers: map<string, map<Symbol, Symbol>>,
      b: Binding, identity: Identity)
    requires TablesIssued(seed, bindings, origins, providers)
    requires Unused(bindings, origins, providers, b.runtime)
    requires b.runtime == HiddenName(seed, b.source.text, |bindings|)
    requires Lookup(bindings, origins, b.node, b.source, identity).None?
    ensures TablesIssued(seed, bindings + [b], origins[b.runtime := identity], providers)
    ensures Lookup(bindings + [b], origins[b.runtime := identity], b.node, b.source, identity) == Some(b.runtime)
    ensures Stable(bindings, bindings + [b], origins, origins[b.runtime := identity])
  {
    var origins' := origins[b.runtime := identity];
    LookupLast(bindings, b, origins, origins', identity);
    AppendIsStable(bindings, [b], origins, origins');
    assert IssuedBelow(seed, |bindings| + 1, b.runtime);
    hide HiddenName, IssuedBelow, Lookup;
    TablesGrow(seed, bindings, [b], origins, providers);
  }

  // The bodies of a declaration that reach the runtime.
  function Bodies(node: TypedNode): seq<Value> {
    match node
    case FunctionNode(_, _, overloads) => overloads
    case ObjectNode(_, _, _, typed, _, bodies) => if typed then bodies else []
    case ImportedFunction(_, _, overloads, _) => overloads
    case ImportedObject(_, _, _, _, bodies, _, _, _) => bodies
    case OtherNode(_) => []
  }

  // What is hoisted is published under its binding, imported before or not, and
  // hoisting keeps all its bodies.
  lemma HoistedIsPublished(
      moduleName: string, links: map<Symbol, Symbol>, added: seq<Binding>, hoisted: seq<TypedNode>, k: nat)
    requires HoistedUnder(moduleName, links, added, hoisted) && k < |added|
    ensures added[k].node.OtherNode? <==> RuntimeName(hoisted[k]).None?
    ensures RuntimeName(hoisted[k]).Some? ==> RuntimeName(hoisted[k]) == Some(added[k].runtime)
    ensures |Bodies(hoisted[k])| == |Bodies(added[k].node)|
  {
    assert hoisted[k] == WithImportRuntimeName(added[k].node, added[k].runtime, Links(links),
                                               PrivateIdentity(moduleName, added[k].source, added[k].node));
  }

  // Hoisting keeps what calls mean: in every body of a hoisted declaration, a call that
  // is not bound elsewhere and names the declaration itself or a sibling is bound to a
  // name standing for exactly the declarations the provider lists for it; every other
  // call is left alone.
  lemma HoistedCallsKeepTheirMeaning(
      moduleName: string, declarations: seq<Declaration>, links: map<Symbol, Symbol>, bindings: seq<Binding>,
      added: seq<Binding>, hoisted: seq<TypedNode>, k: nat, b: nat, position: seq<nat>, call: Value)
    requires HoistedUnder(moduleName, links, added, hoisted) && k < |added|
    requires forall name :: name in links ==> Group(bindings, links[name]) == Listed(declarations, name)
    requires b < |Bodies(added[k].node)|
    requires At(Bodies(added[k].node)[b], position) == Some(call) && call.Call?
    ensures b < |Bodies(hoisted[k])|
    ensures
      var rewritten := At(Bodies(hoisted[k])[b], position);
      var reached := Reached(call, SelfName(added[k].node), added[k].source, links);
      && rewritten.Some? && rewritten.value.Call? && rewritten.value.node == call.node
      && (reached.Some? ==>
            && reached.value in links
            && rewritten.value.runtimeName == Some(links[reached.value])
            && Group(bindings, links[reached.value]) == Listed(declarations, reached.value))
      && (reached.None? ==> rewritten.value.runtimeName == call.runtimeName)
  {
    hide Group, Listed, At;
    HoistedIsPublished(moduleName, links, added, hoisted, k);
    CallsReachTheirSiblings(
      Bodies(added[k].node)[b], SelfName(added[k].node), added[k].source, links, position, call);
  }

  /* What hoisting keeps of a declaration, and what it adds. */

  // The name under which a declaration defines itself; a function that is no
  // definition has the empty name.
  ghost predicate Defines(node: TypedNode, name: Symbol) {
    match node
    case FunctionNode(_, defined, _) => defined == Some(name) || (defined == None && name == Symbol("", []))
    case ImportedFunction(_, defined, _, _) => defined == Some(name) || (defined == None && name == Symbol("", []))
    case ObjectNode(_, defined, _, _, _, _) => defined == name
    case ImportedObject(_, defined, _, _, _, _, _, _) => defined == name
    case OtherNode(_) => false
  }

  lemma ImportedBodies(node: TypedNode, runtime: Symbol, links: Links, identity: Identity, b: nat)
    requires b < |Bodies(node)|
    ensures b < |Bodies(WithImportRuntimeName(node, runtime, links, identity))|
    ensures Bodies(WithImportRuntimeName(node, runtime, links, identity))[b] ==
      Rewrite(Bodies(node)[b], SelfName(node), runtime, links)
    ensures forall name :: Defines(node, name) <==> name == SelfName(node)
  {
    hide Rewrite;
  }

  // In every body of an imported declaration a call already bound to some other runtime
  // name keeps it. One that is not is bound to the new name of the declaration, if it
  // names the declaration, and otherwise to the link of the name it calls, if there is one.
  lemma ImportedCallsKeepTheirProvider(
      node: TypedNode, runtime: Symbol, links: Links, identity: Identity, b: nat, position: seq<nat>, name: Symbol,
      bound: Option<Symbol>, fields: seq<Value>)
    requires b < |Bodies(node)| && At(Bodies(node)[b], position) == Some(Call(Element(name), bound, fields))
    ensures b < |Bodies(WithImportRuntimeName(node, runtime, links, identity))|
    ensures
      var rewritten := At(Bodies(WithImportRuntimeName(node, runtime, links, identity))[b], position);
      && rewritten.Some? && rewritten.value.Call? && rewritten.value.node == Element(name)
      && (forall r :: bound == Some(r) && r != name ==> rewritten.value.runtimeName == Some(r))
      && (bound == None || bound == Some(name) ==>
            rewritten.value.runtimeName ==
              if Defines(node, name) then Some(runtime)
              else if links.Links? && name in links.targets then Some(links.targets[name])
              else bound)
  {
    ImportedBodies(node, runtime, links, identity, b);
    hide At, Bodies, Defines, WithImportRuntimeName, SelfName, Rewrite;
    BoundCallsKeepTheirProvider(Bodies(node)[b], SelfName(node), runtime, links, position, name, bound, fields);
  }

  // The same for the declarations of a provider, which share their links.
  lemma HoistedCallsKeepTheirProvider(
      moduleName: string, links: map<Symbol, Symbol>, added: seq<Binding>, hoisted: seq<TypedNode>, k: nat, b: nat,
      position: seq<nat>, name: Symbol, bound: Option<Symbol>, fields: seq<Value>)
    requires HoistedUnder(moduleName, links, added, hoisted) && k < |added|
    requires b < |Bodies(added[k].node)|
    requires At(Bodies(added[k].node)[b], position) == Some(Call(Element(name), bound, fields))
    ensures b < |Bodies(hoisted[k])|
    ensures
      var rewritten := At(Bodies(hoisted[k])[b], position);
      && rewritten.Some? && rewritten.value.Call? && rewritten.value.node == Element(name)
      && (forall r :: bound == Some(r) && r != name ==> rewritten.value.runtimeName == Some(r))
      && (bound == None || bound == Some(name) ==>
            rewritten.value.runtimeName ==
              if Defines(added[k].node, name) then Some(links[added[k].source])
              else if name in links then Some(links[name])
              else bound)
  {
    hide At, Bodies, Defines, WithImportRuntimeName;
    var d := added[k];
    ImportedCallsKeepTheirProvider(
      d.node, d.runtime, Links(links), PrivateIdentity(moduleName, d.source, d.node), b, position, name, bound, fields);
  }

  // Nothing of an imported declaration but the bindings of its calls changes; it is
  // published under its runtime name, an object with the nominal identity it is given.
  lemma ImportKeepsDeclaration(node: TypedNode, runtime: Symbol, links: Links, identity: Identity)
    ensures
      var imported := WithImportRuntimeName(node, runtime, links, identity);
      && imported.details == node.details
      && (node.OtherNode? <==> imported.OtherNode?)
      && (imported.ImportedFunction? || imported.ImportedObject? ==> imported.runtimeName == runtime)
      && (forall name :: Defines(imported, name) <==> Defines(node, name))
      && |Bodies(imported)| == |Bodies(node)|
      && (forall b :: 0 <= b < |Bodies(node)| ==> Shape(Bodies(imported)[b]) == Shape(Bodies(node)[b]))
      && (node.ObjectNode? || node.ImportedObject? ==>
            && imported.ImportedObject? && imported.plainObject == node.plainObject
            && Identity(imported.nominal, imported.origins) == identity
            && (node.ObjectNode? && !node.typed ==> imported.methods == "" && imported.methodBodies == [])
            && (node.ImportedObject? || node.typed ==> imported.methods == node.methods))
  {
    var imported := WithImportRuntimeName(node, runtime, links, identity);
    forall b | 0 <= b < |Bodies(node)| ensures Shape(Bodies(imported)[b]) == Shape(Bodies(node)[b]) {
      assert Bodies(imported)[b] == Rewrite(Bodies(node)[b], SelfName(node), runtime, links);
      RewriteKeepsShape(Bodies(node)[b], SelfName(node), runtime, links);
    }
  }

  lemma {:induction false} SplitJoins(s: string, text: string)
    ensures SplitDots(s) != [] && forall k :: 0 <= k < |SplitDots(s)| ==> '.' !in SplitDots(s)[k]
    ensures Dotted(Symbol(text, SplitDots(s))) == s + "." + text
  {
    var parts := SplitDots(s);
    if s == "" {
      assert parts[1..] == [];
      assert Dotted(Symbol(text, [])) == text;
    } else {
      var rest := SplitDots(s[1..]);
      SplitJoins(s[1..], text);
      assert s == [s[0]] + s[1..];
      if s[0] == '.' {
        assert parts[1..] == rest;
      } else {
        assert parts[1..] == rest[1..] && parts[0] == [s[0]] + rest[0];
        var below := Dotted(Symbol(text, rest[1..]));
        assert Dotted(Symbol(text, rest)) == rest[0] + "." + below;
        assert Dotted(Symbol(text, parts)) == parts[0] + "." + below;
        assert parts[0] + "." + below == [s[0]] + (rest[0] + "." + below);
      }
    }
  }

  // A hoisted object that introduces a nominal type has it in the namespace of its
  // module: the identity is spelled as the module name and the listed name, each part
  // of the module name being a namespace. Other objects have none.
  lemma HoistedIdentity(
      moduleName: string, links: map<Symbol, Symbol>, added: seq<Binding>, hoisted: seq<TypedNode>, k: nat)
    requires HoistedUnder(moduleName, links, added, hoisted) && k < |added|
    requires hoisted[k].ImportedObject?
    ensures hoisted[k].origins == []
    ensures !hoisted[k].plainObject ==> hoisted[k].nominal == None
    ensures hoisted[k].plainObject ==>
      && hoisted[k].nominal.Some?
      && hoisted[k].nominal.value.text == added[k].source.text
      && Dotted(hoisted[k].nominal.value) == moduleName + "." + added[k].source.text
      && forall n :: n in hoisted[k].nominal.value.namespace ==> '.' !in n
  {
    SplitJoins(moduleName, added[k].source.text);
    assert hoisted[k] == WithImportRuntimeName(added[k].node, added[k].runtime, Links(links),
                                               PrivateIdentity(moduleName, added[k].source, added[k].node));
  }

  lemma {:induction false} LookupFinds(
      bindings: seq<Binding>, origins: map<Symbol, Identity>, node: TypedNode, source: Symbol, identity: Identity)
    returns (k: nat)
    requires Lookup(bindings, origins, node, source, identity).Some?
    ensures k < |bindings|
    ensures bindings[k] == Binding(node, source, Lookup(bindings, origins, node, source, identity).value)
    ensures if bindings[k].runtime in origins then origins[bindings[k].runtime] == identity
            else identity == Identity(None, [])
  {
    if Matches(bindings[0], origins, node, source, identity) {
      k := 0;
    } else {
      k := LookupFinds(bindings[1..], origins, node, source, identity);
      k := k + 1;
    }
  }
}
