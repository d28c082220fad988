/** Whole sessions of hoisting requests, from an empty prelude. */
module ImportSession {
  import opened Options
  import opened Symbols
  import opened ImportRuntime
  import opened ImportPrelude

  datatype Request =
    | Declare(node: TypedNode, source: Symbol, runtimeLinks: Links, identity: Identity)
    | Provide(moduleName: string, declarations: seq<Declaration>)

  datatype Answer = Bound(runtime: Symbol) | Linked(links: map<Symbol, Symbol>)

  datatype Event = Event(request: Request, answer: Answer, after: Tables)

  ghost predicate Follows(t: Tables, e: Event) {
    match e.request
    case Declare(node, source, runtimeLinks, identity) =>
      e.answer.Bound? && Declares(t, node, source, runtimeLinks, identity, e.answer.runtime, e.after)
    case Provide(moduleName, declarations) =>
      e.answer.Linked? && Provides(t, moduleName, declarations, e.answer.links, e.after)
  }

  // The tables before event `k`.
  function Before(seed: string, events: seq<Event>, k: nat): Tables
    requires k <= |events|
  {
    if k == 0 then Tables(seed, [], [], map[], map[]) else events[k - 1].after
  }

  /** Any sequence of requests, each answered as the prelude answers it. */
  ghost predicate Session(seed: string, events: seq<Event>) {
    forall k {:trigger events[k]} :: 0 <= k < |events| ==> Follows(Before(seed, events, k), events[k])
  }

  lemma EventOf(seed: string, events: seq<Event>, k: nat)
    requires Session(seed, events) && k < |events|
    ensures Follows(Before(seed, events, k), events[k])
  {
    hide Follows;
  }

  /* What every event keeps. */

  // Nothing in use is forgotten.
  ghost predicate Grows(t: Tables, u: Tables) {
    && t.seed == u.seed
    && t.bindings <= u.bindings
    && t.origins.Keys <= u.origins.Keys
    && forall m :: m in t.providers ==> m in u.providers && u.providers[m] == t.providers[m]
  }

  lemma EventGrows(t: Tables, e: Event)
    requires Follows(t, e)
    ensures Grows(t, e.after)
  {
    hide Stable, Lookup, HoistedUnder, LinksIssued, Unused, Listed, Group;
  }

  lemma DeclarationIsIssued(t: Tables, e: Event)
    requires Issued(t) && Follows(t, e) && e.request.Declare?
    ensures Issued(e.after)
  {
    var node, source, identity := e.request.node, e.request.source, e.request.identity;
    hide TablesIssued, Stable, Lookup, Unused, HiddenName;
    if Lookup(t.bindings, t.origins, node, source, identity).None? {
      DeclarationAdded(
        t.seed, t.bindings, t.origins, t.providers, Binding(node, source, e.answer.runtime), identity);
    }
  }

  lemma ProviderIsIssued(t: Tables, e: Event)
    requires Issued(t) && Follows(t, e) && e.request.Provide?
    ensures Issued(e.after)
  {
    hide Stable, Lookup, Unused, Listed, Group, WithImportRuntimeName, IssuedBelow;
    var u := e.after;
    if e.request.moduleName !in t.providers {
      var more := u.bindings[|t.bindings|..];
      assert u.bindings == t.bindings + more;
      TablesGrow(t.seed, t.bindings, more, t.origins, t.providers);
    }
  }

  // In every session each name in use was issued with a number below the number of
  // bindings, and the links of each provider are injective.
  lemma {:induction false} EverySessionIsIssued(seed: string, events: seq<Event>, k: nat)
    requires Session(seed, events) && k <= |events|
    ensures Issued(Before(seed, events, k)) && Before(seed, events, k).seed == seed
  {
    hide Issued, Session, Follows;
    if k == 0 {
      EmptyIsIssued(seed);
    } else {
      EverySessionIsIssued(seed, events, k - 1);
      var t, e := Before(seed, events, k - 1), events[k - 1];
      EventOf(seed, events, k - 1);
      EventGrows(t, e);
      if e.request.Declare? {
        DeclarationIsIssued(t, e);
      } else {
        ProviderIsIssued(t, e);
      }
    }
  }

  lemma EmptyIsIssued(seed: string)
    ensures Issued(Tables(seed, [], [], map[], map[]))
  {
  }

  lemma {:induction false} SessionGrows(seed: string, events: seq<Event>, j: nat, k: nat)
    requires Session(seed, events) && j <= k <= |events|
    ensures Grows(Before(seed, events, j), Before(seed, events, k))
    decreases k
  {
    hide Session, Follows;
    if j < k {
      SessionGrows(seed, events, j, k - 1);
      EventOf(seed, events, k - 1);
      EventGrows(Before(seed, events, k - 1), events[k - 1]);
    }
  }

  lemma StableTrans(
      a: seq<Binding>, b: seq<Binding>, c: seq<Binding>, x: map<Symbol, Identity>, y: map<Symbol, Identity>,
      z: map<Symbol, Identity>)
    requires Stable(a, b, x, y) && Stable(b, c, y, z) && a <= b
    ensures Stable(a, c, x, z)
  {
    hide Lookup, Group;
    forall k | 0 <= k < |a| ensures Group(c, a[k].runtime) == Group(a, a[k].runtime) {
      assert b[k] == a[k];
    }
  }

  lemma EventIsStable(t: Tables, e: Event)
    requires Follows(t, e)
    ensures Stable(t.bindings, e.after.bindings, t.origins, e.after.origins)
  {
    hide Stable, Lookup, HoistedUnder, LinksIssued, Unused, Listed, Group;
  }

  // Over whole sessions no earlier request or call changes its answer.
  lemma {:induction false} AnswersStand(seed: string, events: seq<Event>, j: nat, k: nat)
    requires Session(seed, events) && j <= k <= |events|
    ensures
      var t, u := Before(seed, events, j), Before(seed, events, k);
      Stable(t.bindings, u.bindings, t.origins, u.origins)
    decreases k
  {
    hide Stable, Session, Follows;
    var t := Before(seed, events, j);
    if j == k {
      NothingAddedIsStable(t.bindings, t.origins);
    } else {
      AnswersStand(seed, events, j, k - 1);
      SessionGrows(seed, events, j, k - 1);
      var s, e := Before(seed, events, k - 1), events[k - 1];
      EventOf(seed, events, k - 1);
      EventIsStable(s, e);
      StableTrans(t.bindings, s.bindings, e.after.bindings, t.origins, s.origins, e.after.origins);
    }
  }

  /* What sessions promise. */

  ghost predicate SameRequest(a: Request, b: Request) {
    || (a.Declare? && b.Declare? && a.node == b.node && a.source == b.source && a.identity == b.identity)
    || (a.Provide? && b.Provide? && a.moduleName == b.moduleName)
  }

  // Repeating a request, however much later, gives the same answer and changes nothing.
  lemma RepeatedRequest(seed: string, events: seq<Event>, j: nat, k: nat)
    requires Session(seed, events) && j < k < |events| && SameRequest(events[j].request, events[k].request)
    ensures events[k].answer == events[j].answer && events[k].after == Before(seed, events, k)
  {
    hide Session, Follows, Stable, Grows, SameRequest;
    EventOf(seed, events, j);
    EventOf(seed, events, k);
    AnswersStand(seed, events, j + 1, k);
    SessionGrows(seed, events, j + 1, k);
    RepeatedEvent(Before(seed, events, j), events[j], Before(seed, events, k), events[k]);
  }

  lemma RepeatedEvent(t: Tables, e: Event, s: Tables, f: Event)
    requires Follows(t, e) && Follows(s, f) && SameRequest(e.request, f.request)
    requires Grows(e.after, s) && Stable(e.after.bindings, s.bindings, e.after.origins, s.origins)
    ensures f.answer == e.answer && f.after == s
  {
    hide Lookup, Group, HoistedUnder, LinksIssued, Unused, Listed, HiddenName;
  }

  // The names an event issues: those that its request did not have before.
  ghost function NamesIssued(seed: string, events: seq<Event>, k: nat): set<Symbol>
    requires k < |events|
  {
    var t, e := Before(seed, events, k), events[k];
    if e.after == t then {}
    else if e.answer.Bound? then {e.answer.runtime}
    else e.answer.links.Values
  }

  // Names are issued once: what an event issues was in use nowhere, and is issued by no
  // other event of the session.
  lemma IssuedOnce(seed: string, events: seq<Event>, j: nat, k: nat, name: Symbol)
    requires Session(seed, events) && j < k < |events|
    requires name in NamesIssued(seed, events, k)
    ensures Fresh(Before(seed, events, k), name)
    ensures name !in NamesIssued(seed, events, j)
  {
    hide Session, Follows, Grows, Fresh;
    EventOf(seed, events, j);
    EventOf(seed, events, k);
    SessionGrows(seed, events, j + 1, k);
    IssuedIsFresh(Before(seed, events, k), events[k], name);
    if name in NamesIssued(seed, events, j) {
      IssuedIsInUse(Before(seed, events, j), events[j], name);
      InUseStays(events[j].after, Before(seed, events, k), name);
    }
  }

  lemma IssuedIsFresh(t: Tables, e: Event, name: Symbol)
    requires Follows(t, e) && e.after != t
    requires if e.answer.Bound? then name == e.answer.runtime else name in e.answer.links.Values
    ensures Fresh(t, name)
  {
    hide Lookup, Stable, Group, HoistedUnder, LinksIssued, Listed, HiddenName, Fresh;
  }

  lemma IssuedIsInUse(t: Tables, e: Event, name: Symbol)
    requires Follows(t, e) && e.after != t
    requires if e.answer.Bound? then name == e.answer.runtime else name in e.answer.links.Values
    ensures !Fresh(e.after, name)
  {
    hide Lookup, Stable, Group, HoistedUnder, LinksIssued, Listed, HiddenName;
    if e.answer.Linked? {
      var n :| n in e.answer.links && e.answer.links[n] == name;
      assert e.request.moduleName in e.after.providers && n in e.after.providers[e.request.moduleName];
    }
  }

  lemma InUseStays(t: Tables, u: Tables, name: Symbol)
    requires Grows(t, u) && !Fresh(t, name)
    ensures !Fresh(u, name)
  {
    if k :| 0 <= k < |t.bindings| && t.bindings[k].runtime == name {
      assert u.bindings[k].runtime == name;
    }
    if m, n :| m in t.providers && n in t.providers[m] && t.providers[m][n] == name {
      assert n in u.providers[m] && u.providers[m][n] == name;
    }
  }

  /* Different requests get different names. */

  // Bindings under one name have one source; a name that was given to a declaration on
  // its own has one binding, and every other name in use is a provider's link.
  ghost predicate Attributed(t: Tables) {
    && (forall j, k :: 0 <= j < |t.bindings| && 0 <= k < |t.bindings| && t.bindings[j].runtime == t.bindings[k].runtime
          ==> t.bindings[j].source == t.bindings[k].source && (t.bindings[j].runtime in t.origins ==> j == k))
    && (forall k :: 0 <= k < |t.bindings| && t.bindings[k].runtime !in t.origins ==> IsLink(t, t.bindings[k].runtime))
  }

  ghost predicate IsLink(t: Tables, runtime: Symbol) {
    exists m, name :: m in t.providers && name in t.providers[m] && t.providers[m][name] == runtime
  }

  lemma DeclarationIsAttributed(t: Tables, e: Event)
    requires Attributed(t) && Follows(t, e) && e.request.Declare?
    ensures Attributed(e.after)
  {
    hide Stable, Lookup, HiddenName, WithImportRuntimeName;
  }

  lemma ProviderIsAttributed(t: Tables, e: Event)
    requires Attributed(t) && Follows(t, e) && e.request.Provide?
    ensures Attributed(e.after)
  {
    hide Stable, Listed, Group, WithImportRuntimeName, Attributed, IsLink;
    var u, links := e.after, e.answer.links;
    if e.request.moduleName !in t.providers {
      var more := u.bindings[|t.bindings|..];
      assert u.bindings == t.bindings + more;
      forall k | 0 <= k < |more|
        ensures more[k].source in links && more[k].runtime == links[more[k].source] && Fresh(t, more[k].runtime)
      {
      }
      assert forall m, n :: m in links && n in links && m != n ==> links[m] != links[n];
      hide HoistedUnder, LinksIssued, Follows;
      LinkedAreAttributed(t, u, e.request.moduleName, links, more);
    }
  }

  lemma LinkedAreAttributed(
      t: Tables, u: Tables, moduleName: string, links: map<Symbol, Symbol>, more: seq<Binding>)
    requires Attributed(t) && u.bindings == t.bindings + more && u.origins == t.origins
    requires moduleName !in t.providers && u.providers == t.providers[moduleName := links]
    requires forall k :: 0 <= k < |more| ==>
      more[k].source in links && more[k].runtime == links[more[k].source] && Fresh(t, more[k].runtime)
    requires forall m, n :: m in links && n in links && m != n ==> links[m] != links[n]
    ensures Attributed(u)
  {
    forall k | 0 <= k < |u.bindings| && u.bindings[k].runtime !in u.origins ensures IsLink(u, u.bindings[k].runtime) {
      if k < |t.bindings| {
        var m, name :| m in t.providers && name in t.providers[m] && t.providers[m][name] == t.bindings[k].runtime;
        assert m in u.providers && name in u.providers[m] && u.providers[m][name] == u.bindings[k].runtime;
      } else {
        var b := more[k - |t.bindings|];
        assert u.providers[moduleName][b.source] == b.runtime;
      }
    }
  }

  lemma {:induction false} EverySessionIsAttributed(seed: string, events: seq<Event>, k: nat)
    requires Session(seed, events) && k <= |events|
    ensures Attributed(Before(seed, events, k))
  {
    hide Attributed, Session, Follows;
    if k == 0 {
      assert Attributed(Tables(seed, [], [], map[], map[])) by { EmptyIsAttributed(seed); }
    } else {
      EverySessionIsAttributed(seed, events, k - 1);
      EventOf(seed, events, k - 1);
      var t, e := Before(seed, events, k - 1), events[k - 1];
      if e.request.Declare? {
        DeclarationIsAttributed(t, e);
      } else {
        ProviderIsAttributed(t, e);
      }
    }
  }

  lemma EmptyIsAttributed(seed: string)
    ensures Attributed(Tables(seed, [], [], map[], map[]))
  {
  }

  // A declaration is answered with a name that stands for it and was requested with
  // the same identity.
  ghost predicate Answers(t: Tables, r: Request, runtime: Symbol, k: nat) {
    && r.Declare? && k < |t.bindings| && t.bindings[k] == Binding(r.node, r.source, runtime)
    && if runtime in t.origins then t.origins[runtime] == r.identity else r.identity == Identity(None, [])
  }

  lemma AnsweredByBinding(t: Tables, e: Event) returns (k: nat)
    requires Follows(t, e) && e.request.Declare?
    ensures e.answer.Bound? && Answers(e.after, e.request, e.answer.runtime, k)
  {
    var r, u := e.request, e.after;
    hide Stable, Lookup, Unused, HiddenName, WithImportRuntimeName;
    k := LookupFinds(u.bindings, u.origins, r.node, r.source, r.identity);
  }

  lemma OriginsStay(t: Tables, e: Event, runtime: Symbol)
    requires Follows(t, e)
    requires exists k :: 0 <= k < |t.bindings| && t.bindings[k].runtime == runtime
    ensures runtime in e.after.origins <==> runtime in t.origins
    ensures runtime in t.origins ==> e.after.origins[runtime] == t.origins[runtime]
  {
    hide Stable, Lookup, Listed, Group, HiddenName, WithImportRuntimeName, HoistedUnder, LinksIssued;
  }

  lemma {:induction false} AnswerStays(
      seed: string, events: seq<Event>, j: nat, k: nat, r: Request, runtime: Symbol, b: nat)
    requires Session(seed, events) && j <= k <= |events| && Answers(Before(seed, events, j), r, runtime, b)
    ensures Answers(Before(seed, events, k), r, runtime, b)
    decreases k
  {
    hide Session, Follows;
    if j < k {
      AnswerStays(seed, events, j, k - 1, r, runtime, b);
      EventOf(seed, events, k - 1);
      EventGrows(Before(seed, events, k - 1), events[k - 1]);
      assert Before(seed, events, k - 1).bindings[b].runtime == runtime;
      OriginsStay(Before(seed, events, k - 1), events[k - 1], runtime);
    }
  }

  // Two declarations that are given the same name, however far apart, were requested
  // from the same source and with the same identity, and they are the same declaration
  // unless the name is a provider's link, which stands for a group of overloads.
  lemma SameNameSameRequest(seed: string, events: seq<Event>, j: nat, k: nat)
    requires Session(seed, events) && j < k < |events|
    requires events[j].request.Declare? && events[k].request.Declare? && events[j].answer == events[k].answer
    ensures events[j].answer.Bound?
    ensures
      var a, b := events[j].request, events[k].request;
      && a.source == b.source && a.identity == b.identity
      && (a.node == b.node || IsLink(events[k].after, events[j].answer.runtime))
  {
    hide Session, Follows;
    EventOf(seed, events, j);
    EventOf(seed, events, k);
    var x := AnsweredByBinding(Before(seed, events, j), events[j]);
    var y := AnsweredByBinding(Before(seed, events, k), events[k]);
    AnswerStays(seed, events, j + 1, k + 1, events[j].request, events[j].answer.runtime, x);
    EverySessionIsAttributed(seed, events, k + 1);
    hide IsLink;
  }

  lemma {:induction false} GroupNotEmpty(bindings: seq<Binding>, runtime: Symbol) returns (k: nat)
    requires Group(bindings, runtime) != []
    ensures k < |bindings| && bindings[k].runtime == runtime
  {
    if bindings[|bindings| - 1].runtime == runtime {
      k := |bindings| - 1;
    } else {
      k := GroupNotEmpty(bindings[..|bindings| - 1], runtime);
    }
  }

  // What a provider's links stand for when they are issued they stand for as long as
  // the session lasts: exactly the declarations listed under each name.
  lemma LinksStand(seed: string, events: seq<Event>, j: nat, k: nat, name: Symbol)
    requires Session(seed, events) && j < k <= |events|
    requires events[j].request.Provide? && events[j].request.moduleName !in Before(seed, events, j).providers
    requires events[j].answer.Linked? && name in events[j].answer.links
    ensures
      Group(Before(seed, events, k).bindings, events[j].answer.links[name]) ==
        Listed(events[j].request.declarations, name)
  {
    hide Session, Follows, Stable;
    EventOf(seed, events, j);
    AnswersStand(seed, events, j + 1, k);
    LinkStands(Before(seed, events, j), events[j], Before(seed, events, k), name);
  }

  lemma LinkStands(t: Tables, e: Event, s: Tables, name: Symbol)
    requires Follows(t, e) && e.request.Provide? && e.request.moduleName !in t.providers
    requires Stable(e.after.bindings, s.bindings, e.after.origins, s.origins)
    requires e.answer.Linked? && name in e.answer.links
    ensures Group(s.bindings, e.answer.links[name]) == Listed(e.request.declarations, name)
  {
    hide Lookup, Group, HoistedUnder, LinksIssued, Unused, Listed, HiddenName;
    var bindings, link := e.after.bindings, e.answer.links[name];
    ListedMeans(e.request.declarations, name);
    assert Group(bindings, link) == Listed(e.request.declarations, name);
    var i := GroupNotEmpty(bindings, link);
    assert Group(s.bindings, bindings[i].runtime) == Group(bindings, bindings[i].runtime);
  }
}
