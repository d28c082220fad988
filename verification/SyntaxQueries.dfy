/** The walk that flattens a syntax product, and the cache of flattened views. */
module SyntaxQueries {
  import opened Sequences
  import opened SyntaxIndex

  /** Identity determines the object: `byId` knows every object occurring in `item`. */
  ghost predicate WellShared(byId: map<nat, Item>, item: Item)
    decreases item
  {
    && (item.Object? ==> item.id in byId && byId[item.id] == item)
    && forall k :: 0 <= k < |AllChildren(item)| ==> WellShared(byId, AllChildren(item)[k])
  }

  function AllChildren(item: Item): (r: seq<Item>)
    ensures forall k :: 0 <= k < |r| ==> r[k] < item
  {
    match item
    case Object(_, _, fields) => fields
    case Items(items) => items
    case Scalar => []
  }

  // Everything wanted below `item` has been found.
  ghost predicate Covered(kind: Category, found: seq<Item>, item: Item) {
    forall x :: x in Preorder(kind, item) ==> x in found
  }

  /** The walk's bookkeeping: an object marked as seen is either covered or still
      `open`, that is, being walked further up. */
  ghost predicate Walked(kind: Category, byId: map<nat, Item>, seen: set<nat>, found: seq<Item>, open: set<Item>) {
    && Distinct(found)
    && (forall id :: id in seen ==> id in byId && (byId[id] in open || Covered(kind, found, byId[id])))
    && (forall x :: x in found ==> x.Object? && x.id in seen && x.id in byId && byId[x.id] == x)
  }

  ghost predicate Above(open: set<Item>, item: Item) {
    forall x :: x in open ==> item < x
  }

  // Meeting an object again adds nothing.
  lemma SeenAddsNothing(
      kind: Category, byId: map<nat, Item>, seen: set<nat>, found: seq<Item>, open: set<Item>, item: Item)
    requires Walked(kind, byId, seen, found, open) && Above(open, item)
    requires WellShared(byId, item) && item.Object? && item.id in seen
    ensures AppendNew(found, Preorder(kind, item)) == found
  {
    hide Preorder, AppendNew, Distinct;
    assert byId[item.id] == item;
    assert item !in open;
    AppendNothingNew(found, Preorder(kind, item));
  }

  lemma SkippedIsEmpty(kind: Category, item: Item)
    requires Skipped(kind, item)
    ensures Preorder(kind, item) == []
  {
    PreorderUnfold(kind, item);
  }

  lemma EnterObject(
      kind: Category, byId: map<nat, Item>, seen: set<nat>, found: seq<Item>, open: set<Item>, item: Item)
    requires Walked(kind, byId, seen, found, open)
    requires WellShared(byId, item) && item.Object? && item.id !in seen
    ensures item !in found
    ensures Walked(kind, byId, seen + {item.id}, if Wanted(kind, item) then found + [item] else found, open + {item})
  {
    hide Preorder;
    assert Distinct([item]);
    if Wanted(kind, item) {
      DistinctAppend(found, [item]);
      forall x | Covered(kind, found, x) ensures Covered(kind, found + [item], x) {
      }
    }
  }

  lemma LeaveObject(
      kind: Category, byId: map<nat, Item>, seen: set<nat>, found: seq<Item>, open: set<Item>, item: Item,
      before: seq<Item>)
    requires Walked(kind, byId, seen, found, open + {item})
    requires found == AppendNew(before, Preorder(kind, item))
    ensures Walked(kind, byId, seen, found, open)
  {
    AppendNewMembers(before, Preorder(kind, item));
    hide Preorder, AppendNew, Distinct;
  }

  lemma ChildOf(byId: map<nat, Item>, open: set<Item>, parent: Item, k: nat)
    requires WellShared(byId, parent) && k < |AllChildren(parent)| && Above(open - {parent}, parent)
    ensures WellShared(byId, AllChildren(parent)[k])
    ensures Above(open, AllChildren(parent)[k])
  {
    forall x | x in open ensures AllChildren(parent)[k] < x {
      if x != parent {
        assert x in open - {parent};
      }
    }
  }

  lemma AboveOthers(open: set<Item>, item: Item)
    requires Above(open, item)
    ensures Above(open - {item}, item) && Above(open + {item} - {item}, item)
  {
  }

  // One more child walked.
  lemma OneMoreChild(kind: Category, start: seq<Item>, children: seq<Item>, k: nat)
    requires k < |children|
    ensures AppendNew(start, PreorderAll(kind, children[..k + 1])) ==
      AppendNew(AppendNew(start, PreorderAll(kind, children[..k])), Preorder(kind, children[k]))
  {
    assert children[..k + 1] == children[..k] + [children[k]];
    PreorderAllSnoc(kind, children[..k], children[k]);
    AppendNewConcat(start, PreorderAll(kind, children[..k]), Preorder(kind, children[k]));
  }

  lemma WholeWalk(kind: Category, found: seq<Item>, item: Item)
    requires !Skipped(kind, item) && item !in found
    requires item.Object? ==> item.category != Foreign || item.fields == []
    ensures AppendNew(found, Preorder(kind, item)) ==
      AppendNew(if Wanted(kind, item) then found + [item] else found, PreorderAll(kind, AllChildren(item)))
  {
    PreorderUnfold(kind, item);
    assert Children(kind, item) == AllChildren(item);
    AppendNewConcat(found, if Wanted(kind, item) then [item] else [], PreorderAll(kind, AllChildren(item)));
    assert [item][..0] == [];
    assert AppendNew(found, [item]) == found + [item];
    assert AppendNew(found, []) == found;
  }

  lemma ItemsAreNotFound(
      kind: Category, byId: map<nat, Item>, seen: set<nat>, found: seq<Item>, open: set<Item>, item: Item)
    requires Walked(kind, byId, seen, found, open) && !item.Object?
    ensures item !in found
  {
  }

  lemma NoChildren(kind: Category, found: seq<Item>, children: seq<Item>)
    ensures AppendNew(found, PreorderAll(kind, children[..0])) == found
    ensures children[..|children|] == children
  {
    assert PreorderAll(kind, children[..0]) == [];
  }

  lemma OpaqueIsEmpty(kind: Category, item: Item)
    requires kind != Foreign && (item.Scalar? || (item.Object? && item.category == Foreign))
    ensures Preorder(kind, item) == []
  {
    PreorderUnfold(kind, item);
  }

  /** One flattening walk. */
  class Walker {
    const kind: Category
    var found: seq<Item>
    var seen: set<nat>

    constructor (kind: Category)
      ensures this.kind == kind && found == [] && seen == {}
    {
      this.kind := kind;
      found, seen := [], {};
    }

    method Visit(item: Item, ghost byId: map<nat, Item>, ghost open: set<Item>)
      requires kind == Raw || kind == Typed
      requires Walked(kind, byId, seen, found, open)
      requires WellShared(byId, item) && Above(open, item)
      modifies this
      ensures Walked(kind, byId, seen, found, open)
      ensures found == AppendNew(old(found), Preorder(kind, item))
      decreases item, 1
    {
      hide Walked, Preorder, PreorderAll, AppendNew, WellShared, Above;
      if item.Object? && item.id in seen {
        SeenAddsNothing(kind, byId, seen, found, open, item);
        return;
      }
      if Skipped(kind, item) {
        SkippedIsEmpty(kind, item);
        AppendNothingNew(found, []);
        return;
      }
      AboveOthers(open, item);
      match item
      case Items(items) =>
        ItemsAreNotFound(kind, byId, seen, found, open, item);
        WholeWalk(kind, found, item);
        VisitAll(items, item, byId, open);
      case Object(id, category, fields) =>
        if category == Foreign {
          OpaqueIsEmpty(kind, item);
          AppendNothingNew(found, []);
          return;
        }
        EnterObject(kind, byId, seen, found, open, item);
        WholeWalk(kind, found, item);
        seen := seen + {id};
        if category == kind {
          found := found + [item];
        }
        VisitAll(fields, item, byId, open + {item});
        LeaveObject(kind, byId, seen, found, open, item, old(found));
      case Scalar =>
        OpaqueIsEmpty(kind, item);
        AppendNothingNew(found, []);
    }

    method VisitAll(children: seq<Item>, ghost parent: Item, ghost byId: map<nat, Item>, ghost open: set<Item>)
      requires kind == Raw || kind == Typed
      requires Walked(kind, byId, seen, found, open)
      requires WellShared(byId, parent) && Above(open - {parent}, parent) && children == AllChildren(parent)
      modifies this
      ensures Walked(kind, byId, seen, found, open)
      ensures found == AppendNew(old(found), PreorderAll(kind, children))
      decreases parent, 0
    {
      hide Walked, Preorder, PreorderAll, AppendNew, WellShared;
      NoChildren(kind, found, children);
      for k := 0 to |children|
        invariant Walked(kind, byId, seen, found, open)
        invariant found == AppendNew(old(found), PreorderAll(kind, children[..k]))
      {
        ChildOf(byId, open, parent, k);
        OneMoreChild(kind, old(found), children, k);
        Visit(children[k], byId, open);
      }
    }
  }

  // Flattening a product: each wanted object once, in order of first occurrence.
  method DataclassNodes(value: Item, kind: Category, ghost byId: map<nat, Item>) returns (found: seq<Item>)
    requires (kind == Raw || kind == Typed) && WellShared(byId, value)
    ensures found == Flat(kind, value)
  {
    var walker := new Walker(kind);
    walker.Visit(value, byId, {});
    found := walker.found;
  }

  /** An installed syntax product. Products are compared by identity and never change. */
  class Product {
    const value: Item
    ghost const byId: map<nat, Item>

    constructor (value: Item, ghost byId: map<nat, Item>)
      requires WellShared(byId, value)
      ensures this.value == value && this.byId == byId
    {
      this.value, this.byId := value, byId;
    }
  }

  datatype Key = Key(uri: string, typed: bool)

  datatype Entry = Entry(key: Key, product: Product?, view: seq<Item>)

  function KindOf(key: Key): Category {
    if key.typed then Typed else Raw
  }

  // What a fresh flattening of a product gives; nothing is installed as `null`.
  ghost function FreshView(key: Key, product: Product?): seq<Item> {
    if product == null then [] else Flat(KindOf(key), product.value)
  }

  // The view under a typed key lists the typed nodes that a chain of containment leads to
  // without passing through raw syntax, and the view under another key the raw ones.
  lemma ViewsAreExact(uri: string, product: Product, x: Item)
    ensures x in FreshView(Key(uri, true), product) <==> Found(Typed, product.value, x)
    ensures x in FreshView(Key(uri, false), product) <==> Found(Raw, product.value, x)
  {
    FlatByChains(Typed, product.value, x);
    FlatByChains(Raw, product.value, x);
  }

  const CACHE_SIZE: nat := 16

  predicate HasKey(cache: seq<Entry>, key: Key) {
    exists i :: 0 <= i < |cache| && cache[i].key == key
  }

  /** The cached views are right for the products they were made from. */
  ghost predicate CacheRight(cache: seq<Entry>) {
    && |cache| <= CACHE_SIZE
    && (forall i, j :: 0 <= i < j < |cache| ==> cache[i].key != cache[j].key)
    && forall i :: 0 <= i < |cache| ==> cache[i].view == FreshView(cache[i].key, cache[i].product)
  }

  predicate Hit(cache: seq<Entry>, key: Key, product: Product?) {
    exists i :: 0 <= i < |cache| && cache[i].key == key && cache[i].product == product
  }

  /** Storing under a key: in place if present, otherwise at the end after making room
      by dropping the oldest entry. */
  ghost predicate StoredIn(cache: seq<Entry>, entry: Entry, stored: seq<Entry>) {
    if HasKey(cache, entry.key)
    then exists i :: 0 <= i < |cache| && cache[i].key == entry.key && stored == cache[i := entry]
    else stored == (if |cache| >= 16 then cache[1..] else cache) + [entry]
  }

  method Store(cache: seq<Entry>, entry: Entry) returns (stored: seq<Entry>)
    requires CacheRight(cache) && entry.view == FreshView(entry.key, entry.product)
    ensures CacheRight(stored) && entry in stored
    ensures StoredIn(cache, entry, stored)
  {
    for i := 0 to |cache|
      invariant forall j :: 0 <= j < i ==> cache[j].key != entry.key
    {
      if cache[i].key == entry.key {
        stored := cache[i := entry];
        assert stored[i] == entry;
        return;
      }
    }
    var kept := if |cache| >= CACHE_SIZE then cache[1..] else cache;
    stored := kept + [entry];
    assert stored[|kept|] == entry;
  }

  class SourceQueries {
    var programs: map<string, Product>
    var typedPrograms: map<string, Product>
    var cache: seq<Entry>

    ghost predicate Valid()
      reads this
    {
      && CacheRight(cache)
      && (forall uri :: uri in programs ==> WellShared(programs[uri].byId, programs[uri].value))
      && (forall uri :: uri in typedPrograms ==> WellShared(typedPrograms[uri].byId, typedPrograms[uri].value))
    }

    constructor ()
      ensures Valid() && programs == map[] && typedPrograms == map[] && cache == []
    {
      programs, typedPrograms, cache := map[], map[], [];
    }

    function Installed(key: Key): Product?
      reads this
    {
      if key.typed then if key.uri in typedPrograms then typedPrograms[key.uri] else null
      else if key.uri in programs then programs[key.uri] else null
    }

    method Install(key: Key, product: Product)
      requires Valid() && WellShared(product.byId, product.value)
      modifies `programs, `typedPrograms
      ensures Valid() && Installed(key) == product
      ensures forall k: Key :: k != key ==> Installed(k) == old(Installed(k))
    {
      if key.typed {
        typedPrograms := typedPrograms[key.uri := product];
      } else {
        programs := programs[key.uri := product];
      }
    }

    // Whatever was installed and asked before, the answer is a fresh flattening of
    // what is installed now, and at most sixteen views are kept.
    method NodeView(key: Key) returns (view: seq<Item>)
      requires Valid()
      modifies `cache
      ensures Valid() && |cache| <= 16
      ensures view == FreshView(key, Installed(key))
      ensures
        if Hit(old(cache), key, Installed(key)) then cache == old(cache)
        else StoredIn(old(cache), Entry(key, Installed(key), view), cache)
    {
      var product := Installed(key);
      for i := 0 to |cache|
        invariant cache == old(cache)
        invariant forall j :: 0 <= j < i ==> !(cache[j].key == key && cache[j].product == product)
      {
        if cache[i].key == key && cache[i].product == product {
          return cache[i].view;
        }
      }
      if product == null {
        view := [];
      } else {
        view := DataclassNodes(product.value, KindOf(key), product.byId);
      }
      cache := Store(cache, Entry(key, product, view));
    }
  }
}
