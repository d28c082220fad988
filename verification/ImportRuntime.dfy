/** Hoisted declarations: hidden runtime names, and retargeting the calls in their bodies. */
module ImportRuntime {
  import opened Options
  import opened Symbols

  /** A typed body. `Call` is a typed element node: the source node it came from,
      the runtime name it is already bound to, and its other fields. Syntax nodes
      and scalars are leaves. */
  datatype Value =
    | Call(node: Source, runtimeName: Option<Symbol>, fields: seq<Value>)
    | Items(items: seq<Value>)
    | Record(kind: string, fields: seq<Value>)
    | Leaf(text: string)

  datatype Source = Element(name: Symbol) | OtherSource(kind: string)

  datatype Links = NoLinks | Links(targets: map<Symbol, Symbol>)

  // Is the call still free to be bound under its own source name?
  predicate Unbound(name: Symbol, runtimeName: Option<Symbol>) {
    runtimeName == None || runtimeName == Some(name)
  }

  // The binding a call gets inside a declaration hoisted as `self` under `binding`.
  function Retarget(call: Value, self: Symbol, binding: Symbol, links: Links): Option<Symbol>
    requires call.Call?
  {
    if call.node.Element? then
      var name := call.node.name;
      if name == self && Unbound(self, call.runtimeName) then Some(binding)
      else if links.Links? && Unbound(name, call.runtimeName) && name in links.targets then Some(links.targets[name])
      else call.runtimeName
    else call.runtimeName
  }

  function Rewrite(value: Value, self: Symbol, binding: Symbol, links: Links): Value {
    match value
    case Call(node, _, fields) =>
      Call(node, Retarget(value, self, binding, links), RewriteAll(fields, self, binding, links))
    case Items(items) => Items(RewriteAll(items, self, binding, links))
    case Record(kind, fields) => Record(kind, RewriteAll(fields, self, binding, links))
    case Leaf(_) => value
  }

  function RewriteAll(values: seq<Value>, self: Symbol, binding: Symbol, links: Links): (r: seq<Value>)
    ensures |r| == |values|
    ensures forall k :: 0 <= k < |r| ==> r[k] == Rewrite(values[k], self, binding, links)
  {
    if values == [] then []
    else [Rewrite(values[0], self, binding, links)] + RewriteAll(values[1..], self, binding, links)
  }

  function Children(value: Value): seq<Value> {
    match value
    case Call(_, _, fields) => fields
    case Items(items) => items
    case Record(_, fields) => fields
    case Leaf(_) => []
  }

  // The value at a position, given as child numbers from the root down.
  function At(value: Value, position: seq<nat>): Option<Value>
    decreases |position|
  {
    if position == [] then Some(value)
    else if position[0] < |Children(value)| then At(Children(value)[position[0]], position[1..])
    else None
  }

  // A body without its bindings.
  function Shape(value: Value): Value {
    match value
    case Call(node, _, fields) => Call(node, None, ShapeAll(fields))
    case Items(items) => Items(ShapeAll(items))
    case Record(kind, fields) => Record(kind, ShapeAll(fields))
    case Leaf(_) => value
  }

  function ShapeAll(values: seq<Value>): seq<Value> {
    if values == [] then [] else [Shape(values[0])] + ShapeAll(values[1..])
  }

  // Rewriting acts at every position on its own: the same call nodes stay at the
  // same positions.
  lemma {:induction false} RewriteAt(value: Value, self: Symbol, binding: Symbol, links: Links, position: seq<nat>)
    ensures At(Rewrite(value, self, binding, links), position) ==
      match At(value, position)
      case Some(v) => Some(Rewrite(v, self, binding, links))
      case None => None
    decreases |position|
  {
    if position != [] && position[0] < |Children(value)| {
      RewriteAt(Children(value)[position[0]], self, binding, links, position[1..]);
    }
  }

  // Nothing but bindings changes.
  lemma {:induction false} RewriteKeepsShape(value: Value, self: Symbol, binding: Symbol, links: Links)
    ensures Shape(Rewrite(value, self, binding, links)) == Shape(value)
    decreases value, 0
  {
    match value
    case Call(_, _, fields) => RewriteAllKeepsShape(fields, self, binding, links);
    case Items(items) => RewriteAllKeepsShape(items, self, binding, links);
    case Record(_, fields) => RewriteAllKeepsShape(fields, self, binding, links);
    case Leaf(_) =>
  }

  lemma {:induction false} RewriteAllKeepsShape(values: seq<Value>, self: Symbol, binding: Symbol, links: Links)
    ensures ShapeAll(RewriteAll(values, self, binding, links)) == ShapeAll(values)
    decreases values, 1
  {
    if values != [] {
      RewriteKeepsShape(values[0], self, binding, links);
      RewriteAllKeepsShape(values[1..], self, binding, links);
      var r := RewriteAll(values, self, binding, links);
      assert r[1..] == RewriteAll(values[1..], self, binding, links);
    }
  }

  // Rewriting a second time changes nothing, whatever the hidden names look like.
  lemma {:induction false} RewriteTwice(value: Value, self: Symbol, binding: Symbol, links: Links)
    ensures Rewrite(Rewrite(value, self, binding, links), self, binding, links) == Rewrite(value, self, binding, links)
    decreases value, 0
  {
    match value
    case Call(_, _, fields) => RewriteAllTwice(fields, self, binding, links);
    case Items(items) => RewriteAllTwice(items, self, binding, links);
    case Record(_, fields) => RewriteAllTwice(fields, self, binding, links);
    case Leaf(_) =>
  }

  lemma {:induction false} RewriteAllTwice(values: seq<Value>, self: Symbol, binding: Symbol, links: Links)
    ensures RewriteAll(RewriteAll(values, self, binding, links), self, binding, links) ==
      RewriteAll(values, self, binding, links)
    decreases values, 1
  {
    if values != [] {
      RewriteTwice(values[0], self, binding, links);
      RewriteAllTwice(values[1..], self, binding, links);
      var r := RewriteAll(values, self, binding, links);
      assert r[1..] == RewriteAll(values[1..], self, binding, links);
    }
  }

  // The link a call resolves to inside a declaration called `self` that is hoisted
  // under `listed`: its own name leads to its own binding, a linked name to its link.
  function Reached(call: Value, self: Symbol, listed: Symbol, targets: map<Symbol, Symbol>): Option<Symbol>
    requires call.Call?
  {
    if call.node.Element? && Unbound(call.node.name, call.runtimeName) then
      if call.node.name == self then Some(listed)
      else if call.node.name in targets then Some(call.node.name)
      else None
    else None
  }

  // Every call that resolves to a link is bound to it, and every other call stays as
  // it was. When a declaration is listed under its own name, the calls that resolve
  // are those to linked names that are not bound elsewhere.
  lemma CallsReachTheirSiblings(
      value: Value, self: Symbol, listed: Symbol, targets: map<Symbol, Symbol>, position: seq<nat>, call: Value)
    requires listed in targets
    requires At(value, position) == Some(call) && call.Call?
    ensures
      var rewritten := At(Rewrite(value, self, targets[listed], Links(targets)), position);
      var reached := Reached(call, self, listed, targets);
      && rewritten.Some? && rewritten.value.Call? && rewritten.value.node == call.node
      && (reached.Some? ==> reached.value in targets && rewritten.value.runtimeName == Some(targets[reached.value]))
      && (reached.None? ==> rewritten.value.runtimeName == call.runtimeName)
    ensures self == listed ==>
      (Reached(call, self, listed, targets).Some? <==>
        call.node.Element? && call.node.name in targets && Unbound(call.node.name, call.runtimeName))
  {
    RewriteAt(value, self, targets[listed], Links(targets), position);
  }

  // A call already bound to some other runtime name keeps it; one that is not is bound
  // to `binding` if it names the declaration itself, and otherwise to the link of the
  // name it calls, if there is one.
  lemma BoundCallsKeepTheirProvider(
      value: Value, self: Symbol, binding: Symbol, links: Links, position: seq<nat>, name: Symbol,
      bound: Option<Symbol>, fields: seq<Value>)
    requires At(value, position) == Some(Call(Element(name), bound, fields))
    ensures
      var rewritten := At(Rewrite(value, self, binding, links), position);
      && rewritten.Some? && rewritten.value.Call? && rewritten.value.node == Element(name)
      && (forall r :: bound == Some(r) && r != name ==> rewritten.value.runtimeName == Some(r))
      && (bound == None || bound == Some(name) ==>
            rewritten.value.runtimeName ==
              if name == self then Some(binding)
              else if links.Links? && name in links.targets then Some(links.targets[name])
              else bound)
  {
    RewriteAt(value, self, binding, links, position);
  }

  // A node that is no element call is not rebound.
  lemma OtherNodesStay(
      value: Value, self: Symbol, binding: Symbol, links: Links, position: seq<nat>, kind: string,
      bound: Option<Symbol>, fields: seq<Value>)
    requires At(value, position) == Some(Call(OtherSource(kind), bound, fields))
    ensures
      var rewritten := At(Rewrite(value, self, binding, links), position);
      rewritten.Some? && rewritten.value.Call? && rewritten.value.runtimeName == bound
  {
    RewriteAt(value, self, binding, links, position);
  }

  /* Hidden names. */

  function Digit(d: nat): char
    requires d < 10
  {
    '0' + d as char
  }

  function Decimal(n: nat): string {
    if n < 10 then [Digit(n)] else Decimal(n / 10) + [Digit(n % 10)]
  }

  lemma {:induction false} DecimalIsInjective(m: nat, n: nat)
    requires Decimal(m) == Decimal(n)
    ensures m == n
    decreases m
  {
    var a, b := Decimal(m), Decimal(n);
    assert a[|a| - 1] == Digit(m % 10) && b[|b| - 1] == Digit(n % 10);
    assert m % 10 == n % 10;
    DecimalNotEmpty(m / 10);
    DecimalNotEmpty(n / 10);
    assert (|a| > 1 <==> m >= 10) && (|b| > 1 <==> n >= 10);
    if m >= 10 {
      assert a[..|a| - 1] == Decimal(m / 10) && b[..|b| - 1] == Decimal(n / 10);
      DecimalIsInjective(m / 10, n / 10);
    }
  }

  lemma DecimalNotEmpty(n: nat)
    ensures |Decimal(n)| > 0
  {
  }

  function HiddenName(seed: string, text: string, index: nat): Symbol {
    Symbol(text, ["__valiance_import_" + seed + "_" + Decimal(index)])
  }

  lemma HiddenNameExample()
    ensures HiddenName("5f1c", "sort", 12) == Symbol("sort", ["__valiance_import_5f1c_12"])
  {
    assert Decimal(12) == Decimal(1) + [Digit(2)] == "12";
    assert "__valiance_import_" + "5f1c" + "_" + "12" == "__valiance_import_5f1c_12";
  }

  // Hidden names with different numbers are different, whatever they stand for.
  lemma HiddenNamesDiffer(seed: string, s: string, t: string, i: nat, j: nat)
    requires HiddenName(seed, s, i) == HiddenName(seed, t, j)
    ensures i == j && s == t
  {
    var prefix := "__valiance_import_" + seed + "_";
    var a, b := prefix + Decimal(i), prefix + Decimal(j);
    assert [a] == [b] && [a][0] == a && [b][0] == b;
    assert a[|prefix|..] == Decimal(i) && b[|prefix|..] == Decimal(j);
    DecimalIsInjective(i, j);
  }

  // The number that a numeral stands for.
  ghost function ValueOf(digits: string): int {
    if digits == "" then 0
    else 10 * ValueOf(digits[..|digits| - 1]) + (digits[|digits| - 1] as int - '0' as int)
  }

  // Numerals are decimal, without leading zeros.
  lemma {:induction false} DecimalMeans(n: nat)
    ensures ValueOf(Decimal(n)) == n
    ensures forall k :: 0 <= k < |Decimal(n)| ==> '0' <= Decimal(n)[k] <= '9'
    ensures n > 0 ==> Decimal(n)[0] != '0'
  {
    var digits := Decimal(n);
    if n >= 10 {
      DecimalMeans(n / 10);
      DecimalNotEmpty(n / 10);
      assert digits[..|digits| - 1] == Decimal(n / 10);
    } else {
      assert digits[..|digits| - 1] == "";
    }
  }

  // Hidden names of sessions with different seeds are different as well.
  lemma SessionsIssueDifferentNames(seed: string, seed': string, s: string, t: string, i: nat, j: nat)
    requires HiddenName(seed, s, i) == HiddenName(seed', t, j)
    ensures seed == seed' && i == j && s == t
  {
    var a := "__valiance_import_" + seed + "_" + Decimal(i);
    var b := "__valiance_import_" + seed' + "_" + Decimal(j);
    assert [a] == [b] && [a][0] == a && [b][0] == b;
    DecimalMeans(i);
    DecimalMeans(j);
    var di, dj := |Decimal(i)|, |Decimal(j)|;
    assert a[|a| - di - 1] == '_' && b[|b| - dj - 1] == '_';
    assert a[|a| - di..] == Decimal(i) && b[|b| - dj..] == Decimal(j);
    assert di == dj;
    assert |seed| == |seed'|;
    assert a[18..18 + |seed|] == seed && b[18..18 + |seed'|] == seed';
    HiddenNamesDiffer(seed, s, t, i, j);
  }
}
