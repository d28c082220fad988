/** Types as the transfer check walks them, and what a type carries along. */
module TransferTypes {
  import opened Symbols

  /** Normalized types, with everything that tells one from another. `Wrapped` stands
      for tagged, no-vectorisation and exact types, `Foreign` nominal types are those of
      the foreign-function namespace, and `Opaque` is everything the check does not look
      into and that is not listed. The strings hold tags, list kinds with their ranks,
      effects and the like. */
  datatype Type =
    | Nominal(name: Symbol, args: seq<Type>, isForeign: bool)
    | Wrapped(kind: string, inner: Type)
    | Task(outputs: seq<Type>, effects: string)
    | Callable(params: seq<Type>, results: seq<Type>, tags: string)
    | Collection(kind: string, base: Type)
    | Tuple(params: seq<Type>)
    | VariadicTuple(items: seq<TupleItem>)
    | Union(alternatives: seq<Type>)
    | Intersection(alternatives: seq<Type>)
    | Row(base: Type, fields: seq<Field>, isRecord: bool)
    | Opaque(description: string)

  datatype TupleItem = TupleItem(typ: Type, repeated: bool)

  datatype Field = Field(name: string, typ: Type)

  datatype ObjectDefinition = ObjectDefinition(taskIsolated: bool, attributes: seq<Field>)

  type Environment = map<Symbol, ObjectDefinition>

  // One piece of the path shown in the diagnostic.
  datatype Segment = TypeArgument(index: nat) | Attribute(name: string) | Element | Index(index: nat)

  datatype Part = Part(path: seq<Segment>, typ: Type)

  datatype Violation = Violation(path: seq<Segment>, typ: Type)

  const CHANNEL: Symbol := Symbol("Channel", [])

  predicate IsChannel(t: Type) {
    t.Nominal? && t.name == CHANNEL
  }

  predicate Isolated(env: Environment, t: Type) {
    t.Nominal? && !IsChannel(t) && t.name in env && env[t.name].taskIsolated
  }

  // The types directly inside `t`, in the order the check visits them. Tasks,
  // channels and functions are boundaries: nothing inside them is transferred.
  function Parts(t: Type): (r: seq<Part>)
    ensures forall k :: 0 <= k < |r| ==> r[k].typ < t
  {
    match t
    case Nominal(_, args, _) =>
      if IsChannel(t) then []
      else seq(|args|, i requires 0 <= i < |args| => Part([TypeArgument(i)], args[i]))
    case Wrapped(_, inner) => [Part([], inner)]
    case Collection(_, base) => [Part([Element], base)]
    case Tuple(params) => seq(|params|, i requires 0 <= i < |params| => Part([Index(i)], params[i]))
    case VariadicTuple(items) => seq(|items|, i requires 0 <= i < |items| => Part([Index(i)], items[i].typ))
    case Union(items) => seq(|items|, i requires 0 <= i < |items| => Part([], items[i]))
    case Intersection(items) => seq(|items|, i requires 0 <= i < |items| => Part([], items[i]))
    case Row(base, fields, _) =>
      [Part([], base)]
      + seq(|fields|, i requires 0 <= i < |fields| => Part([Attribute(fields[i].name)], fields[i].typ))
    case _ => []
  }

  // The attribute types a nominal type brings along.
  function Attributes(env: Environment, t: Type): seq<Part> {
    if t.Nominal? && !IsChannel(t) && t.name in env then
      var attributes := env[t.name].attributes;
      seq(|attributes|, i requires 0 <= i < |attributes| => Part([Attribute(attributes[i].name)], attributes[i].typ))
    else []
  }

  /* Reachability: the meaning of the check. */

  /** `t` holds `u` one step inside, at `path`: what spawning with a `t` carries along.
      Type arguments and attributes of nominal types other than channels, elements,
      components, alternatives, row bases and row fields; nothing of a task, a
      channel or a function. */
  ghost predicate Holds(env: Environment, t: Type, path: seq<Segment>, u: Type) {
    || (t.Wrapped? && path == [] && u == t.inner)
    || (t.Collection? && path == [Element] && u == t.base)
    || (t.Tuple? && exists i: nat :: i < |t.params| && path == [Index(i)] && u == t.params[i])
    || (t.VariadicTuple? && exists i: nat :: i < |t.items| && path == [Index(i)] && u == t.items[i].typ)
    || (t.Union? && path == [] && u in t.alternatives)
    || (t.Intersection? && path == [] && u in t.alternatives)
    || (t.Row? && path == [] && u == t.base)
    || (t.Row? && exists f :: f in t.fields && path == [Attribute(f.name)] && u == f.typ)
    || (t.Nominal? && !IsChannel(t) && exists i: nat :: i < |t.args| && path == [TypeArgument(i)] && u == t.args[i])
    || (t.Nominal? && !IsChannel(t) && t.name in env
        && exists f :: f in env[t.name].attributes && path == [Attribute(f.name)] && u == f.typ)
  }

  // `u` sits inside `t` at `path`, any number of steps down.
  ghost predicate Reaches(env: Environment, t: Type, path: seq<Segment>, u: Type) {
    exists n: nat :: ReachesBy(env, n, t, path, u)
  }

  ghost predicate ReachesBy(env: Environment, n: nat, t: Type, path: seq<Segment>, u: Type)
    decreases n
  {
    if n == 0 then t == u && path == []
    else
      exists part: Part, rest ::
        Holds(env, t, part.path, part.typ) && path == part.path + rest && ReachesBy(env, n - 1, part.typ, rest, u)
  }

  // The traversal lists exactly what a type holds.
  lemma PartsAreHeld(env: Environment, t: Type, part: Part)
    ensures part in Parts(t) || part in Attributes(env, t) <==> Holds(env, t, part.path, part.typ)
  {
    if part in Parts(t) {
      var k :| 0 <= k < |Parts(t)| && Parts(t)[k] == part;
      HeldPart(env, t, k);
    }
    if part in Attributes(env, t) {
      var k :| 0 <= k < |Attributes(env, t)| && Attributes(env, t)[k] == part;
      assert env[t.name].attributes[k] in env[t.name].attributes;
    }
    if Holds(env, t, part.path, part.typ) {
      HeldIsListed(env, t, part);
    }
  }

  lemma HeldPart(env: Environment, t: Type, k: nat)
    requires k < |Parts(t)|
    ensures Holds(env, t, Parts(t)[k].path, Parts(t)[k].typ)
  {
    match t
    case Row(base, fields, _) =>
      if k > 0 {
        assert fields[k - 1] in fields;
      }
    case _ =>
  }

  lemma HeldByNominal(env: Environment, t: Type, part: Part)
    requires t.Nominal? && Holds(env, t, part.path, part.typ)
    ensures part in Parts(t) || part in Attributes(env, t)
  {
    if i: nat :| i < |t.args| && part.path == [TypeArgument(i)] && part.typ == t.args[i] {
      assert Parts(t)[i] == part;
    } else {
      var attributes := env[t.name].attributes;
      var f :| f in attributes && part.path == [Attribute(f.name)] && part.typ == f.typ;
      var k :| 0 <= k < |attributes| && attributes[k] == f;
      assert Attributes(env, t)[k] == part;
    }
  }

  lemma HeldIsListed(env: Environment, t: Type, part: Part)
    requires Holds(env, t, part.path, part.typ)
    ensures part in Parts(t) || part in Attributes(env, t)
  {
    match t
    case Nominal(_, _, _) => HeldByNominal(env, t, part);
    case Wrapped(_, inner) => assert Parts(t)[0] == part;
    case Collection(_, base) => assert Parts(t)[0] == part;
    case Tuple(params) =>
      var i: nat :| i < |params| && part.path == [Index(i)] && part.typ == params[i];
      assert Parts(t)[i] == part;
    case VariadicTuple(items) =>
      var i: nat :| i < |items| && part.path == [Index(i)] && part.typ == items[i].typ;
      assert Parts(t)[i] == part;
    case Union(items) =>
      var k :| 0 <= k < |items| && items[k] == part.typ;
      assert Parts(t)[k] == part;
    case Intersection(items) =>
      var k :| 0 <= k < |items| && items[k] == part.typ;
      assert Parts(t)[k] == part;
    case Row(base, fields, _) =>
      if part.path == [] && part.typ == base {
        assert Parts(t)[0] == part;
      } else {
        var f :| f in fields && part.path == [Attribute(f.name)] && part.typ == f.typ;
        var k :| 0 <= k < |fields| && fields[k] == f;
        assert Parts(t)[k + 1] == part;
      }
    case _ =>
  }

  // A nominal type is isolated exactly when its definition says so, except for channels.
  lemma IsolatedByDefinition(env: Environment, t: Type, d: ObjectDefinition)
    ensures t.Nominal? ==>
      (Isolated(env[t.name := d], t) <==> d.taskIsolated && t.name != Symbol("Channel", []))
    ensures !t.Nominal? || t.name !in env ==> !Isolated(env, t)
  {
  }

  // Channels, tasks and functions are boundaries: they hold nothing and are not isolated.
  lemma BoundariesHoldNothing(env: Environment, t: Type, path: seq<Segment>, u: Type)
    requires t.Task? || t.Callable? || (t.Nominal? && t.name == Symbol("Channel", []))
    ensures !Holds(env, t, path, u) && !Isolated(env, t)
  {
  }
}
