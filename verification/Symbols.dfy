/** Language-level names: a text inside a namespace. */
module Symbols {

  datatype Symbol = Symbol(text: string, namespace: seq<string>)

  // The qualified spelling of a name. Different names may share one.
  function Dotted(s: Symbol): string
    decreases |s.namespace|
  {
    if s.namespace == [] then s.text
    else s.namespace[0] + "." + Dotted(Symbol(s.text, s.namespace[1..]))
  }

  // A namespace is written in front of what it holds, outermost first.
  lemma {:induction false} DottedIsNested(text: string, outer: seq<string>, inner: seq<string>, n: string)
    ensures Dotted(Symbol(text, [])) == text && Dotted(Symbol(text, [n])) == n + "." + text
    ensures Dotted(Symbol(text, outer + inner)) == Dotted(Symbol(Dotted(Symbol(text, inner)), outer))
    decreases |outer|
  {
    assert Dotted(Symbol(text, [n])) == n + "." + Dotted(Symbol(text, []));
    if outer == [] {
      assert outer + inner == inner;
    } else {
      assert (outer + inner)[1..] == outer[1..] + inner;
      DottedIsNested(text, outer[1..], inner, n);
    }
  }

  lemma NamespacesAreDotted(s: Symbol)
    requires s.namespace != []
    ensures '.' in Dotted(s)
  {
    assert Dotted(s)[|s.namespace[0]|] == '.';
  }

  // A name that is spelled without a dot is spelled like no other.
  lemma UndottedIsUnique(s: Symbol, t: Symbol)
    requires Dotted(s) == Dotted(t) && s.namespace == [] && '.' !in s.text
    ensures s == t
  {
    if t.namespace != [] {
      NamespacesAreDotted(t);
    }
  }
}
