/** The live error ranges of the editor, and the lines displayed with them. */
module LiveDiagnostics {
  import opened Highlight

  /** What a type hint says about the place of an error: nothing, a line and column
      counted from one, or the name of an element or variable. */
  datatype Hint = Nowhere | At(line: nat, column: nat) | Mentions(target: string)

  function CountedFromZero(n: nat): nat {
    if n == 0 then 0 else n - 1
  }

  predicate OccursAt(text: string, target: string, at: nat) {
    at + |target| <= |text| && text[at..at + |target|] == target
  }

  // First occurrence of `target`, or -1.
  method Find(text: string, target: string) returns (at: int)
    ensures at >= 0 ==> OccursAt(text, target, at) && forall k: nat :: k < at ==> !OccursAt(text, target, k)
    ensures at < 0 ==> forall k: nat :: !OccursAt(text, target, k)
  {
    for k := 0 to |text| + 1
      invariant forall j: nat :: j < k ==> !OccursAt(text, target, j)
    {
      if OccursAt(text, target, k) {
        return k;
      }
    }
    return -1;
  }

  ghost predicate Absent(lines: seq<string>, upTo: nat, target: string) {
    forall l, k: nat :: 0 <= l < upTo && l < |lines| ==> !OccursAt(lines[l], target, k)
  }

  /** The range a hint asks for: the character at the place it names, or the first
      occurrence of the name it mentions. */
  ghost predicate Marks(hint: Hint, lines: seq<string>, spans: map<nat, Span>) {
    match hint
    case Nowhere => spans == map[]
    case At(line, column) =>
      var at := if column >= 1 then column - 1 else 0;
      spans == map[if line >= 1 then line - 1 else 0 := Span(at, at + 1)]
    case Mentions(target) =>
      || (spans == map[] && Absent(lines, |lines|, target))
      || exists l: nat, at: nat ::
           && l < |lines| && Absent(lines, l, target)
           && OccursAt(lines[l], target, at) && (forall k: nat :: k < at ==> !OccursAt(lines[l], target, k))
           && spans == map[l := Span(at, at + |target|)]
  }

  // A mentioned name is never empty, and so no range is: whatever the hint says, every
  // range ends after it starts.
  method ErrorSpans(hint: Hint, lines: seq<string>) returns (spans: map<nat, Span>)
    requires hint.Mentions? ==> hint.target != ""
    ensures Marks(hint, lines, spans)
    ensures forall l :: l in spans ==> 0 <= spans[l].start < spans[l].end
    ensures hint.Mentions? ==> forall l :: l in spans ==>
      && l < |lines| && spans[l].end <= |lines[l]|
      && lines[l][spans[l].start..spans[l].end] == hint.target
  {
    match hint
    case Nowhere =>
      spans := map[];
    case At(line, column) =>
      var at := CountedFromZero(column);
      spans := map[CountedFromZero(line) := Span(at, at + 1)];
    case Mentions(target) =>
      for l := 0 to |lines|
        invariant Absent(lines, l, target)
      {
        var column := Find(lines[l], target);
        if column >= 0 {
          return map[l := Span(column, column + |target|)];
        }
      }
      spans := map[];
  }

  // One displayed line of the editor: the text is kept, each character in its base
  // style, with the error style added exactly inside the range the hint asks for.
  // `source` are the lines of the text as the hint counts them.
  method DisplayedLine(
      keywords: set<string>, types: set<string>, lines: seq<string>, source: seq<string>, hint: Hint, lineno: nat)
    returns (rendered: seq<Fragment>, ghost base: seq<Fragment>, ghost spans: map<nat, Span>)
    requires hint.Mentions? ==> hint.target != ""
    ensures Marks(hint, source, spans)
    ensures hint.Mentions? ==> forall l :: l in spans ==>
      && l < |source| && 0 <= spans[l].start <= spans[l].end <= |source[l]|
      && source[l][spans[l].start..spans[l].end] == hint.target
    ensures lineno >= |lines| ==> rendered == []
    ensures lineno < |lines| ==>
      && Tokens(keywords, types, lines[lineno], base) && Text(base) == lines[lineno]
      && Text(rendered) == lines[lineno]
      && Cells(rendered) ==
           if lineno in spans then Marked(Cells(base), 0, spans[lineno].start, spans[lineno].end) else Cells(base)
  {
    var found := ErrorSpans(hint, source);
    spans := found;
    hide Marks, Tokens, Text, Cells, Marked;
    rendered, base := LineFragments(keywords, types, lines, found, lineno);
    if lineno in found {
      OverlayKeepsTextExactlyWhenSpanFits(base, found[lineno].start, found[lineno].end);
    }
  }
}
