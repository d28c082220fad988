/** The comment index of a source text, against an automaton that reads the text
    one character at a time. */
module CommentRanges {

  /** Where the automaton is. `Open` and `Shut` are on the second character of a
      block delimiter, with the nesting depth that holds after it. */
  datatype Mode = Code | Quoted | Escape | Line | Open(depth: nat) | Block(depth: nat) | Shut(depth: nat)

  // The delimiter `d` stands at `i`.
  ghost predicate Delimits(s: string, i: nat, d: string) {
    i + |d| <= |s| && s[i..i + |d|] == d
  }

  ghost function Step(s: string, i: nat, mode: Mode): Mode
    requires i < |s|
  {
    match mode
    case Code =>
      if s[i] == '"' then Quoted
      else if Delimits(s, i, "#?") then Line
      else if Delimits(s, i, "#/") then Open(1)
      else Code
    case Quoted => if s[i] == '\\' then Escape else if s[i] == '"' then Code else Quoted
    case Escape => Quoted
    case Line => if s[i] == '\n' then Code else Line
    case Open(d) => Block(d)
    case Block(d) =>
      if Delimits(s, i, "#/") then Open(d + 1)
      else if Delimits(s, i, "/#") && d > 0 then Shut(d - 1)
      else Block(d)
    case Shut(d) => if d == 0 then Code else Block(d)
  }

  // The automaton's mode before the character at `i`.
  ghost function ModeAt(s: string, i: nat): Mode
    requires i <= |s|
  {
    if i == 0 then Code else Step(s, i - 1, ModeAt(s, i - 1))
  }

  // Does the automaton say that offset `o` is in a comment? The end-of-file offset
  // is, when the text ends inside one.
  ghost predicate InComment(s: string, o: nat)
    requires o <= |s|
  {
    match ModeAt(s, o)
    case Code => Delimits(s, o, "#?") || Delimits(s, o, "#/")
    case Quoted => false
    case Escape => false
    case Line => o == |s| || s[o] != '\n'
    case _ => true
  }

  // Does a comment start at offset `o`?
  ghost predicate Opens(s: string, o: nat)
    requires o <= |s|
  {
    ModeAt(s, o) == Code && (Delimits(s, o, "#?") || Delimits(s, o, "#/"))
  }

  // A comment starts with a number sign and a question mark or a slash.
  lemma OpensWithDelimiter(s: string, o: nat)
    requires o <= |s| && Opens(s, o)
    ensures o + 1 < |s| && s[o] == '#' && (s[o + 1] == '?' || s[o + 1] == '/')
  {
    assert s[o..o + 2][0] == s[o] && s[o..o + 2][1] == s[o + 1];
  }

  datatype Range = Range(start: nat, end: nat)

  predicate Covered(ranges: seq<Range>, o: nat) {
    exists k :: 0 <= k < |ranges| && ranges[k].start <= o < ranges[k].end
  }

  predicate Starts(ranges: seq<Range>, o: nat) {
    exists k :: 0 <= k < |ranges| && ranges[k].start == o
  }

  // Non-empty ranges from left to right, without overlap.
  ghost predicate Ordered(ranges: seq<Range>) {
    && (forall k :: 0 <= k < |ranges| ==> ranges[k].start < ranges[k].end)
    && (forall j, k :: 0 <= j < k < |ranges| ==> ranges[j].end <= ranges[k].start)
  }

  // The ranges are right for every offset below `limit`, and end there at the latest.
  ghost predicate RightBelow(s: string, ranges: seq<Range>, limit: nat)
    requires limit <= |s| + 1
  {
    && Ordered(ranges)
    && (forall k :: 0 <= k < |ranges| ==> ranges[k].end <= limit)
    && (forall o: nat :: o < limit ==> (Covered(ranges, o) <==> InComment(s, o)))
    && (forall o: nat :: o < limit ==> (Starts(ranges, o) <==> Opens(s, o)))
  }

  lemma AddRange(s: string, ranges: seq<Range>, start: nat, end: nat)
    requires start < end <= |s| + 1
    requires RightBelow(s, ranges, start)
    requires forall o: nat :: start <= o < end ==> InComment(s, o)
    requires forall o: nat :: start <= o < end ==> (Opens(s, o) <==> o == start)
    ensures RightBelow(s, ranges + [Range(start, end)], end)
  {
    var more := ranges + [Range(start, end)];
    hide InComment, Opens;
    forall o: nat | o < end ensures Covered(more, o) <==> InComment(s, o) {
      if o < start {
        CoveredAppend(ranges, Range(start, end), o);
      } else {
        assert more[|ranges|].start <= o < more[|ranges|].end;
      }
    }
    forall o: nat | o < end ensures Starts(more, o) <==> Opens(s, o) {
      StartsAppend(ranges, Range(start, end), o);
      if Starts(ranges, o) {
        assert o < start;
      }
    }
  }

  lemma StartsAppend(ranges: seq<Range>, r: Range, o: nat)
    ensures Starts(ranges + [r], o) <==> Starts(ranges, o) || r.start == o
  {
    var more := ranges + [r];
    if k :| 0 <= k < |ranges| && ranges[k].start == o {
      assert more[k].start == o;
    }
    if r.start == o {
      assert more[|ranges|].start == o;
    }
  }

  lemma CoveredAppend(ranges: seq<Range>, r: Range, o: nat)
    requires o < r.start
    ensures Covered(ranges + [r], o) <==> Covered(ranges, o)
  {
    if k :| 0 <= k < |ranges| && ranges[k].start <= o < ranges[k].end {
      assert (ranges + [r])[k] == ranges[k];
    }
  }

  lemma AddCode(s: string, ranges: seq<Range>, index: nat)
    requires index <= |s| && RightBelow(s, ranges, index) && !InComment(s, index)
    ensures RightBelow(s, ranges, index + 1)
  {
    assert !Opens(s, index);
    hide InComment, Opens;
    if k :| 0 <= k < |ranges| && ranges[k].start == index {
      assert false;
    }
  }

  // The test of two characters that the loops make.
  predicate Next2(s: string, i: nat, a: char, b: char): (r: bool)
    ensures r <==> Delimits(s, i, [a, b])
    ensures r ==> i + 1 < |s|
  {
    i + 1 < |s| && s[i] == a && s[i + 1] == b
  }

  // First position of a newline at or after `from`, or -1.
  method FindNewline(s: string, from: nat) returns (at: int)
    requires from <= |s|
    ensures -1 <= at < |s|
    ensures at >= 0 ==> from <= at && s[at] == '\n' && forall k :: from <= k < at ==> s[k] != '\n'
    ensures at == -1 ==> forall k :: from <= k < |s| ==> s[k] != '\n'
  {
    for k := from to |s|
      invariant forall j :: from <= j < k ==> s[j] != '\n'
    {
      if s[k] == '\n' {
        return k;
      }
    }
    return -1;
  }

  lemma {:induction false} LineRun(s: string, start: nat, o: nat)
    requires start < o <= |s| && ModeAt(s, start) == Code && Delimits(s, start, "#?")
    requires forall k :: start <= k < o ==> s[k] != '\n'
    ensures ModeAt(s, o) == Line
    decreases o
  {
    if o > start + 1 {
      LineRun(s, start, o - 1);
    }
  }

  // Every offset of a line comment is one, up to the newline or the end of the text.
  lemma LineIsComment(s: string, start: nat, end: nat)
    requires start < |s| && ModeAt(s, start) == Code && Delimits(s, start, "#?")
    requires start < end <= |s| + 1
    requires forall k :: start <= k < end && k < |s| ==> s[k] != '\n'
    ensures forall o: nat :: start <= o < end ==> InComment(s, o) && (Opens(s, o) <==> o == start)
  {
    forall o: nat | start <= o < end ensures InComment(s, o) && (Opens(s, o) <==> o == start) {
      if o > start {
        LineRun(s, start, o);
      }
    }
  }

  /** The mode the loop is in: a line comment has been left at its newline. */
  ghost predicate LoopMode(s: string, index: nat, inString: bool, escaped: bool)
    requires index <= |s|
  {
    if inString then ModeAt(s, index) == if escaped then Escape else Quoted
    else ModeAt(s, index) == Code || (ModeAt(s, index) == Line && index < |s| && s[index] == '\n')
  }

  lemma BlockStarts(s: string, start: nat)
    requires start < |s| && ModeAt(s, start) == Code && Delimits(s, start, "#/")
    ensures start + 2 <= |s| && ModeAt(s, start + 1) == Open(1)
  {
    assert s[start..start + 2][0] == s[start] && s[start..start + 2][1] == s[start + 1];
  }

  // One delimiter or one other character of a block comment.
  lemma BlockStep(s: string, index: nat, d: nat)
    requires index < |s| && ModeAt(s, index) == Block(d) && d > 0
    ensures
      if Delimits(s, index, "#/") then
        index + 2 <= |s| && ModeAt(s, index + 1) == Open(d + 1) && ModeAt(s, index + 2) == Block(d + 1)
      else if Delimits(s, index, "/#") then
        && index + 2 <= |s| && ModeAt(s, index + 1) == Shut(d - 1)
        && ModeAt(s, index + 2) == if d == 1 then Code else Block(d - 1)
      else ModeAt(s, index + 1) == Block(d)
  {
    hide Delimits;
    assert Delimits(s, index, "#/") || Delimits(s, index, "/#") ==> index + 2 <= |s| by {
      DelimiterEnds(s, index, "#/");
      DelimiterEnds(s, index, "/#");
    }
  }

  lemma DelimiterEnds(s: string, i: nat, d: string)
    requires |d| == 2
    ensures Delimits(s, i, d) ==> i + 2 <= |s|
  {
  }

  // From `start` to `index` there is one comment.
  ghost predicate CommentFrom(s: string, start: nat, index: nat)
    requires index <= |s|
  {
    forall o: nat :: start <= o < index ==> InComment(s, o) && (Opens(s, o) <==> o == start)
  }

  lemma CommentGoesOn(s: string, start: nat, index: nat)
    requires start < index < |s| && CommentFrom(s, start, index)
    requires ModeAt(s, index).Open? || ModeAt(s, index).Block? || ModeAt(s, index).Shut?
    ensures CommentFrom(s, start, index + 1)
  {
  }

  lemma CommentOpens(s: string, start: nat)
    requires start < |s| && ModeAt(s, start) == Code && Delimits(s, start, "#/")
    ensures start + 2 <= |s| && ModeAt(s, start + 2) == Block(1)
    ensures CommentFrom(s, start, start + 2)
  {
    BlockStarts(s, start);
    hide Delimits;
  }

  lemma BlockGoesOn(s: string, start: nat, index: nat, d: nat)
    requires start < index < |s| && ModeAt(s, index) == Block(d) && d > 0 && CommentFrom(s, start, index)
    ensures CommentFrom(s, start, index + 1)
    ensures
      if Delimits(s, index, "#/") then
        index + 2 <= |s| && ModeAt(s, index + 2) == Block(d + 1) && CommentFrom(s, start, index + 2)
      else if Delimits(s, index, "/#") then
        && index + 2 <= |s| && CommentFrom(s, start, index + 2)
        && ModeAt(s, index + 2) == if d == 1 then Code else Block(d - 1)
      else ModeAt(s, index + 1) == Block(d)
  {
    hide Delimits, ModeAt, CommentFrom;
    BlockStep(s, index, d);
    CommentGoesOn(s, start, index);
    if Delimits(s, index, "#/") || Delimits(s, index, "/#") {
      CommentGoesOn(s, start, index + 1);
    }
  }

  // Skip a block comment; `depth` is what is still open when the text ends.
  method SkipBlock(s: string, start: nat) returns (index: nat, depth: nat)
    requires start < |s| && ModeAt(s, start) == Code && Delimits(s, start, "#/")
    ensures start < index <= |s|
    ensures forall o: nat :: start <= o < index ==> InComment(s, o) && (Opens(s, o) <==> o == start)
    ensures depth == 0 ==> ModeAt(s, index) == Code
    ensures depth > 0 ==> index == |s| && ModeAt(s, index) == Block(depth)
  {
    index, depth := start + 2, 1;
    CommentOpens(s, start);
    hide Delimits, ModeAt, InComment, Opens, CommentFrom;
    while index < |s| && depth > 0
      invariant start + 2 <= index <= |s| && CommentFrom(s, start, index)
      invariant ModeAt(s, index) == if depth > 0 then Block(depth) else Code
      decreases |s| - index
    {
      BlockGoesOn(s, start, index, depth);
      if Next2(s, index, '#', '/') {
        depth := depth + 1;
        index := index + 2;
      } else if Next2(s, index, '/', '#') {
        depth := depth - 1;
        index := index + 2;
      } else {
        index := index + 1;
      }
    }
    OneComment(s, start, index);
  }

  lemma OneComment(s: string, start: nat, index: nat)
    requires index <= |s| && CommentFrom(s, start, index)
    ensures forall o: nat :: start <= o < index ==> InComment(s, o) && (Opens(s, o) <==> o == start)
  {
  }

  // The ranges are ordered and disjoint, an offset lies in one of them exactly when
  // the automaton says it is in a comment, and each comment has a range of its own.
  method CommentRanges(s: string) returns (ranges: seq<Range>)
    ensures Ordered(ranges)
    ensures forall k :: 0 <= k < |ranges| ==> ranges[k].end <= |s| + 1
    ensures forall o: nat :: o <= |s| ==> (Covered(ranges, o) <==> InComment(s, o))
    ensures forall o: nat :: o <= |s| ==> (Starts(ranges, o) <==> Opens(s, o))
  {
    ranges := [];
    var index := 0;
    var inString, escaped := false, false;
    while index < |s|
      invariant index <= |s|
      invariant RightBelow(s, ranges, index)
      invariant LoopMode(s, index, inString, escaped) && (escaped ==> inString)
      decreases |s| - index
    {
      var c := s[index];
      if inString {
        AddCode(s, ranges, index);
        if escaped {
          escaped := false;
        } else if c == '\\' {
          escaped := true;
        } else if c == '"' {
          inString := false;
        }
        index := index + 1;
      } else if c == '"' {
        AddCode(s, ranges, index);
        inString := true;
        index := index + 1;
      } else if Next2(s, index, '#', '?') {
        var newline := FindNewline(s, index);
        var end := if newline < 0 then |s| + 1 else newline;
        LineIsComment(s, index, end);
        AddRange(s, ranges, index, end);
        if newline >= 0 {
          LineRun(s, index, end);
        }
        ranges := ranges + [Range(index, end)];
        if newline < 0 {
          return;
        }
        index := end;
      } else if Next2(s, index, '#', '/') {
        var after, depth := SkipBlock(s, index);
        var end := after + if depth > 0 then 1 else 0;
        AddRange(s, ranges, index, end);
        ranges := ranges + [Range(index, end)];
        if depth > 0 {
          return;
        }
        index := after;
      } else {
        AddCode(s, ranges, index);
        index := index + 1;
      }
    }
    AddCode(s, ranges, |s|);
  }
}
