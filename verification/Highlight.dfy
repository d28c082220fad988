/** Syntax highlighting of one input line, and the overlay that underlines an error span. */
module Highlight {

  datatype Fragment = Fragment(style: string, text: string)

  predicate IsSpace(c: char) {
    c == ' ' || '\t' <= c <= '\r' || '\U{001C}' <= c <= '\U{001F}'
  }

  predicate IsDigit(c: char) {
    '0' <= c <= '9'
  }

  predicate IsUpper(c: char) {
    'A' <= c <= 'Z'
  }

  predicate IsPunctuation(c: char) {
    c in "()[]{}.,:|@'"
  }

  predicate StartsIdentifier(c: char) {
    'a' <= c <= 'z' || 'A' <= c <= 'Z' || c == '_'
  }

  predicate InIdentifier(c: char) {
    StartsIdentifier(c) || IsDigit(c)
  }

  predicate StartsNumber(line: string, i: nat) {
    && i < |line|
    && (IsDigit(line[i]) || (line[i] == '.' && i + 1 < |line| && IsDigit(line[i + 1])))
  }

  predicate StartsWith2(line: string, i: nat, a: char, b: char) {
    i + 1 < |line| && line[i] == a && line[i + 1] == b
  }

  // The style of a fragment is determined by its text.
  function StyleOf(keywords: set<string>, types: set<string>, text: string): string {
    if text == "" then ""
    else if IsSpace(text[0]) then ""
    else if StartsWith2(text, 0, '#', '?') || StartsWith2(text, 0, '#', '/') then "class:comment"
    else if text[0] == '"' || text[0] == '\'' then "class:string"
    else if text[0] == '$' then "class:variable"
    else if text[0] == '#' then "class:tag"
    else if StartsNumber(text, 0) then "class:number"
    else if StartsIdentifier(text[0]) then
      if text in keywords then "class:keyword"
      else if text in types || IsUpper(text[0]) then "class:type"
      else "class:name"
    else if IsPunctuation(text[0]) then "class:punctuation"
    else "class:operator"
  }

  // The style of a text by its first characters, spelled out.
  lemma StylesByFirstCharacters(keywords: set<string>, types: set<string>, text: string)
    requires text != ""
    ensures
      var c, style := text[0], StyleOf(keywords, types, text);
      var letter := 'a' <= c <= 'z' || 'A' <= c <= 'Z' || c == '_';
      && (c == ' ' || c == '\t' || c == '\n' || c == '\r' ==> style == "")
      && ("#?" <= text || "#/" <= text ==> style == "class:comment")
      && (c == '#' && !("#?" <= text) && !("#/" <= text) ==> style == "class:tag")
      && (c == '"' || c == '\'' ==> style == "class:string")
      && (c == '$' ==> style == "class:variable")
      && ('0' <= c <= '9' || (c == '.' && |text| > 1 && '0' <= text[1] <= '9') ==> style == "class:number")
      && (letter && text in keywords ==> style == "class:keyword")
      && (letter && text !in keywords && (text in types || 'A' <= c <= 'Z') ==> style == "class:type")
      && (letter && text !in keywords && text !in types && !('A' <= c <= 'Z') ==> style == "class:name")
      && (c in {'(', ')', '[', ']', '{', '}', ',', ':', '|', '@'} ==> style == "class:punctuation")
      && (text == "." ==> style == "class:punctuation")
      && (c in {'+', '-', '*', '%', '!', '?', '=', '/', '<', '>', '~', '&', '^', '\\'} ==> style == "class:operator")
  {
  }

  function Text(fragments: seq<Fragment>): string {
    if fragments == [] then "" else Text(fragments[..|fragments| - 1]) + fragments[|fragments| - 1].text
  }

  /* Where each kind of token ends, stated without saying how it is found. */

  // The characters from `from` to `end` are the longest run that satisfies `within`.
  ghost predicate EndsRun(line: string, from: nat, end: nat, within: char -> bool) {
    && from <= end <= |line|
    && (forall k :: from <= k < end ==> within(line[k]))
    && (end < |line| ==> !within(line[end]))
  }

  // The longest identifier at `from`; there may be none.
  ghost predicate EndsIdentifier(line: string, from: nat, end: nat) {
    && from <= |line|
    && if from < |line| && StartsIdentifier(line[from]) then EndsRun(line, from + 1, end, InIdentifier)
       else end == from
  }

  // Digits with an optional fraction, or a fraction alone.
  ghost predicate EndsMantissa(line: string, from: nat, end: nat)
    requires StartsNumber(line, from)
  {
    if !IsDigit(line[from]) then EndsRun(line, from + 1, end, IsDigit)
    else
      exists whole: nat ::
        && EndsRun(line, from, whole, IsDigit)
        && if whole < |line| && line[whole] == '.' then EndsRun(line, whole + 1, end, IsDigit) else end == whole
  }

  // An exponent at `from` has its first digit at `digits`, behind an optional sign.
  ghost predicate ExponentAt(line: string, from: nat, digits: nat) {
    && from < digits < |line| && (line[from] == 'e' || line[from] == 'E') && IsDigit(line[digits])
    && (digits == from + 1 || (digits == from + 2 && (line[from + 1] == '+' || line[from + 1] == '-')))
  }

  // A mantissa and an exponent, if there is one: an exponent without a digit is none.
  ghost predicate EndsNumber(line: string, from: nat, end: nat)
    requires StartsNumber(line, from)
  {
    exists mantissa: nat ::
      && EndsMantissa(line, from, mantissa)
      && EndsExponent(line, mantissa, end)
  }

  ghost predicate EndsExponent(line: string, from: nat, end: nat) {
    || (exists digits: nat :: ExponentAt(line, from, digits) && EndsRun(line, digits, end, IsDigit))
    || (end == from && forall digits: nat :: !ExponentAt(line, from, digits))
  }

  /** Nothing from `from` to `end` closes the quotation opened by `quote`: every quote
      in between is escaped. */
  ghost predicate StaysQuoted(line: string, from: nat, end: nat, quote: char)
    requires end <= |line|
    decreases end - from
  {
    if from >= end then from == end
    else if line[from] == '\\' then
      (from + 1 == |line| && end == |line|) || (from + 2 <= end && StaysQuoted(line, from + 2, end, quote))
    else line[from] != quote && StaysQuoted(line, from + 1, end, quote)
  }

  // One past the closing quote, or the end of the line if the quotation is open.
  ghost predicate EndsQuoted(line: string, start: nat, end: nat)
    requires start < |line|
  {
    && start < end <= |line|
    && (|| (end - 1 > start && line[end - 1] == line[start] && StaysQuoted(line, start + 1, end - 1, line[start]))
        || (end == |line| && StaysQuoted(line, start + 1, |line|, line[start])))
  }

  // One past the first closing delimiter, or the end of the line: block comments do
  // not nest here.
  ghost predicate EndsBlock(line: string, from: nat, end: nat) {
    && from + 2 <= end <= |line|
    && (|| (end >= from + 4 && StartsWith2(line, end - 2, '/', '#')
            && forall k :: from + 2 <= k < end - 2 ==> !StartsWith2(line, k, '/', '#'))
        || (end == |line| && forall k: nat :: from + 2 <= k ==> !StartsWith2(line, k, '/', '#')))
  }

  ghost predicate EndsTag(line: string, from: nat, end: nat) {
    exists name: nat :: EndsIdentifier(line, from, name) && EndsRun(line, name, end, InTagSuffix)
  }

  /** The token that starts at `index` ends at `end`. */
  ghost predicate EndsToken(line: string, index: nat, end: nat)
    requires index < |line|
  {
    var c := line[index];
    if IsSpace(c) then EndsRun(line, index + 1, end, IsSpace)
    else if StartsWith2(line, index, '#', '?') then end == |line|
    else if StartsWith2(line, index, '#', '/') then EndsBlock(line, index, end)
    else if c == '"' || c == '\'' then EndsQuoted(line, index, end)
    else if c == '$' then EndsIdentifier(line, index + 1, end)
    else if c == '#' then EndsTag(line, index + 1, end)
    else if StartsNumber(line, index) then EndsNumber(line, index, end)
    else if StartsIdentifier(c) then EndsIdentifier(line, index, end)
    else if IsPunctuation(c) then end == index + 1
    else EndsRun(line, index + 1, end, InOperator)
  }

  lemma RunEndIsUnique(line: string, from: nat, a: nat, b: nat, within: char -> bool)
    requires EndsRun(line, from, a, within) && EndsRun(line, from, b, within)
    ensures a == b
  {
    assert forall k :: from <= k < a || from <= k < b ==> within(line[k]);
  }

  lemma IdentifierEndIsUnique(line: string, from: nat, a: nat, b: nat)
    requires EndsIdentifier(line, from, a) && EndsIdentifier(line, from, b)
    ensures a == b
  {
    if from < |line| && StartsIdentifier(line[from]) {
      RunEndIsUnique(line, from + 1, a, b, InIdentifier);
    }
  }

  lemma MantissaEndIsUnique(line: string, from: nat, a: nat, b: nat)
    requires StartsNumber(line, from) && EndsMantissa(line, from, a) && EndsMantissa(line, from, b)
    ensures a == b
  {
    hide EndsRun;
    if !IsDigit(line[from]) {
      RunEndIsUnique(line, from + 1, a, b, IsDigit);
    } else {
      var wholeA: nat :| EndsRun(line, from, wholeA, IsDigit)
        && if wholeA < |line| && line[wholeA] == '.' then EndsRun(line, wholeA + 1, a, IsDigit) else a == wholeA;
      var wholeB: nat :| EndsRun(line, from, wholeB, IsDigit)
        && if wholeB < |line| && line[wholeB] == '.' then EndsRun(line, wholeB + 1, b, IsDigit) else b == wholeB;
      RunEndIsUnique(line, from, wholeA, wholeB, IsDigit);
      if wholeA < |line| && line[wholeA] == '.' {
        RunEndIsUnique(line, wholeA + 1, a, b, IsDigit);
      }
    }
  }

  lemma ExponentEndIsUnique(line: string, from: nat, a: nat, b: nat)
    requires EndsExponent(line, from, a) && EndsExponent(line, from, b)
    ensures a == b
  {
    if digits: nat :| ExponentAt(line, from, digits) {
      var x: nat :| ExponentAt(line, from, x) && EndsRun(line, x, a, IsDigit);
      var y: nat :| ExponentAt(line, from, y) && EndsRun(line, y, b, IsDigit);
      assert x == y;
      hide EndsRun;
      RunEndIsUnique(line, x, a, b, IsDigit);
    }
  }

  lemma NumberEndIsUnique(line: string, from: nat, a: nat, b: nat)
    requires StartsNumber(line, from) && EndsNumber(line, from, a) && EndsNumber(line, from, b)
    ensures a == b
  {
    hide EndsExponent, EndsMantissa;
    var ma: nat :| EndsMantissa(line, from, ma) && EndsExponent(line, ma, a);
    var mb: nat :| EndsMantissa(line, from, mb) && EndsExponent(line, mb, b);
    MantissaEndIsUnique(line, from, ma, mb);
    ExponentEndIsUnique(line, ma, a, b);
  }

  // A quotation that stays open up to an unescaped quote does not stay open past it.
  lemma {:induction false} QuoteCloses(line: string, from: nat, a: nat, b: nat, quote: char)
    requires a < b <= |line| && quote != '\\' && line[a] == quote
    requires StaysQuoted(line, from, a, quote)
    ensures !StaysQuoted(line, from, b, quote)
    decreases a - from
  {
    if from < a {
      QuoteCloses(line, if line[from] == '\\' then from + 2 else from + 1, a, b, quote);
    }
  }

  lemma QuotedEndIsFirst(line: string, start: nat, a: nat, b: nat)
    requires start < |line| && line[start] != '\\'
    requires EndsQuoted(line, start, a) && a < b <= |line|
    ensures !EndsQuoted(line, start, b)
  {
    QuoteCloses(line, start + 1, a - 1, b, line[start]);
    if b - 1 > a - 1 {
      QuoteCloses(line, start + 1, a - 1, b - 1, line[start]);
    }
  }

  lemma QuotedEndIsUnique(line: string, start: nat, a: nat, b: nat)
    requires start < |line| && line[start] != '\\'
    requires EndsQuoted(line, start, a) && EndsQuoted(line, start, b)
    ensures a == b
  {
    if a < b {
      QuotedEndIsFirst(line, start, a, b);
    } else if b < a {
      QuotedEndIsFirst(line, start, b, a);
    }
  }

  lemma TagEndIsUnique(line: string, from: nat, a: nat, b: nat)
    requires EndsTag(line, from, a) && EndsTag(line, from, b)
    ensures a == b
  {
    hide EndsRun, EndsIdentifier;
    var nameA: nat :| EndsIdentifier(line, from, nameA) && EndsRun(line, nameA, a, InTagSuffix);
    var nameB: nat :| EndsIdentifier(line, from, nameB) && EndsRun(line, nameB, b, InTagSuffix);
    IdentifierEndIsUnique(line, from, nameA, nameB);
    RunEndIsUnique(line, nameA, a, b, InTagSuffix);
  }

  lemma BlockEndIsUnique(line: string, from: nat, a: nat, b: nat)
    requires EndsBlock(line, from, a) && EndsBlock(line, from, b)
    ensures a == b
  {
  }

  // A token ends at one place only.
  lemma TokenEndIsUnique(line: string, index: nat, a: nat, b: nat)
    requires index < |line| && EndsToken(line, index, a) && EndsToken(line, index, b)
    ensures a == b
  {
    hide EndsRun, EndsIdentifier, EndsTag, EndsNumber, EndsQuoted, EndsBlock;
    var c := line[index];
    if IsSpace(c) {
      RunEndIsUnique(line, index + 1, a, b, IsSpace);
    } else if StartsWith2(line, index, '#', '?') {
    } else if StartsWith2(line, index, '#', '/') {
      BlockEndIsUnique(line, index, a, b);
    } else if c == '"' || c == '\'' {
      QuotedEndIsUnique(line, index, a, b);
    } else if c == '$' {
      IdentifierEndIsUnique(line, index + 1, a, b);
    } else if c == '#' {
      TagEndIsUnique(line, index + 1, a, b);
    } else if StartsNumber(line, index) {
      NumberEndIsUnique(line, index, a, b);
    } else if StartsIdentifier(c) {
      IdentifierEndIsUnique(line, index, a, b);
    } else if IsPunctuation(c) {
    } else {
      RunEndIsUnique(line, index + 1, a, b, InOperator);
    }
  }

  /* The tokenizer. */

  // End of the run of characters from `from` on that satisfy `within`.
  method RunEnd(line: string, from: nat, within: char -> bool) returns (end: nat)
    requires from <= |line|
    ensures EndsRun(line, from, end, within)
  {
    end := from;
    while end < |line| && within(line[end])
      invariant from <= end <= |line|
      invariant forall k :: from <= k < end ==> within(line[k])
    {
      end := end + 1;
    }
  }

  method IdentifierEnd(line: string, from: nat) returns (end: nat)
    requires from <= |line|
    ensures from <= end <= |line| && EndsIdentifier(line, from, end)
    ensures end > from <==> from < |line| && StartsIdentifier(line[from])
  {
    if from == |line| || !StartsIdentifier(line[from]) {
      return from;
    }
    end := RunEnd(line, from + 1, InIdentifier);
  }

  // A decimal number with optional fraction and exponent.
  method NumberEnd(line: string, from: nat) returns (end: nat)
    requires from <= |line|
    ensures if StartsNumber(line, from) then from < end <= |line| && EndsNumber(line, from, end) else end == from
    ensures end > from && line[from] == '.' ==> end >= from + 2
  {
    if !StartsNumber(line, from) {
      return from;
    }
    if IsDigit(line[from]) {
      end := RunEnd(line, from, IsDigit);
      if end < |line| && line[end] == '.' {
        end := RunEnd(line, end + 1, IsDigit);
      }
    } else {
      end := RunEnd(line, from + 1, IsDigit);
    }
    assert EndsMantissa(line, from, end);
    ghost var mantissa := end;
    end := ExponentEnd(line, end);
    assert EndsMantissa(line, from, mantissa);
  }

  method ExponentEnd(line: string, from: nat) returns (end: nat)
    requires from <= |line|
    ensures from <= end <= |line| && EndsExponent(line, from, end)
  {
    end := from;
    if end < |line| && (line[end] == 'e' || line[end] == 'E') {
      var signed := end + 1 < |line| && (line[end + 1] == '+' || line[end + 1] == '-');
      var digits := if signed then end + 2 else end + 1;
      var exponent := RunEnd(line, digits, IsDigit);
      if exponent > digits {
        assert ExponentAt(line, end, digits);
        end := exponent;
      }
    }
  }

  // One past the closing quote, or the end of the line if the quotation is open.
  method QuotedEnd(line: string, start: nat) returns (end: nat)
    requires start < |line|
    ensures EndsQuoted(line, start, end)
  {
    ghost var quote := line[start];
    var index := start + 1;
    while index < |line|
      invariant start < index <= |line|
      invariant forall e: nat :: index <= e <= |line| && StaysQuoted(line, index, e, quote) ==>
        StaysQuoted(line, start + 1, e, quote)
      decreases |line| - index
    {
      if line[index] == '\\' {
        ExtendQuoted(line, start + 1, index, quote);
        index := if index + 2 <= |line| then index + 2 else |line|;
        continue;
      }
      if line[index] == line[start] {
        assert StaysQuoted(line, index, index, quote);
        return index + 1;
      }
      ExtendQuoted(line, start + 1, index, quote);
      index := index + 1;
    }
    assert StaysQuoted(line, |line|, |line|, quote);
    return |line|;
  }

  ghost function QuotedStep(line: string, index: nat): nat
    requires index < |line|
  {
    if line[index] != '\\' then index + 1 else if index + 2 <= |line| then index + 2 else |line|
  }

  lemma ExtendQuoted(line: string, from: nat, index: nat, quote: char)
    requires index < |line| && (line[index] == '\\' || line[index] != quote)
    requires forall e: nat :: index <= e <= |line| && StaysQuoted(line, index, e, quote) ==>
      StaysQuoted(line, from, e, quote)
    ensures
      var next := QuotedStep(line, index);
      forall e: nat :: next <= e <= |line| && StaysQuoted(line, next, e, quote) ==> StaysQuoted(line, from, e, quote)
  {
    forall e: nat | QuotedStep(line, index) <= e <= |line| && StaysQuoted(line, QuotedStep(line, index), e, quote)
      ensures StaysQuoted(line, from, e, quote)
    {
      assert StaysQuoted(line, index, e, quote);
    }
  }

  // Where a block comment that starts at `from` ends: block comments do not nest here.
  method BlockEnd(line: string, from: nat) returns (end: nat)
    requires StartsWith2(line, from, '#', '/')
    ensures EndsBlock(line, from, end)
  {
    var k := from + 2;
    while k + 1 < |line|
      invariant from + 2 <= k <= |line|
      invariant forall j :: from + 2 <= j < k ==> !StartsWith2(line, j, '/', '#')
    {
      if StartsWith2(line, k, '/', '#') {
        return k + 2;
      }
      k := k + 1;
    }
    return |line|;
  }

  // The next token of a non-empty rest of the line: where it ends and its style.
  method NextToken(keywords: set<string>, types: set<string>, line: string, index: nat)
    returns (end: nat, style: string)
    requires index < |line|
    ensures index < end <= |line| && EndsToken(line, index, end)
    ensures style == StyleOf(keywords, types, line[index..end])
  {
    hide EndsIdentifier, EndsNumber, EndsQuoted, EndsBlock, InOperator, InTagSuffix, IsPunctuation, IsSpace, IsUpper;
    var c := line[index];
    if IsSpace(c) {
      end := RunEnd(line, index + 1, IsSpace);
      style := "";
    } else if StartsWith2(line, index, '#', '?') {
      end, style := |line|, "class:comment";
    } else if StartsWith2(line, index, '#', '/') {
      end := BlockEnd(line, index);
      style := "class:comment";
    } else if c == '"' || c == '\'' {
      end := QuotedEnd(line, index);
      style := "class:string";
    } else if c == '$' {
      end := IdentifierEnd(line, index + 1);
      style := "class:variable";
    } else if c == '#' {
      end := IdentifierEnd(line, index + 1);
      end := RunEnd(line, end, InTagSuffix);
      style := "class:tag";
    } else {
      end := NumberEnd(line, index);
      if end > index {
        style := "class:number";
        return;
      }
      end := IdentifierEnd(line, index);
      if end > index {
        var text := line[index..end];
        style :=
          if text in keywords then "class:keyword"
          else if text in types || IsUpper(text[0]) then "class:type"
          else "class:name";
        return;
      }
      if IsPunctuation(c) {
        end, style := index + 1, "class:punctuation";
      } else {
        end := RunEnd(line, index + 1, InOperator);
        style := "class:operator";
      }
    }
  }

  predicate InTagSuffix(c: char) {
    c in "+0123456789"
  }

  predicate InOperator(c: char) {
    c in "+-*%!?=/<>~&^\\"
  }

  // The characters that go on with a token, spelled out.
  lemma ContinuingCharacters(c: char)
    ensures InIdentifier(c) <==> 'a' <= c <= 'z' || 'A' <= c <= 'Z' || c == '_' || '0' <= c <= '9'
    ensures InTagSuffix(c) <==> c == '+' || '0' <= c <= '9'
    ensures InOperator(c) <==>
      c in {'+', '-', '*', '%', '!', '?', '=', '/', '<', '>', '~', '&', '^', '\\'}
    ensures IsSpace(c) <==>
      c in {' ', '\t', '\n', '\r', '\U{000B}', '\U{000C}', '\U{001C}', '\U{001D}', '\U{001E}', '\U{001F}'}
  {
    var digits, operators := "+0123456789", "+-*%!?=/<>~&^\\";
    if InTagSuffix(c) {
      var k :| 0 <= k < |digits| && digits[k] == c;
    }
    if '0' <= c <= '9' {
      assert digits[c as int - '0' as int + 1] == c;
    }
    assert digits[0] == '+';
    assert operators[0] == '+' && operators[1] == '-' && operators[2] == '*' && operators[3] == '%';
    assert operators[4] == '!' && operators[5] == '?' && operators[6] == '=' && operators[7] == '/';
    assert operators[8] == '<' && operators[9] == '>' && operators[10] == '~' && operators[11] == '&';
    assert operators[12] == '^' && operators[13] == '\\';
  }

  /** The fragments are the tokens of `line` from its start on, each up to where it
      ends and in the style its text calls for. */
  ghost predicate Tokens(keywords: set<string>, types: set<string>, line: string, fragments: seq<Fragment>) {
    && Text(fragments) <= line
    && (fragments != [] ==>
          var front, last := fragments[..|fragments| - 1], fragments[|fragments| - 1];
          && Tokens(keywords, types, line, front)
          && last.text != "" && last.style == StyleOf(keywords, types, last.text)
          && EndsToken(line, |Text(front)|, |Text(fragments)|))
  }

  lemma TextGrows(fragments: seq<Fragment>, f: Fragment)
    ensures Text(fragments + [f]) == Text(fragments) + f.text
  {
    assert (fragments + [f])[..|fragments|] == fragments;
  }

  lemma {:induction false} TokensStopShort(
      keywords: set<string>, types: set<string>, line: string, fragments: seq<Fragment>, k: nat)
    requires Tokens(keywords, types, line, fragments) && k < |fragments|
    ensures Tokens(keywords, types, line, fragments[..k]) && |Text(fragments[..k])| < |line|
  {
    hide EndsToken, StyleOf;
    if k < |fragments| - 1 {
      TokensStopShort(keywords, types, line, fragments[..|fragments| - 1], k);
      assert fragments[..|fragments| - 1][..k] == fragments[..k];
    }
  }

  lemma SameToken(line: string, before: string, a: string, b: string)
    requires before + a <= line && before + b <= line && |before| < |line|
    requires EndsToken(line, |before|, |before + a|) && EndsToken(line, |before|, |before + b|)
    ensures a == b
  {
    TokenEndIsUnique(line, |before|, |before + a|, |before + b|);
    hide EndsToken;
    assert (before + a)[|before|..] == a && (before + b)[|before|..] == b;
  }

  lemma SameLastToken(
      keywords: set<string>, types: set<string>, line: string, front: seq<Fragment>, x: Fragment, y: Fragment)
    requires Tokens(keywords, types, line, front + [x]) && Tokens(keywords, types, line, front + [y])
    ensures x == y
  {
    hide EndsToken, StyleOf, Text;
    TextGrows(front, x);
    TextGrows(front, y);
    LastToken(keywords, types, line, front, x);
    LastToken(keywords, types, line, front, y);
    hide Tokens;
    SameToken(line, Text(front), x.text, y.text);
  }

  lemma LastToken(keywords: set<string>, types: set<string>, line: string, front: seq<Fragment>, x: Fragment)
    requires Tokens(keywords, types, line, front + [x])
    ensures Text(front) + x.text <= line && x.text != "" && x.style == StyleOf(keywords, types, x.text)
    ensures EndsToken(line, |Text(front)|, |Text(front) + x.text|)
  {
    hide EndsToken, StyleOf;
    TextGrows(front, x);
    assert (front + [x])[..|front|] == front;
  }

  lemma {:induction false} SameTokens(
      keywords: set<string>, types: set<string>, line: string, a: seq<Fragment>, b: seq<Fragment>)
    requires Tokens(keywords, types, line, a) && Tokens(keywords, types, line, b) && |a| == |b|
    ensures a == b
  {
    hide EndsToken, StyleOf, Text;
    if a != [] {
      var front, x, y := a[..|a| - 1], a[|a| - 1], b[|b| - 1];
      SameTokens(keywords, types, line, front, b[..|b| - 1]);
      hide Tokens;
      assert a == front + [x] && b == front + [y];
      SameLastToken(keywords, types, line, front, x, y);
    }
  }

  // A line has one highlighting only.
  lemma HighlightingIsDetermined(
      keywords: set<string>, types: set<string>, line: string, a: seq<Fragment>, b: seq<Fragment>)
    requires Tokens(keywords, types, line, a) && Text(a) == line
    requires Tokens(keywords, types, line, b) && Text(b) == line
    ensures a == b
  {
    hide EndsToken, StyleOf;
    if |a| < |b| {
      TokensStopShort(keywords, types, line, b, |a|);
      SameTokens(keywords, types, line, a, b[..|a|]);
    } else if |b| < |a| {
      TokensStopShort(keywords, types, line, a, |b|);
      SameTokens(keywords, types, line, a[..|b|], b);
    } else {
      SameTokens(keywords, types, line, a, b);
    }
  }

  // Highlighting loses nothing: the fragments are the tokens of the line, and put
  // together they are the line.
  method HighlightedFragments(keywords: set<string>, types: set<string>, line: string)
    returns (fragments: seq<Fragment>)
    ensures Text(fragments) == line
    ensures Tokens(keywords, types, line, fragments)
  {
    hide EndsToken, StyleOf;
    fragments := [];
    var index := 0;
    while index < |line|
      invariant index <= |line|
      invariant Text(fragments) == line[..index]
      invariant Tokens(keywords, types, line, fragments)
    {
      var end, style := NextToken(keywords, types, line, index);
      var f := Fragment(style, line[index..end]);
      TextGrows(fragments, f);
      assert (fragments + [f])[..|fragments|] == fragments;
      assert line[..end] == line[..index] + line[index..end];
      fragments := fragments + [f];
      index := end;
    }
    assert line[..|line|] == line;
  }

  /* The error overlay. */

  datatype Cell = Cell(c: char, style: string)

  // The line character by character, each with its style.
  function Cells(fragments: seq<Fragment>): seq<Cell> {
    if fragments == [] then []
    else Cells(fragments[..|fragments| - 1]) + CellsOf(fragments[|fragments| - 1])
  }

  function CellsOf(f: Fragment): seq<Cell> {
    seq(|f.text|, i requires 0 <= i < |f.text| => Cell(f.text[i], f.style))
  }

  function WithError(style: string): string {
    if style == "" then "class:error" else style + " class:error"
  }

  // The base style can be read back from an error style.
  lemma WithErrorIsInjective(a: string, b: string)
    requires WithError(a) == WithError(b)
    ensures a == b
  {
    assert |WithError(a)| == if a == "" then 11 else |a| + 12;
    assert |WithError(b)| == if b == "" then 11 else |b| + 12;
    assert a != "" ==> WithError(a)[..|a|] == a;
    assert b != "" ==> WithError(b)[..|b|] == b;
  }

  // `name` is one of the classes of a style, which are separated by blanks.
  ghost predicate HasClass(style: string, name: string) {
    exists before, after :: ClassBetween(style, before, name, after)
  }

  ghost predicate ClassBetween(style: string, before: string, name: string, after: string) {
    && style == before + name + after
    && (before == "" || before[|before| - 1] == ' ')
    && (after == "" || after[0] == ' ')
  }

  lemma ErrorIsAClass(style: string)
    ensures HasClass(WithError(style), "class:error")
    ensures |WithError(style)| == if style == "" then 11 else |style| + 12
  {
    var before := if style == "" then "" else style + " ";
    assert WithError(style) == before + "class:error" + "";
    assert ClassBetween(WithError(style), before, "class:error", "");
  }

  lemma ClassStays(style: string, before: string, name: string, after: string, more: string)
    requires ClassBetween(style, before, name, after) && more != "" && more[0] == ' '
    ensures ClassBetween(style + more, before, name, after + more)
  {
    assert style + more == before + name + (after + more);
  }

  // The error style has the classes of the base style and the class of errors.
  lemma ErrorIsOneMoreClass(style: string, name: string)
    ensures HasClass(WithError(style), "class:error")
    ensures style != "" && HasClass(style, name) ==> HasClass(WithError(style), name)
    ensures |WithError(style)| == if style == "" then 11 else |style| + 12
  {
    ErrorIsAClass(style);
    hide ClassBetween;
    if style != "" && HasClass(style, name) {
      var before, after :| ClassBetween(style, before, name, after);
      ClassStays(style, before, name, after, " class:error");
    }
  }

  predicate InSpan(offset: nat, i: nat, start: int, end: int) {
    start <= offset + i < end
  }

  // The cells with the error style added inside the span, nothing else changed.
  function Marked(cells: seq<Cell>, offset: nat, start: int, end: int): seq<Cell> {
    seq(|cells|, i requires 0 <= i < |cells| =>
      if InSpan(offset, i, start, end) then Cell(cells[i].c, WithError(cells[i].style)) else cells[i])
  }

  // A slice whose upper bound may lie below the lower one.
  function Slice(text: string, left: nat, right: nat): string
    requires left <= |text| && right <= |text|
  {
    if left <= right then text[left..right] else ""
  }

  predicate OutsideSpan(offset: nat, stop: nat, start: int, end: int) {
    stop <= start || offset >= end
  }

  // The pieces of one fragment that starts at `offset`.
  function Pieces(f: Fragment, offset: nat, start: int, end: int): seq<Fragment> {
    var stop := offset + |f.text|;
    if OutsideSpan(offset, stop, start, end) then [f]
    else
      var left: nat := if start - offset > 0 then start - offset else 0;
      var right: nat := if end - offset < |f.text| then end - offset else |f.text|;
      (if left > 0 then [Fragment(f.style, f.text[..left])] else [])
      + [Fragment(WithError(f.style), Slice(f.text, left, right))]
      + if right < |f.text| then [Fragment(f.style, f.text[right..])] else []
  }

  // An inverted span with both ends strictly inside one fragment.
  predicate Straddled(f: Fragment, offset: nat, start: int, end: int) {
    offset < end < start < offset + |f.text|
  }

  lemma {:induction false} CellsConcat(a: seq<Fragment>, b: seq<Fragment>)
    ensures Cells(a + b) == Cells(a) + Cells(b)
  {
    if b == [] {
      assert a + b == a;
    } else {
      assert (a + b)[..|a + b| - 1] == a + b[..|b| - 1];
      CellsConcat(a, b[..|b| - 1]);
    }
  }

  lemma CellsOne(f: Fragment)
    ensures Cells([f]) == CellsOf(f)
  {
    assert [f][..0] == [];
  }

  // The cells of an optional piece.
  lemma CellsOfPiece(style: string, text: string)
    ensures Cells(if text == "" then [] else [Fragment(style, text)]) == CellsOf(Fragment(style, text))
  {
    if text != "" {
      CellsOne(Fragment(style, text));
    }
  }

  lemma MarkedInThree(f: Fragment, offset: nat, start: int, end: int, left: nat, right: nat)
    requires left <= right <= |f.text|
    requires forall i: nat :: i < |f.text| ==> (InSpan(offset, i, start, end) <==> left <= i < right)
    ensures Marked(CellsOf(f), offset, start, end) ==
      CellsOf(Fragment(f.style, f.text[..left])) + CellsOf(Fragment(WithError(f.style), f.text[left..right]))
      + CellsOf(Fragment(f.style, f.text[right..]))
  {
    var a := CellsOf(Fragment(f.style, f.text[..left]));
    var b := CellsOf(Fragment(WithError(f.style), f.text[left..right]));
    var c := CellsOf(Fragment(f.style, f.text[right..]));
    var m := Marked(CellsOf(f), offset, start, end);
    hide WithError, InSpan;
    forall i: nat | i < |f.text| ensures m[i] == (a + b + c)[i] {
      if i < left {
        assert (a + b + c)[i] == a[i];
      } else if i < right {
        assert (a + b + c)[i] == b[i - left];
      } else {
        assert (a + b + c)[i] == c[i - right];
      }
    }
    assert m == a + b + c;
  }

  // Outside the bad case the pieces are the fragment with its part of the span marked.
  lemma PiecesAreMarked(f: Fragment, offset: nat, start: int, end: int)
    requires !Straddled(f, offset, start, end)
    ensures Cells(Pieces(f, offset, start, end)) == Marked(CellsOf(f), offset, start, end)
  {
    var stop := offset + |f.text|;
    if OutsideSpan(offset, stop, start, end) {
      CellsOne(f);
    } else {
      var left: nat := if start - offset > 0 then start - offset else 0;
      var right: nat := if end - offset < |f.text| then end - offset else |f.text|;
      var a, c := f.text[..left], f.text[right..];
      var middle := Fragment(WithError(f.style), f.text[left..right]);
      var first := if a == "" then [] else [Fragment(f.style, a)];
      var last := if c == "" then [] else [Fragment(f.style, c)];
      assert Pieces(f, offset, start, end) == first + [middle] + last;
      MarkedInThree(f, offset, start, end, left, right);
      hide Cells, CellsOf, Marked, WithError;
      CellsConcat(first + [middle], last);
      CellsConcat(first, [middle]);
      CellsOne(middle);
      CellsOfPiece(f.style, a);
      CellsOfPiece(f.style, c);
    }
  }

  // In the bad case characters appear twice.
  lemma StraddledGrows(f: Fragment, offset: nat, start: int, end: int)
    requires Straddled(f, offset, start, end)
    ensures |Cells(Pieces(f, offset, start, end))| > |f.text|
  {
    var left, right := start - offset, end - offset;
    var a, b, c :=
      Fragment(f.style, f.text[..left]), Fragment(WithError(f.style), ""), Fragment(f.style, f.text[right..]);
    assert Pieces(f, offset, start, end) == [a] + [b] + [c];
    CellsConcat([a] + [b], [c]);
    CellsConcat([a], [b]);
    CellsOne(a);
    CellsOne(b);
    CellsOne(c);
  }

  // No fragment of the list, the first starting at `offset`, is straddled by an
  // inverted span.
  predicate SpanFits(fragments: seq<Fragment>, start: int, end: int) {
    forall k :: 0 <= k < |fragments| ==> !Straddled(fragments[k], |Text(fragments[..k])|, start, end)
  }

  // All pieces of a line, fragment by fragment.
  function AllPieces(fragments: seq<Fragment>, start: int, end: int): seq<Fragment> {
    if fragments == [] then []
    else
      var front, last := fragments[..|fragments| - 1], fragments[|fragments| - 1];
      AllPieces(front, start, end) + Pieces(last, |Text(front)|, start, end)
  }

  lemma {:induction false} CellsSpellText(fragments: seq<Fragment>)
    ensures |Cells(fragments)| == |Text(fragments)|
    ensures forall i :: 0 <= i < |Text(fragments)| ==> Cells(fragments)[i].c == Text(fragments)[i]
  {
    if fragments != [] {
      CellsSpellText(fragments[..|fragments| - 1]);
    }
  }

  lemma SpanFitsFront(fragments: seq<Fragment>, start: int, end: int)
    requires fragments != []
    ensures
      var front, last := fragments[..|fragments| - 1], fragments[|fragments| - 1];
      SpanFits(fragments, start, end) <==>
        SpanFits(front, start, end) && !Straddled(last, |Text(front)|, start, end)
  {
    hide Text, Straddled;
    var front := fragments[..|fragments| - 1];
    assert forall k :: 0 <= k < |front| ==> front[..k] == fragments[..k];
    if SpanFits(fragments, start, end) {
      forall k | 0 <= k < |front| ensures !Straddled(front[k], |Text(front[..k])|, start, end) {
        assert !Straddled(fragments[k], |Text(fragments[..k])|, start, end);
      }
    }
  }

  lemma MarkedAppend(a: seq<Cell>, b: seq<Cell>, start: int, end: int)
    ensures Marked(a + b, 0, start, end) == Marked(a, 0, start, end) + Marked(b, |a|, start, end)
  {
    hide WithError;
  }

  // When the span fits, the overlay changes exactly the styles inside it.
  lemma {:induction false} OverlayMarksSpan(fragments: seq<Fragment>, start: int, end: int)
    requires SpanFits(fragments, start, end)
    ensures Cells(AllPieces(fragments, start, end)) == Marked(Cells(fragments), 0, start, end)
  {
    if fragments != [] {
      var front, last := fragments[..|fragments| - 1], fragments[|fragments| - 1];
      SpanFitsFront(fragments, start, end);
      OverlayMarksSpan(front, start, end);
      CellsSpellText(front);
      hide Marked, CellsOf, Pieces, Straddled, SpanFits, Text;
      PiecesAreMarked(last, |Text(front)|, start, end);
      CellsConcat(AllPieces(front, start, end), Pieces(last, |Text(front)|, start, end));
      MarkedAppend(Cells(front), CellsOf(last), start, end);
    }
  }

  // When it does not fit, the rendered line is longer than the line.
  lemma {:induction false} OverlayGrows(fragments: seq<Fragment>, start: int, end: int)
    ensures |Cells(AllPieces(fragments, start, end))| >= |Text(fragments)|
    ensures !SpanFits(fragments, start, end) ==> |Cells(AllPieces(fragments, start, end))| > |Text(fragments)|
  {
    if fragments != [] {
      var front, last := fragments[..|fragments| - 1], fragments[|fragments| - 1];
      SpanFitsFront(fragments, start, end);
      OverlayGrows(front, start, end);
      CellsConcat(AllPieces(front, start, end), Pieces(last, |Text(front)|, start, end));
      hide Pieces, SpanFits, Cells;
      if Straddled(last, |Text(front)|, start, end) {
        StraddledGrows(last, |Text(front)|, start, end);
      } else {
        PiecesAreMarked(last, |Text(front)|, start, end);
      }
    }
  }

  // The overlay keeps the text exactly when the span is not inverted inside one
  // fragment; every span with start <= end is fine.
  lemma OverlayKeepsTextExactlyWhenSpanFits(fragments: seq<Fragment>, start: int, end: int)
    ensures Text(AllPieces(fragments, start, end)) == Text(fragments) <==> SpanFits(fragments, start, end)
    ensures start <= end ==> SpanFits(fragments, start, end)
  {
    var rendered := AllPieces(fragments, start, end);
    CellsSpellText(rendered);
    CellsSpellText(fragments);
    OverlayGrows(fragments, start, end);
    if SpanFits(fragments, start, end) {
      OverlayMarksSpan(fragments, start, end);
      hide AllPieces, Text, Cells, SpanFits, WithError;
      forall i | 0 <= i < |Text(fragments)| ensures Text(rendered)[i] == Text(fragments)[i] {
        assert Cells(rendered)[i].c == Cells(fragments)[i].c;
      }
      assert Text(rendered) == Text(fragments);
    }
  }

  lemma DropIsOneToken(keywords: set<string>, types: set<string>)
    ensures
      var fragments := [Fragment(StyleOf(keywords, types, "drop"), "drop")];
      Tokens(keywords, types, "drop", fragments) && Text(fragments) == "drop"
  {
    var line := "drop";
    var f := Fragment(StyleOf(keywords, types, line), line);
    assert EndsRun(line, 1, 4, InIdentifier);
    assert EndsToken(line, 0, 4);
    hide EndsToken, StyleOf;
    TextGrows([], f);
    assert [] + [f] == [f] && [f][..0] == [];
  }

  // An inverted span inside one token repeats characters: the span 3 to 1 of the line
  // `drop`, whatever the keywords and types are.
  lemma InvertedSpanRepeatsText(keywords: set<string>, types: set<string>, base: seq<Fragment>)
    requires Tokens(keywords, types, "drop", base) && Text(base) == "drop"
    ensures !SpanFits(base, 3, 1) && Text(AllPieces(base, 3, 1)) != "drop"
  {
    var fragments := [Fragment(StyleOf(keywords, types, "drop"), "drop")];
    DropIsOneToken(keywords, types);
    HighlightingIsDetermined(keywords, types, "drop", base, fragments);
    hide Tokens, StyleOf;
    assert fragments[..0] == [];
    assert Straddled(fragments[0], |Text(fragments[..0])|, 3, 1);
    OverlayKeepsTextExactlyWhenSpanFits(fragments, 3, 1);
  }

  // The loop over the fragments of a line.
  method Overlay(fragments: seq<Fragment>, start: int, end: int) returns (rendered: seq<Fragment>)
    ensures rendered == AllPieces(fragments, start, end)
  {
    rendered := [];
    var offset := 0;
    assert fragments[..0] == [];
    for k := 0 to |fragments|
      invariant offset == |Text(fragments[..k])|
      invariant rendered == AllPieces(fragments[..k], start, end)
    {
      var f := fragments[k];
      assert fragments[..k + 1][..k] == fragments[..k];
      var stop := offset + |f.text|;
      if stop <= start || offset >= end {
        rendered := rendered + [f];
      } else {
        var left: nat := if start - offset > 0 then start - offset else 0;
        var right: nat := if end - offset < |f.text| then end - offset else |f.text|;
        var pieces := [];
        if left > 0 {
          pieces := pieces + [Fragment(f.style, f.text[..left])];
        }
        pieces := pieces + [Fragment(WithError(f.style), Slice(f.text, left, right))];
        if right < |f.text| {
          pieces := pieces + [Fragment(f.style, f.text[right..])];
        }
        assert pieces == Pieces(f, offset, start, end);
        rendered := rendered + pieces;
      }
      offset := stop;
    }
    assert fragments[..|fragments|] == fragments;
  }

  datatype Span = Span(start: int, end: int)

  // One displayed line: its characters in their base styles, with the error style
  // added exactly inside the line's span, if it has one.
  method LineFragments(
      keywords: set<string>, types: set<string>, lines: seq<string>, spans: map<nat, Span>, lineno: nat)
    returns (rendered: seq<Fragment>, ghost base: seq<Fragment>)
    ensures lineno >= |lines| ==> rendered == []
    ensures lineno < |lines| ==> Text(base) == lines[lineno] && Tokens(keywords, types, lines[lineno], base)
    ensures lineno < |lines| && lineno !in spans ==> rendered == base
    ensures lineno < |lines| && lineno in spans ==>
      var span := spans[lineno];
      && (Text(rendered) == lines[lineno] <==> SpanFits(base, span.start, span.end))
      && (SpanFits(base, span.start, span.end) ==>
            Cells(rendered) == Marked(Cells(base), 0, span.start, span.end))
  {
    if lineno >= |lines| {
      return [], [];
    }
    var fragments := HighlightedFragments(keywords, types, lines[lineno]);
    base := fragments;
    if lineno !in spans {
      return fragments, base;
    }
    var span := spans[lineno];
    rendered := Overlay(fragments, span.start, span.end);
    OverlayKeepsTextExactlyWhenSpanFits(fragments, span.start, span.end);
    if SpanFits(fragments, span.start, span.end) {
      OverlayMarksSpan(fragments, span.start, span.end);
    }
  }
}
