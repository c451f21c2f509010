/** The non-rendering logic of the code editor component: appending a log
    entry to a copied array, formatting a logged value, dropping highlight
    marker lines, and choosing an editor from the code block's class name. */
module CodeEditor {
  import opened JsValue

  // ---------------------------------------------------------------------
  // shallowConcat

  /** The first argument of `shallowConcat`: an array object, or any value
      that is not an array. */
  datatype LogsArg = ArrayRef(a: array<Value>) | NonArray(v: NonArrayValue)

  /** `shallowConcat(targetArr, item)`: a non-array comes back unchanged;
      an array is copied (`slice`) and `item` pushed onto the copy. */
  method ShallowConcat(target: LogsArg, item: Value) returns (r: LogsArg)
    ensures target.NonArray? ==> r == target
    ensures target.ArrayRef? ==>
      && r.ArrayRef? && fresh(r.a)
      && r.a[..] == target.a[..] + [item]
  {
    if target.NonArray? {
      return target;
    }
    var source := target.a;
    var copy := new Value[source.Length + 1];
    var i := 0;
    while i < source.Length
      invariant 0 <= i <= source.Length
      invariant copy[..i] == source[..i]
    {
      copy[i] := source[i];
      i := i + 1;
    }
    copy[source.Length] := item;
    assert copy[..] == copy[..source.Length] + [item];
    r := ArrayRef(copy);
  }

  // ---------------------------------------------------------------------
  // Highlight markers and rendered lines

  /** A syntax token of a highlighted line. */
  datatype Token = Token(types: seq<string>, content: string)

  const HighlightMarker: string := "// highlight-next-line"

  /** `token.types[0] === 'comment' && token.content === '// highlight-next-line'` */
  predicate IsMarkerToken(t: Token) {
    |t.types| > 0 && t.types[0] == "comment" && t.content == HighlightMarker
  }

  /** `tokens.some(...)`: scans the tokens from the left for a marker. */
  predicate SomeMarker(tokens: seq<Token>)
    ensures SomeMarker(tokens) <==> exists i :: 0 <= i < |tokens| && IsMarkerToken(tokens[i])
  {
    tokens != [] && (IsMarkerToken(tokens[0]) || SomeMarker(tokens[1..]))
  }

  /** `isHighlightNextLine(tokens)`; `None` stands for a missing line
      (`allLines[index - 1]` at index 0 is undefined). */
  predicate IsHighlightNextLine(tokens: Option<seq<Token>>)
    ensures IsHighlightNextLine(tokens) <==>
      tokens.Some? && exists i :: 0 <= i < |tokens.value| && IsMarkerToken(tokens.value[i])
  {
    tokens.Some? && SomeMarker(tokens.value)
  }

  predicate IsMarkerLine(line: seq<Token>) {
    IsHighlightNextLine(Some(line))
  }

  datatype RenderedLine = RenderedLine(line: seq<Token>, isHighlighted: bool)

  /** The first `map`: every line, highlighted when the line before it is a marker. */
  function Annotate(lines: seq<seq<Token>>): (r: seq<RenderedLine>)
    ensures |r| == |lines|
    ensures |lines| > 0 ==> !r[0].isHighlighted
  {
    var r := seq(|lines|, i requires 0 <= i < |lines| =>
      RenderedLine(lines[i], IsHighlightNextLine(if i == 0 then None else Some(lines[i - 1]))));
    assert |lines| > 0 ==> r[0] == RenderedLine(lines[0], IsHighlightNextLine(None));
    r
  }

  /** The `filter`: drop the marker lines, keep the rest in order. */
  function DropMarkerLines(annotated: seq<RenderedLine>): (r: seq<RenderedLine>)
    ensures |r| <= |annotated|
  {
    if annotated == [] then []
    else
      var last := annotated[|annotated| - 1];
      DropMarkerLines(annotated[..|annotated| - 1]) + (if IsMarkerLine(last.line) then [] else [last])
  }

  /** The filter keeps exactly the entries whose line is not a marker. */
  lemma {:induction false} DropMarkerLinesMembers(annotated: seq<RenderedLine>)
    ensures forall x :: x in DropMarkerLines(annotated) <==> x in annotated && !IsMarkerLine(x.line)
  {
    if annotated != [] {
      var init := annotated[..|annotated| - 1];
      DropMarkerLinesMembers(init);
      assert annotated == init + [annotated[|annotated| - 1]];
    }
  }

  /** The lines the snippet renders. */
  function RenderLines(lines: seq<seq<Token>>): (r: seq<RenderedLine>)
    ensures |r| <= |lines|
  {
    DropMarkerLines(Annotate(lines))
  }

  /** Number of marker lines. */
  function MarkerCount(lines: seq<seq<Token>>): (n: nat)
    ensures n <= |lines|
  {
    if lines == [] then 0
    else MarkerCount(lines[..|lines| - 1]) + (if IsMarkerLine(lines[|lines| - 1]) then 1 else 0)
  }

  /** No line is counted exactly when no line is a marker. */
  lemma {:induction false} MarkerCountZero(lines: seq<seq<Token>>)
    ensures MarkerCount(lines) == 0 <==> forall i :: 0 <= i < |lines| ==> !IsMarkerLine(lines[i])
  {
    if lines != [] {
      var init := lines[..|lines| - 1];
      MarkerCountZero(init);
      assert forall i :: 0 <= i < |init| ==> init[i] == lines[i];
    }
  }

  /** Rendering a longer prefix adds at most the new line. */
  lemma RenderLinesStep(lines: seq<seq<Token>>, i: nat)
    requires i < |lines|
    ensures RenderLines(lines[..i + 1]) == RenderLines(lines[..i]) +
      (if IsMarkerLine(lines[i]) then []
       else [RenderedLine(lines[i], i > 0 && IsMarkerLine(lines[i - 1]))])
  {
    var a := Annotate(lines[..i + 1]);
    assert a[..i] == Annotate(lines[..i]);
    if i == 0 {
      assert !IsHighlightNextLine(None);
    } else {
      assert lines[..i + 1][i - 1] == lines[i - 1];
    }
    assert a[i] == RenderedLine(lines[i], i > 0 && IsMarkerLine(lines[i - 1]));
    assert a[..|a| - 1] == a[..i];
  }

  /** The rendered lines are the non-marker lines in their original order:
      line `i` lands at `i` minus the markers before it, highlighted exactly
      when the line before it in the original is a marker. */
  lemma {:induction false} RenderedLinePosition(lines: seq<seq<Token>>, n: nat, i: nat)
    requires i < n <= |lines| && !IsMarkerLine(lines[i])
    ensures |RenderLines(lines[..n])| == n - MarkerCount(lines[..n])
    ensures i - MarkerCount(lines[..i]) < |RenderLines(lines[..n])|
    ensures RenderLines(lines[..n])[i - MarkerCount(lines[..i])]
         == RenderedLine(lines[i], i > 0 && IsMarkerLine(lines[i - 1]))
  {
    RenderLinesStep(lines, n - 1);
    assert lines[..n][..n - 1] == lines[..n - 1];
    if i < n - 1 {
      RenderedLinePosition(lines, n - 1, i);
    } else {
      RenderedLength(lines, n - 1);
    }
  }

  lemma {:induction false} RenderedLength(lines: seq<seq<Token>>, n: nat)
    requires n <= |lines|
    ensures |RenderLines(lines[..n])| == n - MarkerCount(lines[..n])
  {
    if n > 0 {
      RenderLinesStep(lines, n - 1);
      assert lines[..n][..n - 1] == lines[..n - 1];
      RenderedLength(lines, n - 1);
    }
  }

  /** No marker line is rendered. */
  lemma {:induction false} NoMarkerRendered(lines: seq<seq<Token>>, n: nat, j: nat)
    requires n <= |lines| && j < |RenderLines(lines[..n])|
    ensures !IsMarkerLine(RenderLines(lines[..n])[j].line)
  {
    RenderLinesStep(lines, n - 1);
    if j < |RenderLines(lines[..n - 1])| {
      NoMarkerRendered(lines, n - 1, j);
    }
  }

  /** The first line is never highlighted. */
  lemma FirstLineNotHighlighted(lines: seq<seq<Token>>)
    requires |lines| > 0 && !IsMarkerLine(lines[0])
    ensures |RenderLines(lines)| > 0 && RenderLines(lines)[0] == RenderedLine(lines[0], false)
  {
    RenderedLinePosition(lines, |lines|, 0);
    assert lines[..|lines|] == lines;
  }

  // ---------------------------------------------------------------------
  // sanitize

  /** `Error.prototype.toString`. */
  function ErrorText(name: string, message: string): (t: string)
    ensures name != "" && message != "" ==> t == name + ": " + message
    ensures name == "" || message == "" ==> t == name + message
  {
    if name == "" then message else if message == "" then name else name + ": " + message
  }

  /** How `Array.prototype.join` prints one element that `Sanitize` returned. */
  function JoinText(v: Value): (t: string)
    requires v.IsPrimitive()
    ensures v.Str? ==> t == v.s
    ensures v.Undefined? || v.Null? ==> t == ""
  {
    match v
    case Undefined => ""
    case Null => ""
    case Bool(b) => if b then "true" else "false"
    case Num(n) => NumberText(n)
    case Str(s) => s
  }

  /** `parts.join(',')`. */
  function JoinComma(parts: seq<string>): (r: string)
    ensures parts == [] ==> r == ""
    ensures |parts| == 1 ==> r == parts[0]
    ensures |parts| > 1 ==>
      var p := JoinComma(parts[..|parts| - 1]);
      && |r| == |p| + 1 + |parts[|parts| - 1]|
      && r[..|p|] == p && r[|p|] == ',' && r[|p| + 1..] == parts[|parts| - 1]
  {
    if parts == [] then ""
    else if |parts| == 1 then parts[0]
    else JoinComma(parts[..|parts| - 1]) + "," + parts[|parts| - 1]
  }

  /** `sanitize(data)`, with `JSON.stringify(data, null, 2)` as `stringify`. */
  function Sanitize(v: Value, stringify: Value -> string): (r: Value)
    ensures r.IsPrimitive() && !r.Null?
    ensures v.Arr? ==> r.Str? && |r.s| >= 2 && r.s[0] == '[' && r.s[|r.s| - 1] == ']'
    ensures !v.Str? && r.Str? ==> !v.IsPrimitive() || v.Null?
    ensures v.Undefined? || v.Bool? || v.Num? ==> r == v
    ensures v.Str? ==> r == Str("\"" + v.s + "\"")
    ensures v.Str? ==> r.Str? && |r.s| == |v.s| + 2 && r.s[1..|r.s| - 1] == v.s
    ensures v.Null? || v.Obj? || v.Buffer? ==> r == Str(stringify(v))
    ensures v.Error? ==> r == Str(ErrorText(v.name, v.message))
    decreases v
  {
    match v
    case Arr(elems) =>
      var parts := seq(|elems|, i requires 0 <= i < |elems| => JoinText(Sanitize(elems[i], stringify)));
      Str("[" + JoinComma(parts) + "]")
    case Error(name, message) => Str(ErrorText(name, message))
    case Null => Str(stringify(v))
    case Buffer(_) => Str(stringify(v))
    case Obj(_) => Str(stringify(v))
    case Str(s) => Str("\"" + s + "\"")
    case _ => v
  }

  /** The text between the brackets of a sanitised array. */
  function SanitizedItems(elems: seq<Value>, stringify: Value -> string): string {
    JoinComma(seq(|elems|, i requires 0 <= i < |elems| => JoinText(Sanitize(elems[i], stringify))))
  }

  /** A sanitised array lists its sanitised elements, comma-separated, in order. */
  lemma SanitizeArrayAppend(elems: seq<Value>, x: Value, stringify: Value -> string)
    ensures Sanitize(Arr(elems), stringify) == Str("[" + SanitizedItems(elems, stringify) + "]")
    ensures SanitizedItems(elems + [x], stringify)
         == (if elems == [] then "" else SanitizedItems(elems, stringify) + ",") + JoinText(Sanitize(x, stringify))
  {
    var all := elems + [x];
    var parts := seq(|all|, i requires 0 <= i < |all| => JoinText(Sanitize(all[i], stringify)));
    var init := seq(|elems|, i requires 0 <= i < |elems| => JoinText(Sanitize(elems[i], stringify)));
    assert parts[..|parts| - 1] == init;
  }

  lemma SanitizedSingle(x: Value, stringify: Value -> string)
    ensures SanitizedItems([x], stringify) == JoinText(Sanitize(x, stringify))
  {
    SanitizeArrayAppend([], x, stringify);
    assert [] + [x] == [x];
  }

  lemma SanitizedPair(x: Value, y: Value, stringify: Value -> string)
    ensures SanitizedItems([x, y], stringify) == JoinText(Sanitize(x, stringify)) + "," + JoinText(Sanitize(y, stringify))
  {
    SanitizedSingle(x, stringify);
    SanitizeArrayAppend([x], y, stringify);
    assert [x] + [y] == [x, y];
  }

  /** A one-string array prints its string quoted, between brackets. */
  lemma SanitizedOneString(t: string, stringify: Value -> string)
    ensures Sanitize(Arr([Str(t)]), stringify) == Str("[" + ("\"" + t + "\"") + "]")
  {
    SanitizeArrayAppend([Str(t)], Undefined, stringify);
    SanitizedSingle(Str(t), stringify);
  }

  /** A two-string array prints both strings quoted, comma-separated. */
  lemma SanitizedTwoStrings(t: string, u: string, stringify: Value -> string)
    ensures Sanitize(Arr([Str(t), Str(u)]), stringify) == Str("[" + (("\"" + t + "\"") + "," + ("\"" + u + "\"")) + "]")
  {
    SanitizeArrayAppend([Str(t), Str(u)], Undefined, stringify);
    SanitizedPair(Str(t), Str(u), stringify);
  }

  /** Strings are quoted without escaping, so two different arrays can
      print the same: the formatter is not injective. */
  lemma SanitizeDoesNotEscape(stringify: Value -> string)
    ensures Sanitize(Arr([Str("a\",\"b")]), stringify) == Sanitize(Arr([Str("a"), Str("b")]), stringify)
  {
    SanitizedOneString("a\",\"b", stringify);
    SanitizedTwoStrings("a", "b", stringify);
    assert "\"" + "a\",\"b" + "\"" == ("\"" + "a" + "\"") + "," + ("\"" + "b" + "\"");
  }

  // ---------------------------------------------------------------------
  // Language dispatch

  /** `s.split('-').pop()`: the text after the last '-'. */
  function LastSegment(s: string): (r: string)
    ensures '-' !in r
    ensures |r| <= |s| && s[|s| - |r|..] == r
    ensures |r| < |s| ==> s[|s| - |r| - 1] == '-'
  {
    if s == [] then []
    else if s[|s| - 1] == '-' then []
    else LastSegment(s[..|s| - 1]) + [s[|s| - 1]]
  }

  /** `className && className.split('-').pop()`; `None` is undefined. An
      empty class name yields itself, which is also its last segment. */
  function Language(className: Option<string>): (r: Option<string>)
    ensures r.Some? <==> className.Some?
    ensures r.Some? ==> '-' !in r.value
  {
    match className
    case None => None
    case Some(c) => Some(LastSegment(c))
  }

  datatype Renderer = LiveEditor | Snippet(language: string) | PlainCode

  /** `CodeEditor`'s choice: the live editor for 'js', a highlighted snippet
      for any other truthy language, plain code otherwise. */
  function ChooseRenderer(className: Option<string>): (r: Renderer)
    ensures r.Snippet? ==>
      && className.Some? && r.language == LastSegment(className.value)
      && r.language != "" && r.language != "js"
  {
    var language := Language(className);
    if language == Some("js") then LiveEditor
    else if language.Some? && language.value != "" then Snippet(language.value)
    else PlainCode
  }

  /** A shorter last segment is preceded by the '-' it was split at. */
  lemma DashBeforeLastSegment(s: string)
    requires |LastSegment(s)| < |s|
    ensures s[|s| - |LastSegment(s)| - 1..] == ['-'] + LastSegment(s)
  {
    var n := |s| - |LastSegment(s)| - 1;
    assert s[n..] == [s[n]] + s[n + 1..];
  }

  /** After a '-' that no later '-' follows comes exactly the last segment. */
  lemma {:induction false} LastSegmentAfterDash(s: string, k: nat)
    requires k < |s| && s[k] == '-' && '-' !in s[k + 1..]
    ensures LastSegment(s) == s[k + 1..]
  {
    if k < |s| - 1 {
      var init := s[..|s| - 1];
      assert s[|s| - 1] == s[k + 1..][|s| - k - 2];
      assert init[k + 1..] == s[k + 1..|s| - 1];
      LastSegmentAfterDash(init, k);
      assert s[k + 1..] == init[k + 1..] + [s[|s| - 1]];
    }
  }

  /** A name ending in `-js` has the last segment `js`. */
  lemma LastSegmentOfJsSuffix(c: string)
    requires |c| >= 3 && c[|c| - 3..] == "-js"
    ensures LastSegment(c) == "js"
  {
    var k := |c| - 3;
    assert c[k] == c[k..][0] == '-';
    assert c[k + 1..] == c[k..][1..] == "js";
    LastSegmentAfterDash(c, k);
  }

  lemma EndsInDashJs(c: string)
    requires LastSegment(c) == "js" && |c| > 2
    ensures c[|c| - 3..] == "-js"
  {
    DashBeforeLastSegment(c);
  }

  /** A name other than `js` whose last segment is `js` ends in `-js`. */
  lemma JsSuffixOfLastSegment(c: string)
    requires LastSegment(c) == "js" && c != "js"
    ensures |c| >= 3 && c[|c| - 3..] == "-js"
  {
    assert |c| > 2;
    EndsInDashJs(c);
  }

  /** The live editor is chosen exactly for `js` and class names ending in `-js`. */
  lemma LiveEditorIffJs(c: string)
    ensures ChooseRenderer(Some(c)) == LiveEditor <==> c == "js" || (|c| >= 3 && c[|c| - 3..] == "-js")
  {
    if |c| >= 3 && c[|c| - 3..] == "-js" {
      LastSegmentOfJsSuffix(c);
    }
    if LastSegment(c) == "js" && c != "js" {
      JsSuffixOfLastSegment(c);
    }
  }

  /** A snippet is chosen exactly for a last segment other than '' and 'js',
      and it is highlighted as that segment. */
  lemma SnippetIffOtherLanguage(c: string, language: string)
    ensures ChooseRenderer(Some(c)) == Snippet(language) <==>
      language == LastSegment(c) && language != "" && language != "js"
  {
  }

  /** Plain code is chosen exactly when there is no class name, or it is
      empty or ends with '-'. */
  lemma PlainCodeIffNoLanguage(className: Option<string>)
    ensures ChooseRenderer(className) == PlainCode <==>
      className.None? || className.value == "" || className.value[|className.value| - 1] == '-'
  {
    if className.Some? && className.value != "" {
      var c := className.value;
      var r := LastSegment(c);
      if c[|c| - 1] != '-' {
        assert r != [];
      }
    }
  }
}
