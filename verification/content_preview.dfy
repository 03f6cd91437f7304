/**
 Content-type detection of the content preview: a text is shown as HTML when
 it holds a tag-like `<…>`, as Markdown when some line starts with Markdown
 syntax or the text holds `*` or `#` anywhere, and as HTML otherwise. An
 explicit content type bypasses detection.
 */
module ContentPreview {
  import opened Text

  datatype ContentKind = Markdown | Html

  /** The `contentType` setting: "auto" or an explicit kind. */
  datatype Setting = Auto | Explicit(kind: ContentKind)

  // ---- The HTML pattern `<[^>]+>` ----

  /** `<` at i, `>` at j, and at least one character, none of them `>`,
      between. */
  predicate HtmlTagAt(s: string, i: nat, j: nat) {
    && i + 1 < j < |s|
    && s[i] == '<' && s[j] == '>'
    && forall m :: i < m < j ==> s[m] != '>'
  }

  predicate HasHtmlTag(s: string) {
    exists i: nat, j: nat | i < |s| && j < |s| :: HtmlTagAt(s, i, j)
  }

  /** A `<` followed by at least one character and no `>` up to the end of s. */
  predicate OpenAt(s: string, i: nat) {
    && i + 1 < |s|
    && s[i] == '<'
    && forall m :: i < m < |s| ==> s[m] != '>'
  }

  predicate Pending(s: string) {
    exists i: nat | i < |s| :: OpenAt(s, i)
  }

  /** States of a left-to-right matcher for `<[^>]+>`. */
  datatype TagState = Idle | SawOpen | InTag | Found

  function Step(st: TagState, c: char): TagState {
    match st
    case Found => Found
    case InTag => if c == '>' then Found else InTag
    case SawOpen => if c == '>' then Idle else InTag
    case Idle => if c == '<' then SawOpen else Idle
  }

  /** The matcher's state after reading all of s. */
  function Run(s: string): TagState {
    if |s| == 0 then Idle else Step(Run(s[..|s| - 1]), s[|s| - 1])
  }

  /** `/<[^>]+>/.test(s)`. */
  predicate HtmlPatternTest(s: string) {
    Run(s) == Found
  }

  /** Extending the text by one character: a tag ending earlier is kept,
      and a tag ending at the new character is an open tag closed by `>`. */
  lemma TagSnocAt(s: string, c: char, i: nat, j: nat)
    ensures j < |s| ==> (HtmlTagAt(s + [c], i, j) <==> HtmlTagAt(s, i, j))
    ensures j == |s| ==> (HtmlTagAt(s + [c], i, j) <==> OpenAt(s, i) && c == '>')
  {
    var t := s + [c];
    assert forall m :: 0 <= m < |s| ==> t[m] == s[m];
    assert t[|s|] == c;
  }

  lemma OpenSnocAt(s: string, c: char, i: nat)
    ensures OpenAt(s + [c], i) <==>
            c != '>' && (OpenAt(s, i) || (i + 1 == |s| && s[i] == '<'))
  {
    var t := s + [c];
    assert forall m :: 0 <= m < |s| ==> t[m] == s[m];
    assert t[|s|] == c;
  }

  lemma HasTagSnoc(s: string, c: char)
    ensures HasHtmlTag(s + [c]) <==> HasHtmlTag(s) || (c == '>' && Pending(s))
  {
    var t := s + [c];
    if HasHtmlTag(t) {
      var i: nat, j: nat :| HtmlTagAt(t, i, j);
      assert HtmlTagAt(t, i, j);
      TagSnocAt(s, c, i, j);
      if j == |s| {
        assert i < |s| && OpenAt(s, i);
      } else {
        assert i < |s| && j < |s| && HtmlTagAt(s, i, j);
      }
    }
    if HasHtmlTag(s) {
      var i: nat, j: nat :| HtmlTagAt(s, i, j);
      assert HtmlTagAt(s, i, j);
      TagSnocAt(s, c, i, j);
      assert i < |t| && j < |t| && HtmlTagAt(t, i, j);
    }
    if c == '>' && Pending(s) {
      var i: nat :| OpenAt(s, i);
      assert OpenAt(s, i);
      TagSnocAt(s, c, i, |s|);
      assert i < |t| && |s| < |t| && HtmlTagAt(t, i, |s|);
    }
  }

  lemma PendingSnoc(s: string, c: char)
    ensures Pending(s + [c]) <==> c != '>' && (Pending(s) || (|s| > 0 && s[|s| - 1] == '<'))
  {
    var t := s + [c];
    if Pending(t) {
      var i: nat :| OpenAt(t, i);
      assert OpenAt(t, i);
      OpenSnocAt(s, c, i);
    }
    if c != '>' && Pending(s) {
      var i: nat :| OpenAt(s, i);
      assert OpenAt(s, i);
      OpenSnocAt(s, c, i);
    }
    if c != '>' && |s| > 0 && s[|s| - 1] == '<' {
      OpenSnocAt(s, c, |s| - 1);
    }
  }

  /** The matcher tracks the pattern: each state says which of "a tag was
      seen", "a tag is open" and "the last character opened one" holds. */
  lemma {:induction false} RunTracksPattern(s: string)
    ensures Run(s) == Found <==> HasHtmlTag(s)
    ensures Run(s) == InTag <==> !HasHtmlTag(s) && Pending(s)
    ensures Run(s) == SawOpen <==> !HasHtmlTag(s) && !Pending(s) && |s| > 0 && s[|s| - 1] == '<'
  {
    if |s| == 0 {
      assert !HasHtmlTag(s);
      assert !Pending(s);
    } else {
      var front := s[..|s| - 1];
      var c := s[|s| - 1];
      assert s == front + [c];
      RunTracksPattern(front);
      HasTagSnoc(front, c);
      PendingSnoc(front, c);
    }
  }

  /** The regular-expression test is the tag predicate. */
  lemma HtmlPatternTestIsHasHtmlTag(s: string)
    ensures HtmlPatternTest(s) <==> HasHtmlTag(s)
  {
    RunTracksPattern(s);
  }

  // ---- The multiline Markdown pattern ----

  /** Where `^` matches under the `m` flag. */
  predicate AtLineStart(s: string, i: nat) {
    i <= |s| && (i == 0 || IsLineTerminator(s[i - 1]))
  }

  predicate RunOf(s: string, i: nat, k: nat, c: char) {
    i + k <= |s| && forall m :: i <= m < i + k ==> s[m] == c
  }

  /** `#{1,6}\s`, with k hash marks. */
  predicate HashesThenSpace(s: string, i: nat, k: nat) {
    1 <= k <= 6 && i + k < |s| && RunOf(s, i, k, '#') && IsJsWhitespace(s[i + k])
  }

  predicate HeadingAt(s: string, i: nat) {
    exists k: nat | k <= 6 :: HashesThenSpace(s, i, k)
  }

  /** `\*\*`. */
  predicate DoubleStarAt(s: string, i: nat) {
    i + 2 <= |s| && s[i] == '*' && s[i + 1] == '*'
  }

  /** `\*(?!\*)`. */
  predicate SingleStarAt(s: string, i: nat) {
    i < |s| && s[i] == '*' && (i + 1 == |s| || s[i + 1] != '*')
  }

  /** `\-\s`. */
  predicate DashAt(s: string, i: nat) {
    i + 1 < |s| && s[i] == '-' && IsJsWhitespace(s[i + 1])
  }

  predicate DigitRun(s: string, i: nat, k: nat) {
    i + k <= |s| && forall m :: i <= m < i + k ==> IsDigit(s[m])
  }

  /** `\d+\.\s`, with k digits. */
  predicate DigitsThenDot(s: string, i: nat, k: nat) {
    k >= 1 && i + k + 1 < |s| && DigitRun(s, i, k) && s[i + k] == '.' && IsJsWhitespace(s[i + k + 1])
  }

  predicate NumberedAt(s: string, i: nat) {
    exists k: nat | k < |s| :: DigitsThenDot(s, i, k)
  }

  /** No line terminator in `s[from..to]`: what `.*` can span. */
  predicate SameLine(s: string, from: nat, to: nat) {
    from <= to <= |s| && forall m :: from <= m < to ==> !IsLineTerminator(s[m])
  }

  /** `\[.*\]\(.*\)` with `]` at j and `)` at k. */
  predicate LinkShape(s: string, i: nat, j: nat, k: nat) {
    && i < j && j + 1 < k < |s|
    && s[i] == '[' && s[j] == ']' && s[j + 1] == '(' && s[k] == ')'
    && SameLine(s, i + 1, j) && SameLine(s, j + 2, k)
  }

  predicate LinkAt(s: string, i: nat) {
    exists j: nat, k: nat | j < |s| && k < |s| :: LinkShape(s, i, j, k)
  }

  /** "`" three times. */
  predicate FenceAt(s: string, i: nat) {
    i + 3 <= |s| && s[i] == '`' && s[i + 1] == '`' && s[i + 2] == '`'
  }

  predicate QuoteAt(s: string, i: nat) {
    i < |s| && s[i] == '>'
  }

  /** One alternative of the Markdown pattern matches at i. */
  predicate MarkdownAt(s: string, i: nat) {
    && AtLineStart(s, i)
    && (|| HeadingAt(s, i) || DoubleStarAt(s, i) || SingleStarAt(s, i) || DashAt(s, i)
        || NumberedAt(s, i) || LinkAt(s, i) || FenceAt(s, i) || QuoteAt(s, i))
  }

  /** `markdownPattern.test(s)`. */
  predicate MarkdownPatternTest(s: string) {
    exists i: nat | i <= |s| :: MarkdownAt(s, i)
  }

  /** A character that can open one of the pattern's alternatives. */
  predicate IsMarkdownMarker(c: char) {
    c == '#' || c == '*' || c == '-' || IsDigit(c) || c == '[' || c == '`' || c == '>'
  }

  /** The pattern only looks at line starts: it matches only when some line
      begins with a marker character. */
  lemma MarkdownPatternNeedsMarker(s: string)
    ensures MarkdownPatternTest(s) ==>
              exists i :: 0 <= i < |s| && AtLineStart(s, i) && IsMarkdownMarker(s[i])
  {
    if MarkdownPatternTest(s) {
      var i: nat :| i <= |s| && MarkdownAt(s, i);
      if HeadingAt(s, i) {
        var k: nat :| k <= 6 && HashesThenSpace(s, i, k);
        assert s[i] == '#';
      } else if NumberedAt(s, i) {
        var k: nat :| k < |s| && DigitsThenDot(s, i, k);
        assert IsDigit(s[i]);
      } else if LinkAt(s, i) {
        var j: nat, k: nat :| j < |s| && k < |s| && LinkShape(s, i, j, k);
        assert s[i] == '[';
      }
      assert i < |s| && IsMarkdownMarker(s[i]);
    }
  }

  /** detectContentType. */
  function DetectContentType(content: string): (kind: ContentKind)
    ensures HasHtmlTag(content) ==> kind == Html
    ensures content == "" ==> kind == Html
  {
    HtmlPatternTestIsHasHtmlTag(content);
    if HtmlPatternTest(content) then Html
    else if MarkdownPatternTest(content) then Markdown
    else if Includes(content, "**") || Includes(content, "*") || Includes(content, "#") then Markdown
    else Html
  }

  /** `s.includes(c)` for a one-character string is membership. */
  lemma IncludesChar(s: string, c: char)
    ensures Includes(s, [c]) <==> c in s
  {
    if c in s {
      var i :| 0 <= i < |s| && s[i] == c;
      assert OccursAt(s, [c], i);
    }
    if Includes(s, [c]) {
      var i :| 0 <= i <= |s| && OccursAt(s, [c], i);
      assert s[i] == s[i..i + 1][0];
    }
  }

  /** Markdown line starts other than a heading or a star. */
  predicate OtherMarkdownLine(s: string) {
    exists i: nat | i <= |s| :: AtLineStart(s, i) && (DashAt(s, i) || NumberedAt(s, i) || LinkAt(s, i) || FenceAt(s, i) || QuoteAt(s, i))
  }

  /** Without a tag, a text is Markdown exactly when it holds `*` or `#`, or
      some line starts with a list dash, a numbered item, a link, a fence or a
      quote. */
  lemma MarkdownIff(content: string)
    ensures DetectContentType(content) == Markdown <==>
            !HasHtmlTag(content) && ('*' in content || '#' in content || OtherMarkdownLine(content))
  {
    HtmlPatternTestIsHasHtmlTag(content);
    IncludesChar(content, '*');
    IncludesChar(content, '#');
    if Includes(content, "**") {
      var i :| 0 <= i <= |content| && OccursAt(content, "**", i);
      assert content[i] == "**"[0];
    }
    if MarkdownPatternTest(content) {
      var i: nat :| MarkdownAt(content, i);
      if HeadingAt(content, i) {
        var k: nat :| HashesThenSpace(content, i, k);
        assert content[i] == '#';
      }
    }
    if OtherMarkdownLine(content) {
      var i: nat :| AtLineStart(content, i) && (DashAt(content, i) || NumberedAt(content, i) || LinkAt(content, i) || FenceAt(content, i) || QuoteAt(content, i));
      assert MarkdownAt(content, i);
    }
  }

  /** A tag wins over any Markdown syntax. */
  lemma TagWins(content: string)
    requires HasHtmlTag(content)
    ensures DetectContentType(content) == Html
  {
  }

  /** The kind the preview uses: detection only for "auto". */
  function DetectedType(setting: Setting, content: string): (kind: ContentKind)
    ensures setting.Explicit? ==> kind == setting.kind
    ensures setting == Auto ==> kind == DetectContentType(content)
  {
    match setting
    case Auto => DetectContentType(content)
    case Explicit(k) => k
  }

  /** Without `<` there is no tag. */
  lemma NoAngleNoTag(s: string)
    requires '<' !in s
    ensures !HasHtmlTag(s)
  {
    forall i: nat, j: nat | i < |s| && j < |s|
      ensures !HtmlTagAt(s, i, j)
    {
      assert s[i] in s;
    }
  }

  /** A numbered list item is Markdown even without `*` or `#`. */
  lemma NumberedItemIsMarkdown()
    ensures DetectContentType("1. item") == Markdown
  {
    NoAngleNoTag("1. item");
    HtmlPatternTestIsHasHtmlTag("1. item");
    assert DigitsThenDot("1. item", 0, 1);
    assert MarkdownAt("1. item", 0);
  }

  /** Comparison signs around text read as a tag. */
  lemma ComparisonReadsAsTag()
    ensures DetectContentType("a < b > c") == Html
  {
    assert HtmlTagAt("a < b > c", 2, 6);
  }

  /** Text without any Markdown syntax is HTML. */
  lemma PlainTextIsHtml()
    ensures DetectContentType("plain text") == Html
  {
    var plain := "plain text";
    NoAngleNoTag(plain);
    MarkdownIff(plain);
    forall i: nat | i <= |plain| && AtLineStart(plain, i)
      ensures i == 0
    {
    }
    assert !NumberedAt(plain, 0);
    assert !LinkAt(plain, 0);
    assert !OtherMarkdownLine(plain);
  }
}
