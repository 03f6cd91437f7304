/**
 The logic of the chat mention input: the codec that stores a mention as an
 array of strings inside the editor, the arrow-key clamp of the suggestion
 list, and the partition of a suggestion label into highlighted and plain
 parts for a typed query.
 */
module ChatMention {
  import opened Wrappers
  import opened Text

  /** A field of a mention; None is a missing (undefined or null) value. */
  type Field = Option<string>

  datatype Mention =
    | Tool(name: Field, serverName: Field, serverId: Field)
    | McpServer(name: Field, serverId: Field)
    | Other(kind: string, name: Field)

  const ToolKind: string := "tool"
  const ServerKind: string := "mcpServer"
  const UnknownKind: string := "unknown"

  /** A mention of the declared union: `Other` never carries one of the two
      named kinds. */
  predicate WellFormed(m: Mention) {
    m.Other? ==> m.kind != ToolKind && m.kind != ServerKind
  }

  /** encodeMentionItem, as the array before it is turned into JSON text. */
  function Encode(m: Mention): (arr: seq<Field>)
    ensures |arr| >= 1
    ensures m.Tool? ==> arr == [Some(ToolKind), m.name, Some(m.serverName.GetOr("")), m.serverId]
    ensures m.McpServer? ==> arr == [Some(ServerKind), m.name, m.serverId]
    ensures m.Other? ==> arr == [Some(m.kind)]
  {
    match m
    case Tool(name, serverName, serverId) =>
      [Some(ToolKind), name, Some(if serverName.Some? && serverName.value != "" then serverName.value else ""), serverId]
    case McpServer(name, serverId) => [Some(ServerKind), name, serverId]
    case Other(kind, _) => [Some(kind)]
  }

  /** `arr[i]`, undefined past the end. */
  function Entry(arr: seq<Field>, i: nat): (f: Field)
    ensures i >= |arr| ==> f.None?
  {
    if i < |arr| then arr[i] else None
  }

  /** decodeMentionItem, on the parsed array. */
  function Decode(arr: seq<Field>): (m: Mention)
    ensures Entry(arr, 0) == Some(ToolKind) <==> m.Tool?
    ensures Entry(arr, 0) == Some(ServerKind) <==> m.McpServer?
    ensures m.Other? ==> m.kind == UnknownKind && m.name == Entry(arr, 1)
    ensures m.Tool? ==> m == Tool(Entry(arr, 1), Entry(arr, 2), Entry(arr, 3))
    ensures m.McpServer? ==> m == McpServer(Entry(arr, 1), Entry(arr, 2))
  {
    var kind := Entry(arr, 0);
    if kind == Some(ToolKind) then Tool(Entry(arr, 1), Entry(arr, 2), Entry(arr, 3))
    else if kind == Some(ServerKind) then McpServer(Entry(arr, 1), Entry(arr, 2))
    else Other(UnknownKind, Entry(arr, 1))
  }

  /** Server mentions, and tool mentions with a server name, survive the
      round trip exactly. */
  lemma RoundTrip(m: Mention)
    requires m.McpServer? || (m.Tool? && m.serverName.Some?)
    ensures Decode(Encode(m)) == m
  {
  }

  /** A tool mention without a server name comes back with the empty one. */
  lemma MissingServerNameBecomesEmpty(m: Mention)
    requires m.Tool? && m.serverName.None?
    ensures Decode(Encode(m)) == m.(serverName := Some(""))
  {
  }

  /** Any other mention loses its kind and its name. */
  lemma OtherLosesName(m: Mention)
    requires m.Other? && WellFormed(m)
    ensures Decode(Encode(m)) == Other(UnknownKind, None)
  {
    assert Encode(m) == [Some(m.kind)];
  }

  /** Encoding after decoding is stable: a decoded mention is a fixed point of
      the round trip, except that a tool's missing server name becomes "". */
  lemma {:induction false} DecodedIsStable(arr: seq<Field>)
    ensures var m := Decode(arr);
            Decode(Encode(m)) == (if m.Tool? && m.serverName.None? then m.(serverName := Some("")) else if m.Other? then Other(UnknownKind, None) else m)
  {
    var m := Decode(arr);
    if m.Other? {
      assert Encode(m) == [Some(UnknownKind)];
    }
  }

  /** The arrow-key handler: one step up or down, clamped to the list. */
  function MoveSelection(selected: int, up: bool, count: nat): (r: int)
    ensures count == 0 ==> r == 0
    ensures count > 0 ==> 0 <= r < count
    ensures var next := if up then selected - 1 else selected + 1;
            0 <= next < count ==> r == next
    ensures var next := if up then selected - 1 else selected + 1;
            next < 0 ==> r == 0
    ensures var next := if up then selected - 1 else selected + 1;
            count > 0 && next >= count ==> r == count - 1
  {
    var next := selected + (if up then -1 else 1);
    Max(0, Min(next, count - 1))
  }

  function Max(a: int, b: int): int { if a >= b then a else b }
  function Min(a: int, b: int): int { if a <= b then a else b }

  /** Pressing Down k times from the top stops at the last item. */
  function PressDown(selected: int, count: nat, k: nat): int
    decreases k
  {
    if k == 0 then selected else PressDown(MoveSelection(selected, false, count), count, k - 1)
  }

  lemma {:induction false} PressDownSaturates(count: nat, start: nat, k: nat)
    requires start < count
    ensures PressDown(start, count, k) == Min(start + k, count - 1)
    decreases k
  {
    if k > 0 {
      PressDownSaturates(count, MoveSelection(start, false, count), k - 1);
    }
  }

  /** `query.toLowerCase().replace(/[^\w]/g, "")`. */
  function CleanQuery(query: string): (r: string)
    ensures forall c :: c in r <==> exists i :: 0 <= i < |query| && ToLower(query[i]) == c && IsWordChar(c)
  {
    if |query| == 0 then ""
    else
      var rest := CleanQuery(query[1..]);
      var c := ToLower(query[0]);
      assert forall i :: 0 < i < |query| ==> query[1..][i - 1] == query[i];
      if IsWordChar(c) then [c] + rest else rest
  }

  /** `[...new Set(s)].join("")`: the characters of `s`, each once, in order of
      first appearance. */
  function Unique(s: string): (r: string)
    ensures forall c :: c in r <==> c in s
  {
    if |s| == 0 then ""
    else
      var rest := Unique(s[..|s| - 1]);
      var c := s[|s| - 1];
      assert s == s[..|s| - 1] + [c];
      if c in rest then rest else rest + [c]
  }

  /** `uniqueChars.toLowerCase()`: the characters a text character is
      compared against. */
  function QueryKeys(query: string): string {
    Lower(Unique(CleanQuery(query)))
  }

  /** The highlight test: the character, lower-cased, is among the keys. */
  predicate IsMatch(c: char, keys: string) {
    ToLower(c) in keys
  }

  /** There are keys exactly when the cleaned query is non-empty. */
  lemma QueryKeysEmpty(query: string)
    ensures QueryKeys(query) == "" <==> Unique(CleanQuery(query)) == ""
  {
  }

  /** A text character is highlighted exactly when, lower-cased, it is a word
      character the query holds in either case. */
  lemma IsMatchIffInQuery(c: char, query: string)
    ensures IsMatch(c, QueryKeys(query)) <==>
            exists i :: 0 <= i < |query| && ToLower(query[i]) == ToLower(c) && IsWordChar(ToLower(c))
  {
    var unique := Unique(CleanQuery(query));
    forall x | x in unique
      ensures ToLower(x) == x
    {
    }
    if IsMatch(c, QueryKeys(query)) {
      var k :| 0 <= k < |unique| && Lower(unique)[k] == ToLower(c);
      assert unique[k] in unique;
    }
    if exists i :: 0 <= i < |query| && ToLower(query[i]) == ToLower(c) && IsWordChar(ToLower(c)) {
      assert ToLower(c) in unique;
      var k :| 0 <= k < |unique| && unique[k] == ToLower(c);
      assert Lower(unique)[k] == ToLower(c);
    }
  }

  datatype Part = Part(text: string, highlight: bool)

  /** The texts of the parts, joined. */
  function Concat(parts: seq<Part>): string {
    if |parts| == 0 then "" else Concat(parts[..|parts| - 1]) + parts[|parts| - 1].text
  }

  lemma ConcatSnoc(parts: seq<Part>, p: Part)
    ensures Concat(parts + [p]) == Concat(parts) + p.text
  {
    assert (parts + [p])[..|parts|] == parts;
  }

  /** Appending a good part that does not follow a plain part with a plain one
      keeps the partition good and maximal. */
  lemma Push(parts: seq<Part>, p: Part, keys: string)
    requires GoodParts(parts, keys) && RunsMaximal(parts) && GoodPart(p, keys)
    requires parts == [] || parts[|parts| - 1].highlight || p.highlight
    ensures GoodParts(parts + [p], keys) && RunsMaximal(parts + [p])
    ensures Concat(parts + [p]) == Concat(parts) + p.text
  {
    ConcatSnoc(parts, p);
    var t := parts + [p];
    forall k | 0 <= k < |t|
      ensures GoodPart(t[k], keys)
    {
      if k < |parts| {
        assert t[k] == parts[k];
      }
    }
    forall k | 0 <= k < |t| - 1
      ensures t[k].highlight || t[k + 1].highlight
    {
      if k + 1 < |parts| {
        assert t[k] == parts[k] && t[k + 1] == parts[k + 1];
      } else {
        assert t[k] == parts[|parts| - 1] && t[k + 1] == p;
      }
    }
  }

  predicate NoMatchIn(s: string, keys: string) {
    forall k :: 0 <= k < |s| ==> !IsMatch(s[k], keys)
  }

  /** A highlighted part is one matching character; a plain part is a
      non-empty run of non-matching characters. */
  predicate GoodPart(p: Part, keys: string) {
    if p.highlight then |p.text| == 1 && IsMatch(p.text[0], keys)
    else p.text != "" && NoMatchIn(p.text, keys)
  }

  predicate GoodParts(parts: seq<Part>, keys: string) {
    forall k :: 0 <= k < |parts| ==> GoodPart(parts[k], keys)
  }

  /** No two plain parts are adjacent: every plain run is maximal. */
  predicate RunsMaximal(parts: seq<Part>) {
    forall k :: 0 <= k < |parts| - 1 ==> parts[k].highlight || parts[k + 1].highlight
  }

  /** textParts of HighlightText. */
  method TextParts(text: string, query: string) returns (parts: seq<Part>)
    ensures Concat(parts) == text
    ensures Unique(CleanQuery(query)) == "" ==> parts == [Part(text, false)]
    ensures Unique(CleanQuery(query)) != "" ==> GoodParts(parts, QueryKeys(query))
    ensures RunsMaximal(parts)
  {
    if Unique(CleanQuery(query)) == "" {
      assert Concat([Part(text, false)]) == Concat([]) + text;
      parts := [Part(text, false)];
    } else {
      parts := Partition(text, QueryKeys(query));
    }
  }

  /** The scan of textParts for a non-empty set of query characters. */
  method Partition(text: string, keys: string) returns (parts: seq<Part>)
    ensures Concat(parts) == text
    ensures GoodParts(parts, keys) && RunsMaximal(parts)
  {
    parts := [];
    var last := 0;
    var i := 0;
    while i < |text|
      invariant ScanState(text, keys, parts, last, i)
      decreases |text| - i
    {
      if IsMatch(text[i], keys) {
        MatchStep(text, keys, parts, last, i);
        parts := parts + Flush(text, last, i) + [Part([text[i]], true)];
        last := i + 1;
      } else {
        NoMatchStep(text, keys, parts, last, i);
      }
      i := i + 1;
    }
    Finish(text, keys, parts, last);
    parts := parts + Flush(text, last, |text|);
  }

  /** The plain part holding `text[last..i]`, if it is not empty. */
  function Flush(text: string, last: nat, i: nat): seq<Part>
    requires last <= i <= |text|
  {
    if i > last then [Part(text[last..i], false)] else []
  }

  /** The loop state of the scan: the parts cover `text[..last]`, and
      `text[last..i]` is a pending run without a match. */
  predicate ScanState(text: string, keys: string, parts: seq<Part>, last: nat, i: nat) {
    && last <= i <= |text|
    && Concat(parts) == text[..last]
    && NoMatchIn(text[last..i], keys)
    && GoodParts(parts, keys) && RunsMaximal(parts)
    && (parts == [] || parts[|parts| - 1].highlight)
  }

  lemma MatchStep(text: string, keys: string, parts: seq<Part>, last: nat, i: nat)
    requires ScanState(text, keys, parts, last, i) && i < |text| && IsMatch(text[i], keys)
    ensures ScanState(text, keys, parts + Flush(text, last, i) + [Part([text[i]], true)], i + 1, i + 1)
  {
    FlushStep(text, keys, parts, last, i);
    HitStep(text, keys, parts + Flush(text, last, i), i);
  }

  /** Closing the pending run before a match. */
  lemma FlushStep(text: string, keys: string, parts: seq<Part>, last: nat, i: nat)
    requires ScanState(text, keys, parts, last, i)
    ensures Concat(parts + Flush(text, last, i)) == text[..i]
    ensures GoodParts(parts + Flush(text, last, i), keys)
    ensures RunsMaximal(parts + Flush(text, last, i))
  {
    if i > last {
      Push(parts, Part(text[last..i], false), keys);
      JoinSlices(text, last, i);
    } else {
      assert parts + Flush(text, last, i) == parts;
    }
  }

  /** Emitting the matched character as its own highlighted part. */
  lemma HitStep(text: string, keys: string, parts: seq<Part>, i: nat)
    requires i < |text| && IsMatch(text[i], keys)
    requires Concat(parts) == text[..i] && GoodParts(parts, keys) && RunsMaximal(parts)
    ensures ScanState(text, keys, parts + [Part([text[i]], true)], i + 1, i + 1)
  {
    Push(parts, Part([text[i]], true), keys);
    JoinSlices(text, i, i + 1);
    assert text[i + 1..i + 1] == [];
  }

  lemma NoMatchStep(text: string, keys: string, parts: seq<Part>, last: nat, i: nat)
    requires ScanState(text, keys, parts, last, i) && i < |text| && !IsMatch(text[i], keys)
    ensures ScanState(text, keys, parts, last, i + 1)
  {
    assert text[last..i + 1] == text[last..i] + [text[i]];
  }

  lemma Finish(text: string, keys: string, parts: seq<Part>, last: nat)
    requires ScanState(text, keys, parts, last, |text|)
    ensures Concat(parts + Flush(text, last, |text|)) == text
    ensures GoodParts(parts + Flush(text, last, |text|), keys)
    ensures RunsMaximal(parts + Flush(text, last, |text|))
  {
    JoinSlices(text, last, |text|);
    if last < |text| {
      Push(parts, Part(text[last..], false), keys);
    } else {
      assert parts + Flush(text, last, |text|) == parts;
    }
  }

  lemma JoinSlices(text: string, a: nat, b: nat)
    requires a <= b <= |text|
    ensures text[..a] + text[a..b] == text[..b]
    ensures b == |text| ==> text[..b] == text
  {
  }

  /** Length of the longest suffix of `s` with no matching character. */
  function PlainSuffixLength(s: string, keys: string): (n: nat)
    ensures n <= |s|
  {
    if |s| == 0 || IsMatch(s[|s| - 1], keys) then 0
    else 1 + PlainSuffixLength(s[..|s| - 1], keys)
  }

  /** A non-empty run without a match that starts the text or follows a match
      is the longest such suffix. */
  lemma {:induction false} PlainRunIsLongest(u: string, v: string, keys: string)
    requires v != "" && NoMatchIn(v, keys)
    requires u == "" || IsMatch(u[|u| - 1], keys)
    ensures PlainSuffixLength(u + v, keys) == |v|
    decreases |v|
  {
    var s := u + v;
    assert s[|s| - 1] == v[|v| - 1];
    assert s[..|s| - 1] == u + v[..|v| - 1];
    if |v| > 1 {
      PlainRunIsLongest(u, v[..|v| - 1], keys);
    } else {
      assert s[..|s| - 1] == u;
    }
  }

  /** Every part has text, so the joined text is at least as long as the list. */
  lemma {:induction false} ConcatLength(parts: seq<Part>, keys: string)
    requires GoodParts(parts, keys)
    ensures |Concat(parts)| >= |parts|
  {
    if |parts| > 0 {
      var front := parts[..|parts| - 1];
      assert GoodPart(parts[|parts| - 1], keys);
      ConcatLength(front, keys);
    }
  }

  /** The joined text ends with the last part's text. */
  lemma ConcatLast(parts: seq<Part>)
    requires |parts| > 0
    ensures Concat(parts) == Concat(parts[..|parts| - 1]) + parts[|parts| - 1].text
  {
  }

  /** The last part of a good partition is fixed by the text alone. */
  lemma LastPartDetermined(parts: seq<Part>, keys: string)
    requires |parts| > 0 && GoodParts(parts, keys) && RunsMaximal(parts)
    ensures var text := Concat(parts);
            var last := parts[|parts| - 1];
            && |text| > 0
            && last.highlight == IsMatch(text[|text| - 1], keys)
            && (last.highlight ==> last.text == [text[|text| - 1]])
            && (!last.highlight ==> last.text == text[|text| - PlainSuffixLength(text, keys)..])
  {
    var front := parts[..|parts| - 1];
    var last := parts[|parts| - 1];
    assert GoodPart(last, keys);
    var u := Concat(front);
    var text := u + last.text;
    ConcatLast(parts);
    assert text[|text| - 1] == last.text[|last.text| - 1];
    if !last.highlight {
      if |front| > 0 {
        var prev := front[|front| - 1];
        assert prev == parts[|parts| - 2];
        assert prev.highlight;
        assert GoodPart(prev, keys);
        ConcatLast(front);
        assert u[|u| - 1] == prev.text[0];
      }
      PlainRunIsLongest(u, last.text, keys);
      assert text[|u|..] == last.text;
    }
  }

  /** Dropping the last part leaves a good, maximal partition of the text
      without the last part's characters. */
  lemma DropLast(parts: seq<Part>, keys: string)
    requires |parts| > 0 && GoodParts(parts, keys) && RunsMaximal(parts)
    ensures var front := parts[..|parts| - 1];
            && GoodParts(front, keys) && RunsMaximal(front)
            && |parts[|parts| - 1].text| <= |Concat(parts)|
            && Concat(front) == Concat(parts)[..|Concat(parts)| - |parts[|parts| - 1].text|]
  {
    ConcatLast(parts);
  }

  /** The partition textParts computes is the only one: two good, maximal
      partitions of the same text are equal. */
  lemma {:induction false} PartitionUnique(a: seq<Part>, b: seq<Part>, keys: string)
    requires GoodParts(a, keys) && RunsMaximal(a)
    requires GoodParts(b, keys) && RunsMaximal(b)
    requires Concat(a) == Concat(b)
    ensures a == b
    decreases |a|
  {
    ConcatLength(a, keys);
    ConcatLength(b, keys);
    if |a| > 0 && |b| > 0 {
      LastPartDetermined(a, keys);
      LastPartDetermined(b, keys);
      var x := a[|a| - 1];
      var y := b[|b| - 1];
      assert x == y;
      var a' := a[..|a| - 1];
      var b' := b[..|b| - 1];
      DropLast(a, keys);
      DropLast(b, keys);
      assert Concat(a') == Concat(b');
      PartitionUnique(a', b', keys);
      SameFrontAndLast(a, b);
    }
  }

  lemma SameFrontAndLast(a: seq<Part>, b: seq<Part>)
    requires |a| > 0 && |b| > 0
    requires a[..|a| - 1] == b[..|b| - 1] && a[|a| - 1] == b[|b| - 1]
    ensures a == b
  {
    assert a == a[..|a| - 1] + [a[|a| - 1]];
    assert b == b[..|b| - 1] + [b[|b| - 1]];
  }
}
