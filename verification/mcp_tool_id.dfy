/**
 MCP tool identifiers: a server name and a tool name are each sanitised to
 the function-name rule (limit 64) and joined with `_`; when the joined name
 would exceed 64 characters both halves are cut in proportion to their
 lengths. Extraction splits the identifier back at its first `_`.
 */
module McpToolId {
  import opened ToolNames

  const MaxLength: nat := 64
  const Separator: char := '_'

  /** sanitizeFunctionName: the shared pipeline with limit 64. */
  function SanitizeFunctionName(name: string): (r: string)
    ensures IsSanitized(r, MaxLength)
    ensures IsSanitized(name, MaxLength) ==> r == name
    ensures name == "" ==> r == "_"
  {
    FixedPointOfValid(name, MaxLength);
    Sanitize(name, MaxLength)
  }

  /** The sanitiser is idempotent. */
  lemma SanitizeFunctionNameIdempotent(name: string)
    ensures SanitizeFunctionName(SanitizeFunctionName(name)) == SanitizeFunctionName(name)
  {
  }

  /** The server's share of the 63 characters left beside the separator:
      the integer floor of `server / (server + tool) * 63`. */
  function ServerPortion(server: nat, tool: nat): (p: nat)
    requires server + tool + 1 > MaxLength
    ensures p <= server && MaxLength - 1 - p <= tool
  {
    var total := server + tool;
    var p := server * 63 / total;
    PortionBounds(server, tool, p);
    p
  }

  lemma PortionBounds(server: nat, tool: nat, p: nat)
    requires server + tool >= MaxLength && p == server * 63 / (server + tool)
    ensures p <= server && MaxLength - 1 - p <= tool
  {
    var total := server + tool;
    assert p * total <= server * 63 < (p + 1) * total;
    assert server * 63 <= server * total;
    MulCancel(p, server, total);
    assert tool * 63 <= tool * total;
    assert (63 - tool) * total == 63 * total - tool * total;
    assert server * 63 == 63 * total - 63 * tool;
    MulCancelStrict(63 - tool, p + 1, total);
  }

  lemma MulCancel(a: int, b: int, c: int)
    requires c > 0 && a * c <= b * c
    ensures a <= b
  {
  }

  lemma MulCancelStrict(a: int, b: int, c: int)
    requires c > 0 && a * c < b * c
    ensures a < b
  {
  }

  /** createMCPToolId on already-sanitised halves. */
  function Combine(server: string, tool: string): (id: string)
    requires IsSanitized(server, MaxLength) && IsSanitized(tool, MaxLength)
    ensures |server| + |tool| + 1 <= MaxLength ==> id == server + [Separator] + tool
    ensures |server| + |tool| + 1 > MaxLength ==>
              var p := ServerPortion(|server|, |tool|);
              id == server[..p] + [Separator] + tool[..MaxLength - 1 - p] && |id| == MaxLength
    ensures MatchesFunctionNamePattern(id)
  {
    if |server| + |tool| + 1 > MaxLength then
      var p := ServerPortion(|server|, |tool|);
      server[..p] + [Separator] + tool[..MaxLength - 1 - p]
    else
      server + [Separator] + tool
  }

  /** createMCPToolId. */
  function CreateMCPToolId(serverName: string, toolName: string): (id: string)
    ensures MatchesFunctionNamePattern(id)
  {
    Combine(SanitizeFunctionName(serverName), SanitizeFunctionName(toolName))
  }

  /** `s.split("_")`: the pieces between separators, at least one. */
  function Split(s: string): (parts: seq<string>)
    ensures |parts| >= 1
    ensures forall k :: 0 <= k < |parts| ==> Separator !in parts[k]
  {
    if |s| == 0 then [""]
    else
      var rest := Split(s[1..]);
      if s[0] == Separator then [""] + rest
      else [[s[0]] + rest[0]] + rest[1..]
  }

  /** `parts.join("_")`. */
  function Join(parts: seq<string>): string
    requires |parts| >= 1
  {
    if |parts| == 1 then parts[0] else parts[0] + [Separator] + Join(parts[1..])
  }

  /** Joining the pieces restores the string. */
  lemma {:induction false} JoinSplit(s: string)
    ensures Join(Split(s)) == s
  {
    if |s| > 0 {
      JoinSplit(s[1..]);
      var rest := Split(s[1..]);
      if s[0] != Separator {
        if |rest| == 1 {
          assert Split(s) == [[s[0]] + rest[0]];
        } else {
          var parts := Split(s);
          assert parts[1..] == rest[1..];
          assert Join(parts) == [s[0]] + rest[0] + [Separator] + Join(rest[1..]);
        }
      }
    }
  }

  datatype ToolRef = ToolRef(serverName: string, toolName: string)

  /** extractMCPToolId. */
  function ExtractMCPToolId(toolId: string): (r: ToolRef)
    ensures Separator !in r.serverName
    ensures Separator in toolId ==> toolId == r.serverName + [Separator] + r.toolName
    ensures Separator !in toolId ==> r == ToolRef(toolId, "")
  {
    var parts := Split(toolId);
    var r := ToolRef(parts[0], if |parts| == 1 then "" else Join(parts[1..]));
    JoinSplit(toolId);
    if Separator !in toolId then
      SplitWithoutSeparator(toolId);
      r
    else
      r
  }

  lemma {:induction false} SplitWithoutSeparator(s: string)
    requires Separator !in s
    ensures Split(s) == [s]
  {
    if |s| > 0 {
      assert Separator !in s[1..];
      SplitWithoutSeparator(s[1..]);
      assert [s[0]] + s[1..] == s;
    }
  }

  /** Extraction cuts at the first separator: the two halves are determined
      by the identifier alone. */
  lemma FirstSeparatorUnique(a: string, b: string, c: string, d: string)
    requires Separator !in a && Separator !in c
    requires a + [Separator] + b == c + [Separator] + d
    ensures a == c && b == d
  {
    SeparatorAt(a, b, c, d);
    SeparatorAt(c, d, a, b);
    var x := a + [Separator] + b;
    assert a == x[..|a|] == c;
    assert b == x[|a| + 1..] == d;
  }

  /** In two splittings of one string, the shorter head's separator falls
      inside the longer head. */
  lemma SeparatorAt(a: string, b: string, c: string, d: string)
    requires a + [Separator] + b == c + [Separator] + d
    ensures |a| < |c| ==> c[|a|] == Separator
  {
    var x := a + [Separator] + b;
    if |a| < |c| {
      assert x[|a|] == Separator;
      assert c[|a|] == (c + [Separator] + d)[|a|];
    }
  }

  /** Round trip: without truncation, and when the sanitised server name holds
      no `_`, extraction gives back both sanitised halves. */
  lemma ExtractCreateRoundTrip(serverName: string, toolName: string)
    requires Separator !in SanitizeFunctionName(serverName)
    requires |SanitizeFunctionName(serverName)| + |SanitizeFunctionName(toolName)| + 1 <= MaxLength
    ensures ExtractMCPToolId(CreateMCPToolId(serverName, toolName))
            == ToolRef(SanitizeFunctionName(serverName), SanitizeFunctionName(toolName))
  {
    var s := SanitizeFunctionName(serverName);
    var t := SanitizeFunctionName(toolName);
    var id := CreateMCPToolId(serverName, toolName);
    assert id == s + [Separator] + t;
    var r := ExtractMCPToolId(id);
    assert Separator in id by { assert id[|s|] == Separator; }
    FirstSeparatorUnique(r.serverName, r.toolName, s, t);
  }

  /** When the sanitised server name holds `_`, extraction never gives it back. */
  lemma ServerWithSeparatorBreaksRoundTrip(serverName: string, toolName: string)
    requires Separator in SanitizeFunctionName(serverName)
    ensures ExtractMCPToolId(CreateMCPToolId(serverName, toolName)).serverName
            != SanitizeFunctionName(serverName)
  {
  }

  /** Proportional truncation can leave a short server no room at all: a
      one-character server beside a tool of 63 or more characters gets a
      share of 0, and extraction then reports an empty server name. */
  lemma ShortServerIsDropped(serverName: string, toolName: string)
    requires |SanitizeFunctionName(serverName)| == 1
    requires |SanitizeFunctionName(toolName)| >= MaxLength - 1
    ensures CreateMCPToolId(serverName, toolName)
            == [Separator] + SanitizeFunctionName(toolName)[..MaxLength - 1]
    ensures ExtractMCPToolId(CreateMCPToolId(serverName, toolName)).serverName == ""
  {
    var t := SanitizeFunctionName(toolName);
    CombineShortServer(SanitizeFunctionName(serverName), t);
    ExtractLeadingSeparator(t[..MaxLength - 1]);
  }

  lemma CombineShortServer(server: string, tool: string)
    requires IsSanitized(server, MaxLength) && IsSanitized(tool, MaxLength)
    requires |server| == 1 && |tool| >= MaxLength - 1
    ensures Combine(server, tool) == [Separator] + tool[..MaxLength - 1]
  {
    ZeroShare(|tool|);
    var id := Combine(server, tool);
    assert id == server[..0] + [Separator] + tool[..MaxLength - 1];
    assert server[..0] + [Separator] == [Separator];
  }

  lemma ZeroShare(tool: nat)
    requires tool >= MaxLength - 1
    ensures ServerPortion(1, tool) == 0
  {
    assert 63 / (1 + tool) == 0;
  }

  /** An identifier starting with `_` has an empty server name. */
  lemma ExtractLeadingSeparator(rest: string)
    ensures ExtractMCPToolId([Separator] + rest).serverName == ""
  {
    var id := [Separator] + rest;
    assert id[0] == Separator;
    assert id == [] + [Separator] + rest;
    var r := ExtractMCPToolId(id);
    FirstSeparatorUnique(r.serverName, r.toolName, [], rest);
  }

  /** In a server name within the limit whose ends are acceptable, every
      character outside the name alphabet becomes `_` in place. */
  lemma InvalidCharBecomesSeparator(serverName: string, i: nat)
    requires 0 < |serverName| <= MaxLength && i < |serverName|
    requires IsNameStart(serverName[0]) && !IsTrailingMark(serverName[|serverName| - 1])
    requires !IsNameChar(serverName[i])
    ensures |SanitizeFunctionName(serverName)| == |serverName|
    ensures SanitizeFunctionName(serverName)[i] == Separator
  {
    ShortNameOnlyReplaced(serverName, MaxLength);
  }

  /** A space in a server name is sanitised into `_`, so such a server is one
      the round trip loses. */
  lemma SpacedServerNameHoldsSeparator()
    ensures Separator in SanitizeFunctionName("my server")
  {
    var name := "my server";
    assert name[0] == 'm' && name[|name| - 1] == 'r' && name[2] == ' ';
    InvalidCharBecomesSeparator(name, 2);
    assert SanitizeFunctionName(name)[2] == Separator;
  }
}
