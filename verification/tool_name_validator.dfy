/**
 Tool-name validation for Gemini models: every tool name is sanitised to the
 function-name rule with a tighter limit of 60 characters, collisions are
 resolved by numbered suffixes, and the tool table is rebuilt under the new
 names. For any other model the table is returned as it is.
 */
module ToolNameValidator {
  import opened Wrappers
  import opened Text
  import opened ToolNames
  import opened SequentialNaming

  const GeminiLimit: nat := 60
  const SuffixBaseLength: nat := 58
  const MaxCounter: nat := 1000

  /** sanitizeToolNameForGemini. */
  function SanitizeToolNameForGemini(toolName: string): (r: string)
    ensures toolName == "" ==> r == "unknown_tool"
    ensures toolName != "" ==> IsSanitized(r, GeminiLimit) && r == Pipeline(toolName, GeminiLimit)
    ensures IsSanitized(toolName, GeminiLimit) ==> r == toolName
    ensures MatchesFunctionNamePattern(r)
  {
    if toolName == "" then
      assert IsSanitized("unknown_tool", GeminiLimit);
      "unknown_tool"
    else
      FixedPointOfValid(toolName, GeminiLimit);
      Sanitize(toolName, GeminiLimit)
  }

  /** Sanitising twice is sanitising once, including the empty-name default. */
  lemma SanitizeToolNameIdempotent(toolName: string)
    ensures SanitizeToolNameForGemini(SanitizeToolNameForGemini(toolName))
            == SanitizeToolNameForGemini(toolName)
  {
    var once := SanitizeToolNameForGemini(toolName);
    assert once != "" by {
      if toolName != "" {
        assert IsSanitized(once, GeminiLimit);
      }
    }
  }

  /** One step of the collision loop: `base + "_" + counter`, where the base is
      cut to 58 characters when the candidate is longer than 60. */
  function Suffixed(name: string, counter: nat): string {
    var base := if |name| > GeminiLimit then name[..SuffixBaseLength] else name;
    base + "_" + Decimal(counter)
  }

  /** A suffix of at most three digits keeps a valid name valid. */
  lemma SuffixedMatches(name: string, counter: nat)
    requires MatchesFunctionNamePattern(name) && 1 <= counter < MaxCounter
    ensures MatchesFunctionNamePattern(Suffixed(name, counter))
  {
    var base := if |name| > GeminiLimit then name[..SuffixBaseLength] else name;
    var s := Suffixed(name, counter);
    var d := Decimal(counter);
    assert |d| <= 3;
    assert s[0] == base[0] == name[0];
    forall i | 0 <= i < |s|
      ensures IsNameChar(s[i])
    {
      if i < |base| {
        assert s[i] == name[i];
      } else if i > |base| {
        assert s[i] == d[i - |base| - 1];
      }
    }
  }

  /** The k-th candidate the loop tries: the name itself, then each suffixed
      form of the previous candidate. */
  function Candidate(name: string, k: nat): string {
    if k == 0 then name else Suffixed(Candidate(name, k - 1), k)
  }

  /** The collision loop from counter `counter` on; None is the random
      fallback once the counter passes 1000. */
  function Dedupe(name: string, used: set<string>, counter: nat): (r: Option<string>)
    requires 1 <= counter <= MaxCounter
    ensures r.Some? ==> r.value !in used
    decreases MaxCounter - counter
  {
    if name !in used then Some(name)
    else if counter + 1 > MaxCounter then None
    else Dedupe(Suffixed(name, counter), used, counter + 1)
  }

  /** Candidate k is free and every earlier candidate is taken. */
  predicate FirstFree(name: string, used: set<string>, k: nat) {
    && k < MaxCounter
    && Candidate(name, k) !in used
    && forall j :: 0 <= j < k ==> Candidate(name, j) in used
  }

  lemma {:induction false} DedupeFrom(name: string, used: set<string>, counter: nat) returns (k: nat)
    requires 1 <= counter <= MaxCounter
    requires forall j :: 0 <= j < counter - 1 ==> Candidate(name, j) in used
    ensures Dedupe(Candidate(name, counter - 1), used, counter).Some? ==>
              FirstFree(name, used, k)
              && Dedupe(Candidate(name, counter - 1), used, counter).value == Candidate(name, k)
    ensures Dedupe(Candidate(name, counter - 1), used, counter).None? ==>
              forall j :: 0 <= j < MaxCounter ==> Candidate(name, j) in used
    decreases MaxCounter - counter
  {
    var current := Candidate(name, counter - 1);
    if current !in used {
      k := counter - 1;
    } else if counter + 1 > MaxCounter {
      k := 0;
    } else {
      assert Candidate(name, counter) == Suffixed(current, counter);
      k := DedupeFrom(name, used, counter + 1);
    }
  }

  /** The loop returns the first free candidate, and falls back only when all
      of the first 1000 candidates are taken. */
  lemma DedupeIsFirstFree(name: string, used: set<string>)
    ensures Dedupe(name, used, 1).Some? ==>
              exists k: nat :: FirstFree(name, used, k) && Dedupe(name, used, 1).value == Candidate(name, k)
    ensures Dedupe(name, used, 1).None? <==>
              forall j :: 0 <= j < MaxCounter ==> Candidate(name, j) in used
  {
    var k := DedupeFrom(name, used, 1);
    if Dedupe(name, used, 1).Some? {
      assert FirstFree(name, used, k) && Dedupe(name, used, 1).value == Candidate(name, k);
    }
  }

  /** Every candidate below the fallback obeys the rule when the name does. */
  lemma {:induction false} CandidateMatches(name: string, k: nat)
    requires MatchesFunctionNamePattern(name) && k < MaxCounter
    ensures MatchesFunctionNamePattern(Candidate(name, k))
  {
    if k > 0 {
      CandidateMatches(name, k - 1);
      SuffixedMatches(Candidate(name, k - 1), k);
    }
  }

  /** The name the loop settles on obeys the rule. */
  lemma DedupeMatches(name: string, used: set<string>)
    requires MatchesFunctionNamePattern(name)
    ensures Dedupe(name, used, 1).Some? ==> MatchesFunctionNamePattern(Dedupe(name, used, 1).value)
  {
    DedupeIsFirstFree(name, used);
    if Dedupe(name, used, 1).Some? {
      var k: nat :| FirstFree(name, used, k) && Dedupe(name, used, 1).value == Candidate(name, k);
      assert k < MaxCounter by { assert FirstFree(name, used, k); }
      CandidateMatches(name, k);
    }
  }

  predicate AllMatch(names: seq<string>) {
    forall i :: 0 <= i < |names| ==> MatchesFunctionNamePattern(names[i])
  }

  /** One pass of the loop body: the sanitised name, suffixed until free,
      then the final pattern check. None is a random fallback name. */
  function Settle(toolName: string, taken: set<string>): Option<string> {
    match Dedupe(SanitizeToolNameForGemini(toolName), taken, 1)
    case None => None
    case Some(name) => if MatchesFunctionNamePattern(name) then Some(name) else None
  }

  /** The loop body only ever settles on a free name. */
  lemma SettleIsFresh()
    ensures Fresh(Settle)
  {
  }

  /** A name the loop body settles on matches the pattern, and the final
      check never turns a settled name into the fallback. */
  lemma SettleMatches(toolName: string, taken: set<string>)
    ensures Settle(toolName, taken).Some? ==> MatchesFunctionNamePattern(Settle(toolName, taken).value)
    ensures Settle(toolName, taken) == Dedupe(SanitizeToolNameForGemini(toolName), taken, 1)
  {
    FinalCheckNeverFails(toolName, taken);
  }

  /** The Gemini branch's loop over the tools, with `used` the names already
      emitted. None is a random fallback name, which the model leaves open. */
  function RenameFrom<T>(tools: seq<(string, T)>, used: set<string>): (r: Option<seq<(string, T)>>)
    ensures r.Some? ==> |r.value| == |tools|
    ensures r.Some? ==> forall i :: 0 <= i < |tools| ==> r.value[i].1 == tools[i].1
    ensures r.Some? ==> NamedBy(Settle, tools, used, r.value)
    ensures r.Some? ==> forall i :: 0 <= i < |tools| ==> r.value[i].0 !in used
    ensures r.Some? ==> Distinct(NamesOf(r.value)) && AllMatch(NamesOf(r.value))
  {
    var r := RenameAll(Settle, tools, used);
    if r.Some? then
      SettleIsFresh();
      FreshNamesDistinct(Settle, tools, used, r.value);
      SettledNamesMatch(tools, used, r.value);
      r
    else
      r
  }

  /** The loop falls back to a random name only when, for some tool, the
      loop body falls back given the names in `used` and those emitted
      before it: all of its first 1000 candidates are taken. */
  lemma RenameFromNone<T>(tools: seq<(string, T)>, used: set<string>)
    ensures RenameFrom(tools, used).None? ==>
              exists k: nat, out: seq<(string, T)> :: GivesUpAt(Settle, tools, used, k, out)
  {
    RenameAllNone(Settle, tools, used);
  }

  /** On the deterministic path, tool i gets exactly what the collision loop
      gives for its sanitised name, given the names in `used` and those given
      to the tools before it. */
  lemma RenameFromNames<T>(tools: seq<(string, T)>, used: set<string>)
    ensures var r := RenameFrom(tools, used);
            r.Some? ==> forall i :: 0 <= i < |tools| ==>
              Dedupe(SanitizeToolNameForGemini(tools[i].0), used + Emitted(r.value, i), 1) == Some(r.value[i].0)
  {
    var r := RenameFrom(tools, used);
    if r.Some? {
      forall i | 0 <= i < |tools|
        ensures Dedupe(SanitizeToolNameForGemini(tools[i].0), used + Emitted(r.value, i), 1) == Some(r.value[i].0)
      {
        SettleMatches(tools[i].0, used + Emitted(r.value, i));
      }
    }
  }

  lemma SettledNamesMatch<T>(tools: seq<(string, T)>, used: set<string>, out: seq<(string, T)>)
    requires NamedBy(Settle, tools, used, out)
    ensures AllMatch(NamesOf(out))
  {
    forall i | 0 <= i < |out|
      ensures MatchesFunctionNamePattern(out[i].0)
    {
      SettleMatches(tools[i].0, used + Emitted(out, i));
    }
  }

  /** validateToolsForProvider, with the model test passed in as `isGemini`. */
  function ValidateToolsForProvider<T>(tools: seq<(string, T)>, isGemini: bool): (r: Option<seq<(string, T)>>)
    ensures !isGemini ==> r == Some(tools)
    ensures isGemini && r.Some? ==> |r.value| == |tools| && Distinct(NamesOf(r.value))
    ensures isGemini && r.Some? ==> NamedBy(Settle, tools, {}, r.value)
    ensures isGemini && r.Some? ==> AllMatch(NamesOf(r.value))
    ensures isGemini && r.Some? ==> forall i :: 0 <= i < |tools| ==> r.value[i].1 == tools[i].1
  {
    if !isGemini then Some(tools) else RenameFrom(tools, {})
  }

  /** The final pattern check never replaces a name. */
  lemma FinalCheckNeverFails(toolName: string, used: set<string>)
    ensures Dedupe(SanitizeToolNameForGemini(toolName), used, 1).Some? ==>
              MatchesFunctionNamePattern(Dedupe(SanitizeToolNameForGemini(toolName), used, 1).value)
  {
    DedupeMatches(SanitizeToolNameForGemini(toolName), used);
  }

  /** When the sanitised names are already distinct, no suffix is added: each
      tool keeps its sanitised name. */
  lemma DistinctNamesKept<T>(tools: seq<(string, T)>, used: set<string>)
    requires Distinct(SanitizedNames(tools))
    requires forall i :: 0 <= i < |tools| ==> SanitizeToolNameForGemini(tools[i].0) !in used
    ensures RenameFrom(tools, used).Some?
    ensures NamesOf(RenameFrom(tools, used).value) == SanitizedNames(tools)
  {
    var wanted := SanitizedNames(tools);
    forall i, taken | 0 <= i < |tools| && wanted[i] !in taken
      ensures Settle(tools[i].0, taken) == Some(wanted[i])
    {
      SettleMatches(tools[i].0, taken);
    }
    WantedNamesKept(Settle, tools, used, wanted);
  }

  function SanitizedNames<T>(tools: seq<(string, T)>): (names: seq<string>)
    ensures |names| == |tools|
    ensures forall i :: 0 <= i < |tools| ==> names[i] == SanitizeToolNameForGemini(tools[i].0)
  {
    seq(|tools|, i requires 0 <= i < |tools| => SanitizeToolNameForGemini(tools[i].0))
  }
}
