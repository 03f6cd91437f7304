/**
 The key-test route: up to three upstream calls, each with a freshly
 acquired key, recording one result per attempt and reporting every failure
 back to the key manager. The upstream call itself is an oracle: the k-th
 call made by the route yields `outcomes[k]`.
 */
module KeyTestRoute {
  import opened Wrappers
  import opened KeyManager

  const MaxAttempts: nat := 3

  /** What the k-th upstream call does: succeed, or throw an error whose
      `toString()` renders as `rendered` ("" when the error is nullish). */
  datatype Outcome = Succeeded | Failed(error: ErrorSignal, rendered: string)

  datatype ResultStatus = Success | Error

  datatype TestResult = TestResult(
    attempt: nat,
    status: ResultStatus,
    keyMask: Option<string>,
    message: Option<string>,
    error: Option<string>)

  datatype Summary = Summary(totalAttempts: nat, success: bool, activeKeys: nat, totalKeys: nat)

  datatype Report = Report(testResults: seq<TestResult>, keyManagerStatus: Status, summary: Summary)

  /** `apiKey.substring(0, 8) + '...'`. */
  function KeyPrefix(k: string): (m: string)
    ensures |k| <= 8 ==> m == k + "..."
    ensures |k| > 8 ==> |m| == 11 && m[..8] == k[..8]
    ensures m[|m| - 3..] == "..."
  {
    (if |k| <= 8 then k else k[..8]) + "..."
  }

  /** `error?.message || error?.toString() || 'Unknown error'`. */
  function ErrorText(o: Outcome): (text: string)
    requires o.Failed?
    ensures text != ""
    ensures o.error.message.Some? && o.error.message.value != "" ==> text == o.error.message.value
    ensures (o.error.message.None? || o.error.message.value == "") && o.rendered != "" ==> text == o.rendered
    ensures (o.error.message.None? || o.error.message.value == "") && o.rendered == "" ==> text == "Unknown error"
  {
    if o.error.message.Some? && o.error.message.value != "" then o.error.message.value
    else if o.rendered != "" then o.rendered
    else "Unknown error"
  }

  function FailureEntry(attempt: nat, key: string, o: Outcome): TestResult
    requires o.Failed?
  {
    TestResult(attempt, Error, Some(KeyPrefix(key)), None, Some(ErrorText(o)))
  }

  function NoKeyEntry(attempt: nat): TestResult {
    TestResult(attempt, Error, None, Some("No API key available"), None)
  }

  function SuccessEntry(attempt: nat, key: string): TestResult {
    TestResult(attempt, Success, Some(KeyPrefix(key)), Some("API call successful"), None)
  }

  /** The route's call to `getApiKey`, seen through the facts the loop relies
      on. The wrapper keeps the full contract of `GetApiKey` out of the loop's
      proof, which would otherwise grow too large; in exchange the loop knows
      only these facts about the selection. */
  method Acquire(p: Pool, now: int) returns (r: Selection)
    requires CursorOk(p)
    ensures CursorOk(r.pool) && Names(r.pool.keys) == Names(p.keys)
    ensures Healthy(p) ==> Healthy(r.pool)
    ensures r.key.Some? ==> r.key.value in Names(p.keys)
    ensures |p.keys| == 0 ==> r.key.None?
  {
    r := GetApiKey(p, now);
  }

  /** The route's call to `reportError`, seen through the facts the loop
      relies on; like `Acquire`, it keeps the full contract of `ReportError`
      out of the loop's proof. */
  method ReportFailure(p: Pool, apiKey: string, e: ErrorSignal, now: int) returns (p': Pool)
    requires CursorOk(p)
    ensures CursorOk(p') && Names(p'.keys) == Names(p.keys)
    ensures Healthy(p) ==> Healthy(p')
  {
    p' := ReportError(p, apiKey, e, now);
  }

  /** The first `n` results record the failures of the first `n` upstream
      calls, made with the keys `reported[..n]`. */
  predicate FailuresRecorded(results: seq<TestResult>, reported: seq<string>, outcomes: seq<Outcome>, n: nat) {
    && n <= |results| && n <= |reported| && n <= |outcomes|
    && forall k :: 0 <= k < n ==> outcomes[k].Failed? && results[k] == FailureEntry(k + 1, reported[k], outcomes[k])
  }

  lemma FailuresRecordedExtend(results: seq<TestResult>, reported: seq<string>, outcomes: seq<Outcome>, n: nat, key: string)
    requires FailuresRecorded(results, reported, outcomes, n)
    requires |results| == |reported| == n < |outcomes| && outcomes[n].Failed?
    ensures FailuresRecorded(results + [FailureEntry(n + 1, key, outcomes[n])], reported + [key], outcomes, n + 1)
  {
  }

  lemma FailuresRecordedAppend(results: seq<TestResult>, reported: seq<string>, outcomes: seq<Outcome>, n: nat, r: TestResult)
    requires FailuresRecorded(results, reported, outcomes, n)
    ensures FailuresRecorded(results + [r], reported, outcomes, n)
  {
  }

  /** Results are numbered 1, 2, 3, ... in order. */
  predicate Numbered(results: seq<TestResult>) {
    forall k :: 0 <= k < |results| ==> results[k].attempt == k + 1
  }

  lemma NumberedSnoc(results: seq<TestResult>, r: TestResult)
    requires Numbered(results) && r.attempt == |results| + 1
    ensures Numbered(results + [r])
  {
  }

  /** Every reported key is a non-empty key of the pool. */
  predicate AllIn(keys: seq<string>, names: seq<string>) {
    forall k :: 0 <= k < |keys| ==> keys[k] in names && keys[k] != ""
  }

  lemma AllInSnoc(keys: seq<string>, names: seq<string>, key: string)
    requires AllIn(keys, names) && key in names && key != ""
    ensures AllIn(keys + [key], names)
  {
  }

  /** A successful call's entry, made with some key of the pool. */
  predicate IsSuccessEntry(r: TestResult, attempt: nat, names: seq<string>) {
    exists key :: key in names && key != "" && r == SuccessEntry(attempt, key)
  }

  predicate AnySuccess(rs: seq<TestResult>) {
    exists k :: 0 <= k < |rs| && rs[k].status == Success
  }

  /** The attempt loop of the route: the recorded results, the number of
      failed attempts, the pool afterwards and the keys reported as failing. */
  method RunAttempts(pool: Pool, outcomes: seq<Outcome>, now: int)
    returns (results: seq<TestResult>, attempts: nat, finalPool: Pool, reported: seq<string>)
    requires CursorOk(pool) && |outcomes| >= MaxAttempts
    ensures attempts == |reported| <= MaxAttempts
    ensures |results| == attempts + 1 || |results| == attempts == MaxAttempts
    ensures Numbered(results)
    ensures FailuresRecorded(results, reported, outcomes, attempts)
    ensures |results| == attempts + 1 ==> attempts < MaxAttempts
    ensures |results| == attempts + 1 ==>
              || results[attempts] == NoKeyEntry(attempts + 1)
              || (outcomes[attempts].Succeeded? && IsSuccessEntry(results[attempts], attempts + 1, Names(pool.keys)))
    ensures |pool.keys| == 0 ==> results == [NoKeyEntry(1)] && reported == []
    ensures AllIn(reported, Names(pool.keys))
    ensures CursorOk(finalPool) && Names(finalPool.keys) == Names(pool.keys)
    ensures Healthy(pool) ==> Healthy(finalPool)
  {
    results := [];
    attempts := 0;
    var p := pool;
    reported := [];
    while attempts < MaxAttempts
      invariant attempts <= MaxAttempts
      invariant |reported| == attempts && |results| == attempts
      invariant Numbered(results)
      invariant CursorOk(p) && Names(p.keys) == Names(pool.keys)
      invariant Healthy(pool) ==> Healthy(p)
      invariant FailuresRecorded(results, reported, outcomes, attempts)
      invariant AllIn(reported, Names(pool.keys))
      invariant |pool.keys| == 0 ==> attempts == 0
    {
      var sel := Acquire(p, now);
      p := sel.pool;
      // `!apiKey`: no key, or the empty string
      if sel.key.None? || sel.key.value == "" {
        FailuresRecordedAppend(results, reported, outcomes, attempts, NoKeyEntry(attempts + 1));
        NumberedSnoc(results, NoKeyEntry(attempts + 1));
        results := results + [NoKeyEntry(attempts + 1)];
        break;
      }
      var apiKey := sel.key.value;
      var outcome := outcomes[attempts];
      if outcome.Succeeded? {
        FailuresRecordedAppend(results, reported, outcomes, attempts, SuccessEntry(attempts + 1, apiKey));
        NumberedSnoc(results, SuccessEntry(attempts + 1, apiKey));
        results := results + [SuccessEntry(attempts + 1, apiKey)];
        assert IsSuccessEntry(results[attempts], attempts + 1, Names(pool.keys));
        break;
      }
      FailuresRecordedExtend(results, reported, outcomes, attempts, apiKey);
      NumberedSnoc(results, FailureEntry(attempts + 1, apiKey, outcome));
      AllInSnoc(reported, Names(pool.keys), apiKey);
      results := results + [FailureEntry(attempts + 1, apiKey, outcome)];
      reported := reported + [apiKey];
      attempts := attempts + 1;
      p := ReportFailure(p, apiKey, outcome.error, now);
      if attempts >= MaxAttempts {
        break;
      }
    }
    finalPool := p;
  }

  /** What the attempt loop's results imply for the response: the failed
      attempts come first, and a success can only be the last entry, right
      after them. */
  lemma ResultsShape(results: seq<TestResult>, reported: seq<string>, outcomes: seq<Outcome>, names: seq<string>)
    requires |outcomes| >= MaxAttempts && |reported| <= MaxAttempts
    requires |results| == |reported| + 1 || |results| == |reported| == MaxAttempts
    requires FailuresRecorded(results, reported, outcomes, |reported|)
    requires |results| == |reported| + 1 ==> |reported| < MaxAttempts
    requires |results| == |reported| + 1 ==>
              || results[|reported|] == NoKeyEntry(|reported| + 1)
              || (outcomes[|reported|].Succeeded? && IsSuccessEntry(results[|reported|], |reported| + 1, names))
    ensures forall k :: 0 <= k < |reported| ==> outcomes[k].Failed? && results[k].status == Error
    ensures AnySuccess(results) ==> |reported| < |outcomes| && outcomes[|reported|].Succeeded?
    ensures forall k :: 0 <= k < |results| && results[k].status == Success ==>
              k == |results| - 1 == |reported|
  {
    var n := |reported|;
    forall k | 0 <= k < n
      ensures outcomes[k].Failed? && results[k].status == Error
    {
      assert results[k] == FailureEntry(k + 1, reported[k], outcomes[k]);
    }
    if |results| == n + 1 && n < |outcomes| && outcomes[n].Failed? {
      assert results[n] == NoKeyEntry(n + 1);
    }
  }

  /** `POST /api/google-keys/test`. Besides the response it returns the pool
      as the key manager holds it afterwards and, in order, the keys passed
      to `reportError`. */
  method TestKeys(pool: Pool, outcomes: seq<Outcome>, now: int)
    returns (report: Report, finalPool: Pool, reported: seq<string>)
    requires CursorOk(pool) && |outcomes| >= MaxAttempts
    ensures report.summary.totalAttempts == |reported| <= MaxAttempts
    ensures |reported| <= |report.testResults| <= MaxAttempts
    ensures forall k :: 0 <= k < |report.testResults| ==> report.testResults[k].attempt == k + 1
    ensures forall k :: 0 <= k < |reported| ==> outcomes[k].Failed?
    ensures forall k :: 0 <= k < |reported| ==> report.testResults[k].status == Error
    ensures report.summary.success <==> AnySuccess(report.testResults)
    ensures report.summary.success ==> outcomes[|reported|].Succeeded?
    ensures forall k :: 0 <= k < |report.testResults| && report.testResults[k].status == Success ==>
              k == |report.testResults| - 1 == |reported|
    ensures report.keyManagerStatus == GetStatus(finalPool)
    ensures report.summary.activeKeys == GetStatus(finalPool).activeKeys
    ensures report.summary.totalKeys == |pool.keys|
    ensures CursorOk(finalPool) && Names(finalPool.keys) == Names(pool.keys)
    ensures Healthy(pool) ==> Healthy(finalPool)
  {
    var results, attempts;
    results, attempts, finalPool, reported := RunAttempts(pool, outcomes, now);
    ResultsShape(results, reported, outcomes, Names(pool.keys));
    assert Numbered(results);
    var status := GetStatus(finalPool);
    report := Report(results, status, Summary(attempts, AnySuccess(results), status.activeKeys, status.totalKeys));
  }
}
