/**
 The Google API key rotation manager: an ordered pool of key records with a
 round-robin cursor, per-key failure classification (quota, permanent, other)
 and cooldown-based reactivation.

 The source keeps one mutable singleton; here every operation is a pure
 function from the old pool to the new one, and the clock is an explicit
 `now` in integer milliseconds.
 */
module KeyManager {
  import opened Wrappers
  import opened Text

  /** Consecutive errors of the "other" tier after which a key is switched off. */
  const MaxErrorThreshold: nat := 3
  /** Cooldown after a non-quota deactivation: 5 minutes. */
  const CooldownMs: int := 5 * 60 * 1000
  /** Cooldown after a quota deactivation: 24 hours. */
  const QuotaCooldownMs: int := 24 * 60 * 60 * 1000

  /** One configured key and its health. `isQuotaExhausted` is `undefined`
      in the source until first set; false stands for both. */
  datatype KeyRecord = KeyRecord(
    key: string,
    isActive: bool,
    errorCount: nat,
    lastError: Option<int>,
    lastUsed: Option<int>,
    isQuotaExhausted: bool)

  /** The records in round-robin order and the cursor `currentIndex`. */
  datatype Pool = Pool(keys: seq<KeyRecord>, cursor: nat)

  /** The cursor always points at a record, unless there are none. */
  predicate CursorOk(p: Pool) {
    |p.keys| == 0 || p.cursor < |p.keys|
  }

  /** A record is never off without a recorded error, and a quota flag
      implies the record is off. */
  predicate RecordHealthy(r: KeyRecord) {
    && (!r.isActive ==> r.lastError.Some?)
    && (r.isQuotaExhausted ==> !r.isActive)
  }

  predicate Healthy(p: Pool) {
    forall i :: 0 <= i < |p.keys| ==> RecordHealthy(p.keys[i])
  }

  function Names(keys: seq<KeyRecord>): (names: seq<string>)
    ensures |names| == |keys|
    ensures forall i :: 0 <= i < |keys| ==> names[i] == keys[i].key
  {
    seq(|keys|, i requires 0 <= i < |keys| => keys[i].key)
  }

  // ---------------------------------------------------------------------------
  // Construction from configuration
  // ---------------------------------------------------------------------------

  /** An environment entry is kept when it is set and not blank. */
  predicate Usable(v: Option<string>) {
    v.Some? && !IsBlank(v.value)
  }

  /** The configured keys: the usable entries, in order. */
  function Configured(vars: seq<Option<string>>): (keys: seq<string>)
    ensures |keys| <= |vars|
    ensures forall k :: k in keys ==> !IsBlank(k) && Some(k) in vars
    ensures forall i :: 0 <= i < |vars| && Usable(vars[i]) ==> vars[i].value in keys
  {
    if |vars| == 0 then []
    else
      var rest := Configured(vars[1..]);
      assert forall i :: 1 <= i < |vars| ==> vars[i] == vars[1..][i - 1];
      if Usable(vars[0]) then [vars[0].value] + rest else rest
  }

  /** Filtering distributes over concatenation: together with the
      single-entry cases this says the order of the entries is kept. */
  lemma {:induction false} ConfiguredAppend(a: seq<Option<string>>, b: seq<Option<string>>)
    ensures Configured(a + b) == Configured(a) + Configured(b)
    decreases |a|
  {
    if |a| == 0 {
      assert a + b == b;
    } else {
      assert (a + b)[1..] == a[1..] + b;
      ConfiguredAppend(a[1..], b);
    }
  }

  function Fresh(key: string): KeyRecord {
    KeyRecord(key, true, 0, None, None, false)
  }

  /** `initializeKeys`: one fresh, active record per configured key. */
  function Init(vars: seq<Option<string>>): (p: Pool)
    ensures p.cursor == 0 && CursorOk(p) && Healthy(p)
    ensures Names(p.keys) == Configured(vars)
    ensures forall i :: 0 <= i < |p.keys| ==>
              && p.keys[i].isActive
              && p.keys[i].errorCount == 0
              && p.keys[i].lastError.None?
              && p.keys[i].lastUsed.None?
              && !p.keys[i].isQuotaExhausted
  {
    var names := Configured(vars);
    Pool(seq(|names|, i requires 0 <= i < |names| => Fresh(names[i])), 0)
  }

  // ---------------------------------------------------------------------------
  // Cooldown rule
  // ---------------------------------------------------------------------------

  function CooldownOf(r: KeyRecord): int {
    if r.isQuotaExhausted then QuotaCooldownMs else CooldownMs
  }

  /** `shouldRetryKey`: an inactive key becomes eligible once strictly more
      than its cooldown has elapsed since its last error. A key switched off
      by a permanent-tier error uses the ordinary 5-minute cooldown. */
  function ShouldRetry(r: KeyRecord, now: int): (b: bool)
    ensures r.isActive ==> !b
    ensures !r.isActive && r.lastError.None? ==> b
    ensures !r.isActive && r.lastError.Some? && r.isQuotaExhausted ==>
              (b <==> now - r.lastError.value > 24 * 60 * 60 * 1000)
    ensures !r.isActive && r.lastError.Some? && !r.isQuotaExhausted ==>
              (b <==> now - r.lastError.value > 5 * 60 * 1000)
  {
    if r.isActive then false
    else if r.lastError.None? then true
    else now - r.lastError.value > CooldownOf(r)
  }

  /** Once a key is eligible it stays eligible as time goes on. */
  lemma ShouldRetryMonotone(r: KeyRecord, t: int, t': int)
    requires t <= t'
    ensures ShouldRetry(r, t) ==> ShouldRetry(r, t')
  {
  }

  /** The quota cooldown boundary: still off at 23h59m, eligible at 24h00m01s. */
  lemma QuotaCooldownBoundary(r: KeyRecord, t: int)
    requires !r.isActive && r.isQuotaExhausted && r.lastError == Some(t)
    ensures !ShouldRetry(r, t + 23 * 60 * 60 * 1000 + 59 * 60 * 1000)
    ensures !ShouldRetry(r, t + QuotaCooldownMs)
    ensures ShouldRetry(r, t + QuotaCooldownMs + 1000)
  {
  }

  /** May this record be handed out at `now`? */
  predicate Eligible(r: KeyRecord, now: int) {
    r.isActive || ShouldRetry(r, now)
  }

  // ---------------------------------------------------------------------------
  // Failure classification
  // ---------------------------------------------------------------------------

  /** The dynamically typed `code` / `status` fields of an upstream error. */
  datatype JsValue = Undefined | Num(n: int) | Str(s: string)

  predicate Truthy(v: JsValue) {
    match v
    case Undefined => false
    case Num(n) => n != 0
    case Str(s) => s != ""
  }

  /** What the classifier reads from an upstream error object. */
  datatype ErrorSignal = ErrorSignal(message: Option<string>, code: JsValue, status: JsValue)

  /** `error?.code || error?.status`. */
  function FailureCode(e: ErrorSignal): (c: JsValue)
    ensures Truthy(e.code) ==> c == e.code
    ensures !Truthy(e.code) ==> c == e.status
  {
    if Truthy(e.code) then e.code else e.status
  }

  /** `error?.message?.toLowerCase() || ""`. */
  function LowerMessage(e: ErrorSignal): string {
    match e.message
    case Some(m) => Lower(m)
    case None => ""
  }

  predicate IsQuotaError(e: ErrorSignal) {
    var m := LowerMessage(e);
    || Includes(m, "exceeded your current quota")
    || Includes(m, "quota exceeded")
    || Includes(m, "resource exhausted")
    || FailureCode(e) == Num(429)
  }

  predicate IsPermanentError(e: ErrorSignal) {
    var m := LowerMessage(e);
    || Includes(m, "suspended")
    || Includes(m, "permission denied")
    || Includes(m, "api key not valid")
    || Includes(m, "invalid api key")
    || FailureCode(e) == Num(403)
    || FailureCode(e) == Num(401)
  }

  datatype Tier = Quota | Permanent | Other

  /** The first matching tier wins: quota, then permanent, then other. */
  function Classify(e: ErrorSignal): (t: Tier)
    ensures t == Quota <==> IsQuotaError(e)
    ensures t == Permanent <==> !IsQuotaError(e) && IsPermanentError(e)
    ensures t == Other <==> !IsQuotaError(e) && !IsPermanentError(e)
  {
    if IsQuotaError(e) then Quota
    else if IsPermanentError(e) then Permanent
    else Other
  }

  /** Classification ignores the letter case of the message. */
  lemma ClassifyIgnoresCase(m: string, code: JsValue, status: JsValue)
    ensures Classify(ErrorSignal(Some(m), code, status))
         == Classify(ErrorSignal(Some(Lower(m)), code, status))
  {
    LowerIdempotent(m);
  }

  /** A 429 is a quota failure whatever the message says. */
  lemma Code429IsQuota(m: Option<string>, status: JsValue)
    ensures Classify(ErrorSignal(m, Num(429), status)) == Quota
  {
  }

  /** A 403 with an empty message is a permanent failure. */
  lemma Code403IsPermanent(status: JsValue)
    ensures Classify(ErrorSignal(Some(""), Num(403), status)) == Permanent
  {
    assert !Includes("", "quota exceeded") by {
      forall i | 0 <= i <= 0 ensures !OccursAt("", "quota exceeded", i) { }
    }
  }

  /** A truthy non-numeric `code` hides the numeric `status`: a 429 status
      behind a textual code is not recognised as quota by its number. */
  lemma TextCodeHidesStatus(s: string)
    requires s != ""
    ensures FailureCode(ErrorSignal(None, Str(s), Num(429))) == Str(s)
    ensures Classify(ErrorSignal(None, Str(s), Num(429))) == Other
  {
    assert LowerMessage(ErrorSignal(None, Str(s), Num(429))) == "";
    forall sub: string | sub != "" ensures !Includes("", sub) {
      forall i | 0 <= i <= 0 ensures !OccursAt("", sub, i) { }
    }
  }

  // ---------------------------------------------------------------------------
  // reportError
  // ---------------------------------------------------------------------------

  /** `keys.find(k => k.key === apiKey)`, as an index. */
  function FindKey(keys: seq<KeyRecord>, apiKey: string): (r: Option<nat>)
    ensures r.None? <==> forall i :: 0 <= i < |keys| ==> keys[i].key != apiKey
    ensures r.Some? ==> r.value < |keys| && keys[r.value].key == apiKey
    ensures r.Some? ==> forall i :: 0 <= i < r.value ==> keys[i].key != apiKey
  {
    if |keys| == 0 then None
    else if keys[0].key == apiKey then Some(0)
    else
      match FindKey(keys[1..], apiKey)
      case None => None
      case Some(i) => Some(i + 1)
  }

  /** The effect of one reported error on its record. */
  function RecordError(r: KeyRecord, e: ErrorSignal, now: int): (r': KeyRecord)
    ensures r'.key == r.key && r'.lastUsed == r.lastUsed
    ensures r'.errorCount == r.errorCount + 1
    ensures r'.lastError == Some(now)
    ensures r'.isActive <==> r.isActive && Classify(e) == Other && r.errorCount + 1 < MaxErrorThreshold
    ensures r'.isQuotaExhausted <==> r.isQuotaExhausted || Classify(e) == Quota
    ensures RecordHealthy(r) ==> RecordHealthy(r')
  {
    var counted := r.(errorCount := r.errorCount + 1, lastError := Some(now));
    match Classify(e)
    case Quota => counted.(isActive := false, isQuotaExhausted := true)
    case Permanent => counted.(isActive := false)
    case Other =>
      if counted.errorCount >= MaxErrorThreshold then counted.(isActive := false) else counted
  }

  /** `i` is the first index holding `apiKey`. */
  predicate FirstWithKey(keys: seq<KeyRecord>, apiKey: string, i: nat) {
    && i < |keys| && keys[i].key == apiKey
    && forall j :: 0 <= j < i ==> keys[j].key != apiKey
  }

  /** `reportError`: an unknown key changes nothing; otherwise only the first
      record holding that key is updated and the cursor stays put. */
  function ReportError(p: Pool, apiKey: string, e: ErrorSignal, now: int): (p': Pool)
    ensures (forall i :: 0 <= i < |p.keys| ==> p.keys[i].key != apiKey) ==> p' == p
    ensures p'.cursor == p.cursor && |p'.keys| == |p.keys|
    ensures Names(p'.keys) == Names(p.keys)
    ensures forall i :: 0 <= i < |p.keys| && FirstWithKey(p.keys, apiKey, i) ==>
              p'.keys == p.keys[i := RecordError(p.keys[i], e, now)]
    ensures CursorOk(p) ==> CursorOk(p')
    ensures Healthy(p) ==> Healthy(p')
  {
    match FindKey(p.keys, apiKey)
    case None => p
    case Some(i) => p.(keys := p.keys[i := RecordError(p.keys[i], e, now)])
  }

  /** A permanent-tier failure does not suspend a key without the quota flag
      for good: five minutes and one millisecond later it is eligible again. */
  lemma PermanentErrorCoolsDownInFiveMinutes(r: KeyRecord, e: ErrorSignal, now: int)
    requires RecordHealthy(r) && !r.isQuotaExhausted && Classify(e) == Permanent
    ensures !RecordError(r, e, now).isActive
    ensures !Eligible(RecordError(r, e, now), now + CooldownMs)
    ensures Eligible(RecordError(r, e, now), now + CooldownMs + 1)
  {
  }

  /** On a key already flagged for quota, a permanent-tier failure keeps the
      24-hour quota cooldown: the flag is never cleared by a failure. */
  lemma PermanentErrorKeepsQuotaCooldown(r: KeyRecord, e: ErrorSignal, now: int)
    requires r.isQuotaExhausted && Classify(e) == Permanent
    ensures !RecordError(r, e, now).isActive && RecordError(r, e, now).isQuotaExhausted
    ensures !Eligible(RecordError(r, e, now), now + QuotaCooldownMs)
    ensures Eligible(RecordError(r, e, now), now + QuotaCooldownMs + 1)
  {
  }

  /** A fresh key survives two "other" failures and is switched off by the third. */
  lemma OtherTierThreshold(key: string, e: ErrorSignal, t1: int, t2: int, t3: int)
    requires Classify(e) == Other
    ensures RecordError(Fresh(key), e, t1).isActive
    ensures RecordError(RecordError(Fresh(key), e, t1), e, t2).isActive
    ensures !RecordError(RecordError(RecordError(Fresh(key), e, t1), e, t2), e, t3).isActive
  {
  }

  // ---------------------------------------------------------------------------
  // getApiKey
  // ---------------------------------------------------------------------------

  /** The index `d` places after `c`, walking round a pool of `n` records. */
  function At(c: nat, d: nat, n: nat): (i: nat)
    requires c < n && d <= n
    ensures i < n
  {
    if c + d < n then c + d else c + d - n
  }

  /** Stepping the cursor once and walking `d` more equals walking `d + 1`. */
  lemma AtStep(c: nat, d: nat, n: nat)
    requires c < n && d + 1 <= n
    ensures (c + 1) % n < n && At((c + 1) % n, d, n) == At(c, d + 1, n)
  {
    NextCursor(c, n);
  }

  /** The source's `(currentIndex + 1) % keys.length` on an in-range cursor. */
  lemma NextCursor(c: nat, n: nat)
    requires c < n
    ensures (c + 1) % n == (if c + 1 < n then c + 1 else 0)
  {
  }

  predicate EligibleAt(keys: seq<KeyRecord>, c: nat, d: nat, now: int)
    requires c < |keys| && d <= |keys|
  {
    Eligible(keys[At(c, d, |keys|)], now)
  }

  /** How the scan loop ends: at a selected index, or with the cursor where
      the fruitless revolution left it. */
  datatype ScanEnd = Found(index: nat) | Exhausted(cursor: nat)

  /** The `while (attempts < keys.length)` loop of `getApiKey`. */
  function Scan(keys: seq<KeyRecord>, cursor: nat, attempts: nat, now: int): (r: ScanEnd)
    requires 0 < |keys| && cursor < |keys| && attempts <= |keys|
    ensures r.Found? ==> r.index < |keys| && Eligible(keys[r.index], now)
    ensures r.Exhausted? ==> r.cursor < |keys|
    decreases |keys| - attempts
  {
    if attempts == |keys| then Exhausted(cursor)
    else if Eligible(keys[cursor], now) then Found(cursor)
    else Scan(keys, (cursor + 1) % |keys|, attempts + 1, now)
  }

  /** The scan stops at the first eligible record at or after the starting
      cursor `c0` and returns its offset `d`; a fruitless scan has looked at
      every record and leaves the cursor back at `c0`. */
  lemma {:induction false} ScanFindsFirst(keys: seq<KeyRecord>, c0: nat, cursor: nat, attempts: nat, now: int)
    returns (d: nat)
    requires 0 < |keys| && c0 < |keys| && attempts <= |keys|
    requires cursor == At(c0, attempts, |keys|)
    requires forall d' :: 0 <= d' < attempts ==> !EligibleAt(keys, c0, d', now)
    ensures var r := Scan(keys, cursor, attempts, now);
      && (r.Found? ==> FirstEligible(keys, c0, d, now) && r.index == At(c0, d, |keys|))
      && (r.Exhausted? ==> r.cursor == c0 && forall d' :: 0 <= d' < |keys| ==> !EligibleAt(keys, c0, d', now))
    decreases |keys| - attempts
  {
    var n := |keys|;
    if attempts == n {
      d := 0;
    } else if Eligible(keys[cursor], now) {
      d := attempts;
      assert EligibleAt(keys, c0, d, now);
    } else {
      NextCursor(cursor, n);
      assert !EligibleAt(keys, c0, attempts, now);
      d := ScanFindsFirst(keys, c0, (cursor + 1) % n, attempts + 1, now);
    }
  }

  /** A full scan from the cursor finds an eligible record if there is one
      anywhere, and otherwise leaves the cursor where it started. */
  lemma ScanFromCursor(keys: seq<KeyRecord>, c: nat, now: int)
    requires 0 < |keys| && c < |keys|
    ensures var r := Scan(keys, c, 0, now);
      && (r.Found? ==> r.index < |keys| && Eligible(keys[r.index], now))
      && (r.Exhausted? ==> r.cursor == c && forall i :: 0 <= i < |keys| ==> !Eligible(keys[i], now))
  {
    var n := |keys|;
    var _ := ScanFindsFirst(keys, c, c, 0, now);
    if Scan(keys, c, 0, now).Exhausted? {
      forall i | 0 <= i < n ensures !Eligible(keys[i], now) {
        var d := OffsetOf(c, i, n);
        assert !EligibleAt(keys, c, d, now);
      }
    }
  }

  /** `d` is the smallest offset from `c` at which a record is eligible. */
  predicate FirstEligible(keys: seq<KeyRecord>, c: nat, d: nat, now: int)
    requires c < |keys|
  {
    && d < |keys|
    && EligibleAt(keys, c, d, now)
    && forall d' :: 0 <= d' < d ==> !EligibleAt(keys, c, d', now)
  }

  /** Every index of the pool is some offset from the cursor. */
  lemma OffsetOf(c: nat, i: nat, n: nat) returns (d: nat)
    requires c < n && i < n
    ensures d < n && At(c, d, n) == i
  {
    d := if i >= c then i - c else i + n - c;
  }

  /** The selected record: reactivated if it was off, and stamped as used. */
  function Activate(r: KeyRecord, now: int): (r': KeyRecord)
    ensures r'.key == r.key && r'.isActive && r'.lastUsed == Some(now)
    ensures r'.lastError == r.lastError
    ensures r.isActive ==> r'.errorCount == r.errorCount && r'.isQuotaExhausted == r.isQuotaExhausted
    ensures !r.isActive ==> r'.errorCount == 0 && !r'.isQuotaExhausted
  {
    var on := if r.isActive then r else r.(isActive := true, errorCount := 0, isQuotaExhausted := false);
    on.(lastUsed := Some(now))
  }

  /** The pool after a call and the key handed out (None for `null`). */
  datatype Selection = Selection(pool: Pool, key: Option<string>)

  /** `getApiKey`. */
  function GetApiKey(p: Pool, now: int): (r: Selection)
    requires CursorOk(p)
    ensures CursorOk(r.pool) && |r.pool.keys| == |p.keys|
    ensures Names(r.pool.keys) == Names(p.keys)
    ensures |p.keys| == 0 ==> r == Selection(p, None)
    ensures r.key.Some? <==> exists i :: 0 <= i < |p.keys| && Eligible(p.keys[i], now)
    ensures r.key.None? ==> r.pool == p
    ensures r.key.Some? ==> r.key.value in Names(p.keys)
    ensures Healthy(p) ==> Healthy(r.pool)
  {
    if |p.keys| == 0 then Selection(p, None)
    else
      var n := |p.keys|;
      ScanFromCursor(p.keys, p.cursor, now);
      match Scan(p.keys, p.cursor, 0, now)
      case Found(i) =>
        assert i < n && Eligible(p.keys[i], now);
        Selection(Pool(p.keys[i := Activate(p.keys[i], now)], (i + 1) % n), Some(p.keys[i].key))
      case Exhausted(c) =>
        Selection(p.(cursor := c), None)
  }

  /** With a non-empty pool, `getApiKey` picks the first eligible record at
      or after the cursor, updates only that record, and leaves the cursor
      just past it. */
  lemma GetApiKeySelectsFirstEligible(p: Pool, now: int)
    requires CursorOk(p) && |p.keys| > 0
    ensures var r := GetApiKey(p, now);
      r.key.Some? ==> exists d :: SelectedAt(p, now, d, r)
  {
    var d := ScanFindsFirst(p.keys, p.cursor, p.cursor, 0, now);
    var r := GetApiKey(p, now);
    if r.key.Some? {
      assert SelectedAt(p, now, d, r);
    }
  }

  /** The call `r` selected the record `d` places after the cursor. */
  predicate SelectedAt(p: Pool, now: int, d: nat, r: Selection)
    requires CursorOk(p) && |p.keys| > 0
  {
    var n := |p.keys|;
    && FirstEligible(p.keys, p.cursor, d, now)
    && var i := At(p.cursor, d, n);
       && r.key == Some(p.keys[i].key)
       && r.pool.keys == p.keys[i := Activate(p.keys[i], now)]
       && r.pool.cursor == (i + 1) % n
  }

  /** Consecutive `getApiKey` calls at the given times; the handed-out keys. */
  function Calls(p: Pool, times: seq<int>): (r: (Pool, seq<Option<string>>))
    requires CursorOk(p)
    ensures CursorOk(r.0) && |r.1| == |times|
    decreases |times|
  {
    if |times| == 0 then (p, [])
    else
      var s := GetApiKey(p, times[0]);
      var rest := Calls(s.pool, times[1..]);
      (rest.0, [s.key] + rest.1)
  }

  predicate AllActive(p: Pool) {
    forall i :: 0 <= i < |p.keys| ==> p.keys[i].isActive
  }

  /** With every key active, a call hands out the key under the cursor. */
  lemma AllActiveStep(p: Pool, now: int)
    requires CursorOk(p) && |p.keys| > 0 && AllActive(p)
    ensures var c := p.cursor;
      GetApiKey(p, now)
        == Selection(Pool(p.keys[c := Activate(p.keys[c], now)], (c + 1) % |p.keys|), Some(p.keys[c].key))
    ensures AllActive(GetApiKey(p, now).pool)
  {
    assert Scan(p.keys, p.cursor, 0, now) == Found(p.cursor);
  }

  /** With every key active, call k hands out the key k places after the cursor. */
  lemma {:induction false} AllActiveCalls(p: Pool, times: seq<int>)
    requires CursorOk(p) && |p.keys| > 0 && AllActive(p) && |times| <= |p.keys|
    ensures var out := Calls(p, times).1;
      forall k :: 0 <= k < |times| ==> out[k] == Some(p.keys[At(p.cursor, k, |p.keys|)].key)
    decreases |times|
  {
    if |times| > 0 {
      var n := |p.keys|;
      var c := p.cursor;
      var s := GetApiKey(p, times[0]);
      AllActiveStep(p, times[0]);
      AllActiveCalls(s.pool, times[1..]);
      var rest := Calls(s.pool, times[1..]).1;
      var out := Calls(p, times).1;
      assert out == [s.key] + rest;
      assert s.pool.cursor == (c + 1) % n;
      assert forall j :: 0 <= j < n ==> s.pool.keys[j].key == p.keys[j].key;
      forall k | 0 <= k < |times| ensures out[k] == Some(p.keys[At(c, k, n)].key) {
        if k > 0 {
          AtStep(c, k - 1, n);
          assert out[k] == rest[k - 1];
          assert rest[k - 1] == Some(s.pool.keys[At(s.pool.cursor, k - 1, n)].key);
        }
      }
    }
  }

  function SomeAll(s: seq<string>): (r: seq<Option<string>>)
    ensures |r| == |s|
    ensures forall i :: 0 <= i < |s| ==> r[i] == Some(s[i])
  {
    seq(|s|, i requires 0 <= i < |s| => Some(s[i]))
  }

  /** Round-robin fairness: with every key active, n consecutive calls hand
      out the n configured keys once each, in configured order starting at
      the cursor. */
  lemma RoundRobin(p: Pool, times: seq<int>)
    requires CursorOk(p) && |p.keys| > 0 && AllActive(p) && |times| == |p.keys|
    ensures var names := Names(p.keys);
      Calls(p, times).1 == SomeAll(names[p.cursor..] + names[..p.cursor])
  {
    var n := |p.keys|;
    var c := p.cursor;
    var names := Names(p.keys);
    AllActiveCalls(p, times);
    var out := Calls(p, times).1;
    assert forall k :: 0 <= k < n ==> out[k] == Some(names[At(c, k, n)]);
    Rotation(names, c, out);
  }

  /** Listing the names `k` places after the cursor, for k = 0 .. n-1, is
      the rotation of the names that starts at the cursor. */
  lemma Rotation(names: seq<string>, c: nat, out: seq<Option<string>>)
    requires c < |names| == |out|
    requires forall k :: 0 <= k < |out| ==> out[k] == Some(names[At(c, k, |names|)])
    ensures out == SomeAll(names[c..] + names[..c])
  {
    var n := |names|;
    var rot := names[c..] + names[..c];
    var expected := SomeAll(rot);
    forall k | 0 <= k < n
      ensures out[k] == expected[k]
    {
      if k < n - c {
        assert rot[k] == names[c + k];
      } else {
        assert rot[k] == names[k - (n - c)];
      }
    }
  }

  /** An empty pool hands out nothing and never changes. */
  lemma {:induction false} EmptyPoolNeverSelects(p: Pool, times: seq<int>)
    requires |p.keys| == 0
    ensures Calls(p, times).0 == p
    ensures forall k :: 0 <= k < |times| ==> Calls(p, times).1[k].None?
    decreases |times|
  {
    if |times| > 0 {
      EmptyPoolNeverSelects(p, times[1..]);
    }
  }

  // ---------------------------------------------------------------------------
  // Masking and status
  // ---------------------------------------------------------------------------

  function Stars(n: nat): (s: string)
    ensures |s| == n && forall i :: 0 <= i < n ==> s[i] == '*'
  {
    seq(n, _ => '*')
  }

  /** `maskKey`: keys of at most 8 characters become all stars; longer keys
      keep their first and last four characters. */
  function MaskKey(k: string): (m: string)
    ensures |m| == |k|
    ensures |k| <= 8 ==> forall i :: 0 <= i < |m| ==> m[i] == '*'
    ensures |k| > 8 ==> forall i :: 0 <= i < |k| ==>
              m[i] == (if i < 4 || i >= |k| - 4 then k[i] else '*')
  {
    if |k| <= 8 then Stars(|k|) else k[..4] + Stars(|k| - 8) + k[|k| - 4..]
  }

  lemma MaskExamples()
    ensures MaskKey("abcdefgh") == "********"
    ensures MaskKey("abcdefghijkl") == "abcd****ijkl"
  {
    assert MaskKey("abcdefghijkl") == "abcd" + "****" + "ijkl";
  }

  datatype KeyView = KeyView(
    key: string,
    isActive: bool,
    errorCount: nat,
    lastError: Option<int>,
    lastUsed: Option<int>,
    isQuotaExhausted: bool)

  datatype Status = Status(totalKeys: nat, activeKeys: nat, currentIndex: nat, keys: seq<KeyView>)

  /** `keys.filter(k => k.isActive).length`. */
  function CountActive(keys: seq<KeyRecord>): (c: nat)
    ensures c <= |keys|
  {
    if |keys| == 0 then 0
    else CountActive(keys[..|keys| - 1]) + (if keys[|keys| - 1].isActive then 1 else 0)
  }

  function ActiveIndices(keys: seq<KeyRecord>): set<nat> {
    set i: nat | i < |keys| && keys[i].isActive
  }

  lemma {:induction false} CountActiveIsActiveIndices(keys: seq<KeyRecord>)
    ensures CountActive(keys) == |ActiveIndices(keys)|
    decreases |keys|
  {
    if |keys| > 0 {
      var n := |keys|;
      var init := keys[..n - 1];
      CountActiveIsActiveIndices(init);
      if keys[n - 1].isActive {
        assert ActiveIndices(keys) == ActiveIndices(init) + {n - 1};
      } else {
        assert ActiveIndices(keys) == ActiveIndices(init);
      }
    }
  }

  function View(r: KeyRecord): KeyView {
    KeyView(MaskKey(r.key), r.isActive, r.errorCount, r.lastError, r.lastUsed, r.isQuotaExhausted)
  }

  /** `getStatus`: counts, the cursor, and every record with its key masked. */
  function GetStatus(p: Pool): (s: Status)
    ensures s.totalKeys == |p.keys| && s.currentIndex == p.cursor
    ensures s.activeKeys == |ActiveIndices(p.keys)|
    ensures s.activeKeys <= s.totalKeys
    ensures |s.keys| == |p.keys|
    ensures forall i :: 0 <= i < |p.keys| ==>
              && s.keys[i].key == MaskKey(p.keys[i].key)
              && s.keys[i].isActive == p.keys[i].isActive
              && s.keys[i].errorCount == p.keys[i].errorCount
              && s.keys[i].lastError == p.keys[i].lastError
              && s.keys[i].lastUsed == p.keys[i].lastUsed
              && s.keys[i].isQuotaExhausted == p.keys[i].isQuotaExhausted
  {
    CountActiveIsActiveIndices(p.keys);
    Status(|p.keys|, CountActive(p.keys), p.cursor,
           seq(|p.keys|, i requires 0 <= i < |p.keys| => View(p.keys[i])))
  }

}
