# Key rotation and name handling of a chat application, in Dafny

This project models the non-visual core of a Next.js chat application that
talks to Google Gemini and to MCP (Model Context Protocol) tool servers:

- **The Google API key rotation manager** is modelled as a pure state
  machine. The pool is an ordered sequence of key records plus a round-robin
  cursor.
  - `getApiKey` hands out the first key at or after the cursor that is
    active or whose cooldown has elapsed. It reactivates that key if it was
    off.
  - `reportError` classifies a failure into one of three tiers (quota,
    permanent, other) and updates the record of the key that failed.
  - `getStatus` shows the pool with every key masked.
  - The clock is an explicit `now` in integer milliseconds.
- **The key-test route** (`POST /api/google-keys/test`) is a loop of at most
  three attempts that drives the manager. The upstream model call is an
  oracle: a sequence of outcomes.
- **Tool names** are sanitised to the function-name rule
  `^[a-zA-Z_][a-zA-Z0-9_.-]{0,63}$`.
  - MCP tool identifiers are built as `server_tool`, with proportional
    truncation, and split back at the first `_`.
  - For Gemini, tool names are sanitised to 60 characters and given numeric
    suffixes on collision.
- **The chat mention input** has three parts:
  - the mention codec, a JSON array of strings or nulls;
  - the arrow-key selection clamp;
  - the highlight partition of a text by the characters of a query.
- **The content preview** decides between HTML and Markdown.

Modules:

| file | module | what it holds |
|---|---|---|
| wrappers.dfy | Wrappers | `Option` |
| text.dfy | Text | ASCII and JavaScript character classes, ASCII lower-casing, `includes`, decimal rendering |
| key_manager.dfy | KeyManager | key records, the pool, the cooldown rule, failure classification, `getApiKey`, `reportError`, `maskKey`, `getStatus` |
| key_test.dfy | KeyTestRoute | the attempt loop and the response of the key-test route |
| tool_names.dfy | ToolNames | the sanitising pipeline shared by both sanitisers, parameterised by its length limit |
| mcp_tool_id.dfy | McpToolId | `sanitizeFunctionName`, `createMCPToolId`, `extractMCPToolId` |
| tool_name_validator.dfy | ToolNameValidator | `sanitizeToolNameForGemini`, the collision loop, `validateToolsForProvider` |
| chat_mention.dfy | ChatMention | mention codec, arrow clamp, `textParts` of the highlight component |
| sequential_naming.dfy | SequentialNaming | the renaming loop over a list of tools, generic in the step that settles one name |
| content_preview.dfy | ContentPreview | `detectContentType` and the `auto` / explicit choice |

### Where the log message and the cooldown differ

On a permanent-tier failure the code logs the key as "suspended"
(`src/lib/ai/google-key-manager.ts:131`), but it only clears `isActive`.
`shouldRetryKey` (`src/lib/ai/google-key-manager.ts:176-190`) then gives a key
without the quota flag the ordinary 5-minute cooldown:
`KeyManager.PermanentErrorCoolsDownInFiveMinutes` proves that such a key is
eligible again five minutes and one millisecond after the failure. A key that
already carries the quota flag keeps the 24-hour cooldown, because a failure
never clears the flag (`KeyManager.PermanentErrorKeepsQuotaCooldown`).

Some other consequences of the code as written are also proved:

- A successful use never resets `errorCount`: `KeyManager.Activate` keeps it
  on an active key.
- A truthy textual `code` hides a numeric `status`: an error with no message,
  a non-empty textual code and status 429 falls to the other tier
  (`KeyManager.TextCodeHidesStatus`).
- Proportional truncation can leave a one-character server name with no room
  at all (`McpToolId.ShortServerIsDropped`).

## Model

| member | source | states |
|---|---|---|
| KeyManager.Configured | src/lib/ai/google-key-manager.ts:40-47 | Every kept entry is non-blank and was configured. Every set, non-blank entry is kept. There are never more keys than entries. |
| KeyManager.ConfiguredAppend | src/lib/ai/google-key-manager.ts:40-47 | Filtering distributes over concatenation, so the configured order is kept. |
| KeyManager.Init | src/lib/ai/google-key-manager.ts:25-56 | The pool holds one record per configured key, in order. Every record is active, with `errorCount` 0, no timestamps and no quota flag. The cursor is 0 and the pool invariants hold. |
| KeyManager.ShouldRetry | src/lib/ai/google-key-manager.ts:176-190 | An active key is never retried. An off key without a recorded error always is. Otherwise a key is retried iff more than 24 h (quota-exhausted) or 5 min (any other key, permanent-tier ones included) has passed since its last error, strictly. |
| KeyManager.ShouldRetryMonotone | src/lib/ai/google-key-manager.ts:176-190 | Once a key is eligible for retry it stays eligible at every later time. |
| KeyManager.QuotaCooldownBoundary | src/lib/ai/google-key-manager.ts:176-190 | A quota-exhausted key is still off at 23h59m and at exactly 24h, and is eligible one second after that. |
| KeyManager.FailureCode | src/lib/ai/google-key-manager.ts:144-154 | The failure code is `code` when it is truthy and `status` otherwise (`code \|\| status`). |
| KeyManager.Classify | src/lib/ai/google-key-manager.ts:123-171 | The tier chosen by `isQuotaError` and `isPermanentError`; the first matching tier wins. Quota iff a quota phrase or code 429. Permanent iff not quota, and a permanent phrase or code 401/403. Other iff neither. |
| KeyManager.ClassifyIgnoresCase | src/lib/ai/google-key-manager.ts:144-171 | Classification does not depend on the letter case of the message. |
| KeyManager.Code429IsQuota | src/lib/ai/google-key-manager.ts:144-154 | A 429 code makes a quota failure, whatever the message. |
| KeyManager.Code403IsPermanent | src/lib/ai/google-key-manager.ts:159-171 | A 403 with an empty message is a permanent failure. |
| KeyManager.TextCodeHidesStatus | src/lib/ai/google-key-manager.ts:144-154 | For an error with no message, a non-empty textual `code` replaces a numeric 429 `status`, so the failure falls to the other tier. |
| KeyManager.FindKey | src/lib/ai/google-key-manager.ts:109-112 | Returns None iff no record holds the key. Otherwise returns the first index holding it. |
| KeyManager.RecordError | src/lib/ai/google-key-manager.ts:114-138 | `errorCount` goes up by one and `lastError` becomes now. The key stays active iff it was active, the tier is other and the new count is below 3. The quota flag is set iff it was set or the tier is quota. The record invariants are kept. |
| KeyManager.ReportError | src/lib/ai/google-key-manager.ts:108-139 | An unknown key leaves the pool unchanged. Otherwise only the first record with that key is updated. The cursor, the length and the key names never change, and the pool invariants are preserved. |
| KeyManager.PermanentErrorCoolsDownInFiveMinutes | src/lib/ai/google-key-manager.ts:176-190 | A permanent-tier failure switches a healthy key without the quota flag off for exactly the 5-minute cooldown: not eligible at +5 min, eligible at +5 min 1 ms. |
| KeyManager.PermanentErrorKeepsQuotaCooldown | src/lib/ai/google-key-manager.ts:123-132 | On a key with the quota flag, a permanent-tier failure switches it off and keeps the flag, so the key stays off for the full 24 h and is eligible 1 ms after it. |
| KeyManager.OtherTierThreshold | src/lib/ai/google-key-manager.ts:114-138 | A fresh key survives two other-tier failures and the third switches it off. |
| KeyManager.Scan | src/lib/ai/google-key-manager.ts:67-98 | A found index is in range and its record is eligible at `now`. An exhausted scan ends with the cursor in range. |
| KeyManager.ScanFindsFirst | src/lib/ai/google-key-manager.ts:67-98 | The scan stops at the smallest offset from the starting cursor whose record is eligible. A fruitless scan has looked at every record and leaves the cursor where it started. |
| KeyManager.ScanFromCursor | src/lib/ai/google-key-manager.ts:67-98 | A found index is eligible. An exhausted scan means no record is eligible, and the cursor is unchanged. |
| KeyManager.Activate | src/lib/ai/google-key-manager.ts:72-92 | The selected record becomes active with `lastUsed` = now. An off record is reset to `errorCount` 0 with no quota flag. An active record keeps its `errorCount` and flag. |
| KeyManager.GetApiKey | src/lib/ai/google-key-manager.ts:61-103 | An empty pool returns null and is unchanged. A key is returned iff some record is eligible. With no key the pool is unchanged. The returned key is a pool key. The cursor stays in range, and names and invariants are kept. |
| KeyManager.GetApiKeySelectsFirstEligible | src/lib/ai/google-key-manager.ts:67-98 | A selection is the first eligible record at or after the cursor. Only that record changes, and the cursor ends just past it, modulo the pool size. |
| KeyManager.AllActiveCalls | src/lib/ai/google-key-manager.ts:67-93 | With every key active, call k hands out the key k places after the cursor. |
| KeyManager.RoundRobin | src/lib/ai/google-key-manager.ts:67-93 | With every key active, n consecutive calls hand out the n keys once each, in configured order starting at the cursor. |
| KeyManager.EmptyPoolNeverSelects | src/lib/ai/google-key-manager.ts:61-64 | An empty pool returns null on every call and never changes. |
| KeyManager.MaskKey | src/lib/ai/google-key-manager.ts:195-204 | Length is kept. Keys of at most 8 characters become all stars. Longer keys keep their first and last four characters and star the rest. |
| KeyManager.MaskExamples | src/lib/ai/google-key-manager.ts:195-204 | Sample masks at 8 and at 12 characters. |
| KeyManager.CountActiveIsActiveIndices | src/lib/ai/google-key-manager.ts:209-223 | The active count equals the number of indices of active records. |
| KeyManager.GetStatus | src/lib/ai/google-key-manager.ts:209-223 | `totalKeys` is the pool size, `activeKeys` counts the active records, and `currentIndex` is the cursor. Every record is shown with its key masked and its other fields unchanged. |
| KeyTestRoute.KeyPrefix | src/app/api/google-keys/test/route.ts:48 | The key mask is the key's first 8 characters (or the whole key) followed by "...". |
| KeyTestRoute.ErrorText | src/app/api/google-keys/test/route.ts:64 | The reported error text is never empty. It is the message when that is non-empty, else the rendered error when that is non-empty, else "Unknown error" (`message \|\| toString() \|\| 'Unknown error'`). |
| KeyTestRoute.RunAttempts | src/app/api/google-keys/test/route.ts:15-71 | At most 3 failures. Each failure is recorded with its attempt number and its key, a non-empty pool key (the `reported` output). Results are numbered 1, 2, 3, .... One more entry follows the failures only when fewer than 3 failed, and it is the no-key entry (for a null or empty key, as `!apiKey` tests) or a success entry with a non-empty pool key. An empty pool gives the single no-key entry. The pool keeps its names and invariants. |
| KeyTestRoute.ResultsShape | src/app/api/google-keys/test/route.ts:21-71 | The failed attempts come first. A success can only be the last entry, right after the failures, and it comes from a succeeding upstream call. |
| KeyTestRoute.TestKeys | src/app/api/google-keys/test/route.ts:13-85 | `totalAttempts` is the number of failures, at most 3. There are at most 3 results, numbered consecutively. `success` holds iff some result succeeded, and there is at most one success, which is the last entry. The status and counts are those of the final pool. |
| ToolNames.ReplaceInvalid | src/lib/ai/mcp/mcp-tool-id.ts:9 | Valid characters are kept and every other character becomes `_`. Length is kept. |
| ToolNames.EnsureStart | src/lib/ai/mcp/mcp-tool-id.ts:12-14 | The result starts with a letter or `_`. `_` is prefixed exactly when the name did not already start that way. |
| ToolNames.TrimTrailingMarks | src/lib/ai/mcp/mcp-tool-id.ts:22 | The result is the longest prefix not ending in `.` or `-`. Everything removed is `.` or `-`. |
| ToolNames.Pipeline | src/lib/ai/mcp/mcp-tool-id.ts:7-26 | Replacing, prefixing, cutting to the limit and trimming never gives "", and the output has valid characters and a valid start, is within the limit and does not end in `.` or `-`. |
| ToolNames.Sanitize | src/lib/ai/mcp/mcp-tool-id.ts:7-30 | The "sanitized_tool" fallback is unreachable: the result is the pipeline's output, which obeys the rule. |
| ToolNames.ShortNameOnlyReplaced | src/lib/ai/mcp/mcp-tool-id.ts:7-30 | A name within the limit that starts with a letter or `_` and does not end in `.` or `-` is only cleaned character by character: nothing is prefixed, cut or trimmed. |
| ToolNames.FixedPointOfValid | src/lib/ai/mcp/mcp-tool-id.ts:7-30 | A name that already obeys the rule comes back unchanged. |
| ToolNames.SanitizeIdempotent | src/lib/ai/mcp/mcp-tool-id.ts:7-30 | Sanitising twice is sanitising once. |
| McpToolId.SanitizeFunctionName | src/lib/ai/mcp/mcp-tool-id.ts:7-30 | The output obeys the rule with limit 64. A conforming input is kept. "" becomes "_". |
| McpToolId.SanitizeFunctionNameIdempotent | src/lib/ai/mcp/mcp-tool-id.ts:7-30 | `sanitizeFunctionName` is idempotent. |
| McpToolId.ServerPortion | src/lib/ai/mcp/mcp-tool-id.ts:47-51 | The server share fits in the server name, and the tool share (63 minus it) fits in the tool name. |
| McpToolId.Combine | src/lib/ai/mcp/mcp-tool-id.ts:42-56 | When s+t+1 ≤ 64 the id is exactly server + "_" + tool. Otherwise it is the server's first p characters, "_", and the tool's first 63−p characters, and it is exactly 64 long. The id always matches the function-name pattern. |
| McpToolId.CreateMCPToolId | src/lib/ai/mcp/mcp-tool-id.ts:32-57 | Every identifier matches the function-name pattern. |
| McpToolId.JoinSplit | src/lib/ai/mcp/mcp-tool-id.ts:60-61 | Joining the split pieces with `_` restores the string. |
| McpToolId.ExtractMCPToolId | src/lib/ai/mcp/mcp-tool-id.ts:59-62 | The server name holds no `_`. With a `_`, the id is server + "_" + tool, a cut at the first `_`. Without one, the server name is the whole id and the tool name is "". |
| McpToolId.SplitWithoutSeparator | src/lib/ai/mcp/mcp-tool-id.ts:60 | A string without `_` splits into itself alone. |
| McpToolId.FirstSeparatorUnique | src/lib/ai/mcp/mcp-tool-id.ts:59-62 | A cut at a first `_` is unique, so extraction is determined by the identifier. |
| McpToolId.ExtractCreateRoundTrip | src/lib/ai/mcp/mcp-tool-id.ts:32-62 | Without truncation and with no `_` in the sanitised server name, extraction gives back both sanitised names. |
| McpToolId.ServerWithSeparatorBreaksRoundTrip | src/lib/ai/mcp/mcp-tool-id.ts:32-62 | When the sanitised server name holds `_`, extraction never gives it back. |
| McpToolId.ShortServerIsDropped | src/lib/ai/mcp/mcp-tool-id.ts:42-53 | A one-character server beside a tool of 63 or more characters gets share 0. The id is "_" + the tool's first 63 characters, and extraction reports an empty server name. |
| McpToolId.InvalidCharBecomesSeparator | src/lib/ai/mcp/mcp-tool-id.ts:7-30 | In a server name of 1 to 64 characters that starts with a letter or `_` and does not end in `.` or `-`, the length is kept and every character outside `[a-zA-Z0-9_.-]` becomes `_` at the same position. |
| McpToolId.SpacedServerNameHoldsSeparator | src/lib/ai/mcp/mcp-tool-id.ts:7-14 | A space in a server name becomes `_`, so "my server" is outside the round trip. |
| ToolNameValidator.SanitizeToolNameForGemini | src/lib/ai/tool-name-validator.ts:8-35 | "" becomes "unknown_tool". Any other name obeys the rule with limit 60, so the fallback is unreachable. A conforming name is kept. Every output matches the function-name pattern. |
| ToolNameValidator.SanitizeToolNameIdempotent | src/lib/ai/tool-name-validator.ts:8-35 | Sanitising twice is sanitising once, including the empty-name default. |
| ToolNameValidator.SuffixedMatches | src/lib/ai/tool-name-validator.ts:88-89 | Appending "_" and a counter below 1000, after cutting a name longer than 60 to 58, keeps a valid name valid. |
| ToolNameValidator.Dedupe | src/lib/ai/tool-name-validator.ts:86-97 | A name the loop settles on is not already used. |
| ToolNameValidator.DedupeFrom | src/lib/ai/tool-name-validator.ts:86-97 | From any counter, the loop returns the first free candidate, or falls back only when all of the first 1000 candidates are taken. |
| ToolNameValidator.DedupeIsFirstFree | src/lib/ai/tool-name-validator.ts:86-97 | The loop returns the first candidate (name, name_1, name_1_2, ...) that is free. It takes the random fallback iff the first 1000 candidates are all used. |
| ToolNameValidator.CandidateMatches | src/lib/ai/tool-name-validator.ts:86-97 | Every candidate before the fallback matches the pattern when the name does. |
| ToolNameValidator.DedupeMatches | src/lib/ai/tool-name-validator.ts:86-103 | The name the loop settles on matches the pattern. |
| ToolNameValidator.FinalCheckNeverFails | src/lib/ai/tool-name-validator.ts:101-106 | The final pattern check never rejects a name produced by sanitising and deduplication. |
| SequentialNaming.RenameAll | src/lib/ai/tool-name-validator.ts:79-111 | When the loop completes, tool i is renamed to what the step gives for its name, given `used` and the names of tools 0..i-1, and every tool keeps its value. |
| SequentialNaming.EmittedCons | src/lib/ai/tool-name-validator.ts:99 | The names emitted before position i of a list with a head are the head's name plus those emitted before position i-1 of the rest. |
| SequentialNaming.NamedCons | src/lib/ai/tool-name-validator.ts:82-99 | Naming the first tool and then the rest, with the first name added to `used`, names the whole list in order and keeps every value. |
| SequentialNaming.NamedBySlice | src/lib/ai/tool-name-validator.ts:82-99 | Naming the first tool and then the rest, with the first name added to `used`, names the whole list in order. |
| SequentialNaming.FreshNamesDistinct | src/lib/ai/tool-name-validator.ts:86-99 | A step that only settles on free names hands out names not in `used` and pairwise distinct. |
| SequentialNaming.RenameAllNone | src/lib/ai/tool-name-validator.ts:82-106 | The loop gives up only when the step gives up on some tool k, after naming tools 0..k-1 in order. |
| SequentialNaming.GivesUpLater | src/lib/ai/tool-name-validator.ts:82-106 | Giving up at tool k of the rest is giving up at tool k+1 of the whole list. |
| SequentialNaming.WantedNamesKept | src/lib/ai/tool-name-validator.ts:82-111 | When every tool has a distinct wanted name, outside `used`, that the step gives whenever it is free, the loop completes and gives each tool exactly its wanted name. |
| ToolNameValidator.SettleIsFresh | src/lib/ai/tool-name-validator.ts:86-99 | The loop body only settles on a name not yet taken. |
| ToolNameValidator.SettleMatches | src/lib/ai/tool-name-validator.ts:84-106 | The loop body's name is the collision loop's result on the sanitised name, and it matches the pattern. |
| ToolNameValidator.RenameFrom | src/lib/ai/tool-name-validator.ts:79-117 | On the deterministic path there is one entry per tool, each keeping its tool, and tool i is named by the loop body given `used` and the names of tools 0..i-1. The names are new, pairwise distinct and match the pattern. |
| ToolNameValidator.RenameFromNone | src/lib/ai/tool-name-validator.ts:86-106 | The random fallback is reached only when, for some tool k, all of its first 1000 candidates are taken by `used` and the names given to tools 0..k-1. |
| ToolNameValidator.RenameFromNames | src/lib/ai/tool-name-validator.ts:84-99 | Tool i gets exactly the collision loop's result on its sanitised name, given `used` and the names given to tools 0..i-1. |
| ToolNameValidator.SettledNamesMatch | src/lib/ai/tool-name-validator.ts:101-106 | Every name the loop hands out matches the pattern. |
| ToolNameValidator.ValidateToolsForProvider | src/lib/ai/tool-name-validator.ts:63-121 | A non-Gemini model gets the tools unchanged. For Gemini, the deterministic path keeps the tools, names tool i by the loop body given the names of tools 0..i-1, and the names are distinct and match the pattern. |
| ToolNameValidator.DistinctNamesKept | src/lib/ai/tool-name-validator.ts:82-111 | When the sanitised names are already distinct, no suffix is added. Each tool gets exactly its sanitised name. |
| ChatMention.Encode | src/components/chat-mention-input.tsx:35-43 | A tool gives `["tool", name, serverName \|\| "", serverId]`. A server gives `["mcpServer", name, serverId]`. Any other mention gives just its type. |
| ChatMention.Decode | src/components/chat-mention-input.tsx:45-66 | A "tool" head gives a tool mention and an "mcpServer" head gives a server mention, each from the following entries. Anything else gives an "unknown" mention named by `arr[1]`. |
| ChatMention.RoundTrip | src/components/chat-mention-input.tsx:35-60 | Server mentions, and tool mentions with a server name, decode back to themselves. |
| ChatMention.MissingServerNameBecomesEmpty | src/components/chat-mention-input.tsx:35-54 | A tool without a server name comes back with the empty server name. |
| ChatMention.OtherLosesName | src/components/chat-mention-input.tsx:35-66 | Any other mention comes back as "unknown" with no name. |
| ChatMention.DecodedIsStable | src/components/chat-mention-input.tsx:35-66 | Any decoded mention re-encodes and decodes to itself, up to the two losses above. |
| ChatMention.MoveSelection | src/components/chat-mention-input.tsx:179-188 | An empty list gives index 0. Otherwise the index stays within the list, and it is exactly one step up or down when that step is in range. |
| ChatMention.PressDownSaturates | src/components/chat-mention-input.tsx:179-188 | Pressing Down k times from an item stops at the last item. |
| ChatMention.CleanQuery | src/components/chat-mention-input.tsx:350 | A character is in the cleaned query iff it is the lower-cased form of a query character and a word character. |
| ChatMention.Unique | src/components/chat-mention-input.tsx:351 | Removing duplicates keeps exactly the same set of characters. |
| ChatMention.QueryKeysEmpty | src/components/chat-mention-input.tsx:350-353 | There are no highlight keys iff the cleaned query is empty. |
| ChatMention.IsMatchIffInQuery | src/components/chat-mention-input.tsx:350-365 | A text character is highlighted iff, lower-cased, it is a word character that the query holds in either case. |
| ChatMention.TextParts | src/components/chat-mention-input.tsx:349-392 | The parts join back to the text. An empty cleaned query gives the single plain part. Otherwise every highlighted part is one matching character, every plain part is non-empty with no match, and no two plain parts are adjacent. |
| ChatMention.Partition | src/components/chat-mention-input.tsx:360-391 | The scan returns a good, maximal partition whose parts join back to the text. |
| ChatMention.LastPartDetermined | src/components/chat-mention-input.tsx:360-391 | In a good, maximal partition the last part is fixed by the text: its last match, or else its longest plain suffix. |
| ChatMention.PartitionUnique | src/components/chat-mention-input.tsx:360-391 | Two good, maximal partitions of the same text are equal, so the scan's result is the only one. |
| ContentPreview.RunTracksPattern | src/components/content-preview.tsx:23 | The matcher state after a text says whether a tag occurred, a tag is open, or a `<` was just read, each as an iff. |
| ContentPreview.HtmlPatternTestIsHasHtmlTag | src/components/content-preview.tsx:23 | `/<[^>]+>/.test` holds iff the text has `<`, one or more non-`>` characters, then `>`. |
| ContentPreview.DetectContentType | src/components/content-preview.tsx:22-39 | A text with a tag is HTML, and the empty text is HTML. |
| ContentPreview.IncludesChar | src/components/content-preview.tsx:34-38 | `includes` of a one-character string is membership. |
| ContentPreview.MarkdownIff | src/components/content-preview.tsx:22-39 | A text is Markdown iff it has no tag and either holds `*` or `#`, or has a line starting with a list dash, a numbered item, a link, a fence or a quote. |
| ContentPreview.TagWins | src/components/content-preview.tsx:27-29 | A tag wins over any Markdown syntax. |
| ContentPreview.DetectedType | src/components/content-preview.tsx:117-122 | An explicit content type is used as is, and "auto" runs detection. |
| ContentPreview.NoAngleNoTag | src/components/content-preview.tsx:23 | Without `<` there is no tag. |
| ContentPreview.MarkdownPatternNeedsMarker | src/components/content-preview.tsx:24-25 | A text matching the multiline Markdown pattern has a line starting with `#`, `*`, `-`, a digit, `[`, a backtick or `>`. |
| ContentPreview.NumberedItemIsMarkdown | src/components/content-preview.tsx:24-32 | "1. item" is Markdown, through the numbered-list line alternative alone. |
| ContentPreview.ComparisonReadsAsTag | src/components/content-preview.tsx:23-29 | "a < b > c" is classified as HTML. |
| ContentPreview.PlainTextIsHtml | src/components/content-preview.tsx:22-39 | A text with no Markdown syntax ("plain text") is HTML. |

## Left out

- I/O, logging and the clock:
  - `process.env` reads are replaced by a given sequence of optional strings, so the fixed list of ten variable names is not modelled.
  - `console` output is dropped.
  - `Date.now()` becomes an integer `now` parameter.
  - Each key-manager operation reads the clock once, and the route uses a single `now` throughout.
- Concurrency: `getApiKey` and `reportError` each run to completion, but the key-test route awaits `doGenerate` (`src/app/api/google-keys/test/route.ts:38`) between `getApiKey` (`:22`) and `reportError` (`:58`). Other requests sharing the manager may change the pool there; that interleaving is not modelled.
- `KeyTestRoute.RunAttempts`: assumes no other request uses the key manager between attempts, so each attempt starts from the pool the previous one left.
- `isQuotaExhausted` is `undefined` until first set. The model uses false, which behaves the same everywhere except in the raw status view.
- The upstream call of the key-test route (`doGenerate`) becomes an outcome oracle. The route's outer `catch` (a 500 response) is not modelled because nothing in the modelled loop throws.
- `error?.toString()` becomes the oracle's rendered text, and a non-string `message` is not modelled.
- `KeyTestRoute.RunAttempts`: requires at least 3 oracle outcomes, one per possible upstream call.
- `KeyTestRoute.RunAttempts`: relates the final pool to the initial one only through its names, cursor range and invariants, not through the exact sequence of `getApiKey` and `reportError` effects; nor does it state that `reported[k]` is the key `getApiKey` handed out at attempt k, only that it is a non-empty pool key.
- `KeyTestRoute.TestKeys`: gives the same weaker account of the final pool as `RunAttempts`.
- `isGeminiModel` inspects the model object and the environment. It is a boolean input.
- The random fallback names (`Math.random`) in `validateToolsForProvider` cannot be modelled deterministically. The collision loop passing 1000, and the final pattern check failing, both give None. `ToolNameValidator.FinalCheckNeverFails` shows the second case cannot happen.
- `ToolNameValidator.RenameFrom`: the random name on the fallback path is not modelled; `RenameFromNone` only says when the fallback is reached.
- Object key order: the tool record becomes a sequence of (name, tool) pairs in `Object.entries` order. Map semantics, such as later keys overwriting earlier ones, are not modelled; the emitted names are proved distinct, so no overwrite arises.
- `createMCPToolId` computes `Math.floor((s / total) * 63)` in floating point. The model uses integer division `s * 63 / total`, which can differ from the floating-point value only by rounding at exact multiples.
- Letter case: `toLowerCase` is restricted to ASCII, with no Unicode case mapping.
- Character units: strings are sequences of characters, while the source counts UTF-16 code units (`length`, `substring`, indexing). Non-BMP characters are therefore not modelled faithfully.
- JSON text: the mention codec works on the parsed array of strings or nulls. `JSON.stringify` and `JSON.parse`, and a missing versus a null field, are collapsed to None.
- No generic retry wrapper is modelled; the key-test route is the only retry loop.
- The status route, `sanitizeHtml` (DOMPurify), and all React rendering, editor and portal code are not part of this model.
