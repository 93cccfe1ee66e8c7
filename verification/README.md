# hatyai-api core, modelled in Dafny

hatyai-api republishes a flood-rescue feed of SOS records from Hat Yai. This
project models four pieces of its core and proves properties about each:

- **The severity scorer** (`priority.Calculate`). It turns one record's
  properties into three things: a score in [0, 100], a level (low, medium,
  high or critical), and the Thai reasons behind the score.
  - Six factors may fire: sickness level, patient count, a risky age, a
    chronic disease keyword, recency of the last update, and three tiers of
    keywords in the free-text note.
  - The sum is clamped to [0, 100]. Every contribution is a whole number,
    so the source's `float64` arithmetic and `math.Round` are exact on
    `int`.
  - Modules: `Priority` (calculator.dfy), over `Text` (text.dfy), which
    holds Go's `strings.TrimSpace` and `strings.ToLower` and `strconv.Atoi`.
- **The filters and the aggregation** of the HTTP routes.
  - `filterItems` matches a name case-insensitively.
  - `filterItemsByProvince` uses the southern-province allow-list.
  - `buildCounts` produces per-name tallies for the area summaries.
  - The `/v1/priority` selection ranks the southern records, filters them
    by level, sorts them stably by score and then by latest update, and
    truncates the list to the `limit` query.
  - Modules: `Routes` (routes.dfy) and `Counts` (counts.dfy). They sit over
    `Seqs` (order-preserving selection) and `Sorting` (a stable insertion
    sort over a strict weak order).
- **The conditional fetch of the upstream feed** (`httpFetcher.Fetch`).
  - It sends `If-None-Match` when it has a previous entity tag (section
    13.1.2 of RFC 9110).
  - It classifies the answer as one of four outcomes: transport error,
    `304 Not Modified`, another non-200 status, or a document (decoded or
    failing to decode).
  - Module: `Fetcher` (fetcher.dfy).
- **The two-tier cache** (`redisSOSService`). It keeps a process snapshot
  that lives 55 seconds and a Redis entry that lives 60 seconds.
  - The snapshot, or a readable Redis entry, is served straight away and
    starts a background refresh. The refresh is skipped while another one
    holds the lock.
  - Otherwise the cache fetches without a tag and writes both tiers.
  - `GetSOS` also keeps the parsed document in the snapshot.
  - Module: `Cache` (cache.dfy), over the records of `Schema` (schema.dfy).

Things the model takes as parameters instead of computing:

- The clock: `now`.
- The RFC 3339 parser: `rfc3339`.
- The JSON codec: `Codec`, an encode/decode pair. `RoundTrips` states that
  decoding an encoding gives the document back.
- The upstream transport: a function from request to response.
- Whether Redis answers.
- The region test of `/v1/priority`: `inRegion`.

The background refresh runs to completion at the point where `tryRefresh`
starts it. `BeginRefresh` and `FinishRefresh` split it so that a held lock
can be represented.

Where the description of the service and its code differ, the model follows
the code:

- The snapshot's lifetime falls back to the full Redis lifetime only when
  `redisTTL - 5s` is below 5 seconds, not when it is at most zero.
  `Cache.MemoryTtl` states this, and `Cache.MemoryTtlOfRedisTtl` gives the
  55-second value.
- The snapshot does not always expire before the Redis entry. A hit on the
  Redis tier dates the new snapshot 55 seconds from now, however little
  time the entry had left (`Cache.DurableHitOutlivesStore`).
- An expired snapshot is never served, not even when Redis is empty and the
  fetch fails (`Cache.ExpiredSnapshotNotServed`).
- `filterItems` returns Go's `nil` for a blank target. The model returns the
  empty sequence.

`Routes.IsSouthernProvince` is the allow-list exactly as routes/routes.go spells
it, so `Routes.SouthernFilter` and `Routes.Prioritize` drop a record spelled
"สุราษฎร์ธานี", as the service does. The corrected list,
`Routes.IsSouthernProvinceCorrected`, is stated separately (see Findings).

Go enumerates a map in no fixed order, and `sort.Slice` is not stable. The
model builds the rows in first-seen order and sorts them stably.
`Counts.CountsOrderDetermined` shows that the choice does not matter:
because no two rows share a key, every sorted arrangement of the rows is
the same list.

## Model

| member | source | states |
|---|---|---|
| Priority.ParseAge | priority/calculator.go:156-179 | The age is the value of the first run of ASCII digits anywhere in the text. It is 0 when there is no digit, and 0 when the run does not fit a 64-bit `int`. |
| Priority.CollectDigits | priority/calculator.go:162-172 | The rune loop's builder ends holding exactly the first maximal run of digits. White space before or after the run changes nothing. |
| Priority.AgeRoundTrip | priority/calculator.go:156-179 | Parsing the decimal spelling of any age in `int` range gives that age back. |
| Priority.FindKeyword | priority/calculator.go:194-205 | No keyword for empty text, or when no keyword occurs in the lower-cased text. Otherwise the result is a keyword that occurs, and no keyword earlier in the list occurs. |
| Priority.HeartShadowsCardiacArrest | priority/calculator.go:59-68 | "หัวใจหยุด" (cardiac arrest) can never be the disease keyword found. "หัวใจ" (heart) precedes it in the list and is a prefix of it. |
| Priority.CardiacArrestNeverReported | priority/calculator.go:58-71 | No record's disease reason names cardiac arrest. |
| Priority.SickLevelFactor | priority/calculator.go:24-37 | Fires exactly for levels 1 to 4, with 55, 45, 30 and 15 points for levels 4, 3, 2 and 1, and a reason naming the level. |
| Priority.SickLevelMonotone | priority/calculator.go:24-37 | A higher sickness level earns strictly more points. |
| Priority.PatientCount | priority/calculator.go:39-42 | The structured patient count is used when it is non-zero. Otherwise the number of listed victims is used. |
| Priority.PatientFactor | priority/calculator.go:39-50 | Fires exactly when the count is positive. It gives two points per patient, counting at most ten, and the reason carries the uncapped count. |
| Priority.AgeFactor | priority/calculator.go:52-56 | Fires exactly when the parsed age is positive and under 6 or at least 70. It gives 8 points and a reason with the age. |
| Priority.DiseaseFactor | priority/calculator.go:58-71 | Fires exactly when a severe-disease keyword occurs. It gives 8 points and names the first such keyword. |
| Priority.RecencyFactor | priority/calculator.go:73-83 | +6 exactly when a timestamp parses and is at most 24 hours old. -5 exactly when it is more than 72 hours old. Nothing otherwise. |
| Priority.NoteFactor | priority/calculator.go:85-130 | +12 exactly when a critical keyword occurs. +8 exactly when none does but a vulnerability keyword occurs. +5 exactly when only a scarcity keyword occurs. The reason names the first keyword of the winning tier, in list order. |
| Priority.CriticalTierWins | priority/calculator.go:85-104 | Any critical keyword in the note makes the critical tier contribute. The reason names a critical keyword at or before it in the list, whatever lower-tier words occur. |
| Priority.ScarcityOnlyWithoutHigherTiers | priority/calculator.go:105-130 | A scarcity reason means no critical or vulnerability keyword occurs in the note. |
| Priority.LevelFor | priority/calculator.go:139-147 | Critical from 75, high in [55, 75), medium in [35, 55), low below 35, each as an if-and-only-if. |
| Priority.LevelMonotone | priority/calculator.go:139-147 | A higher score never has a lower level. |
| Priority.Score | priority/calculator.go:18-154 | The score is the clamped sum of the factors that fired. The level follows the thresholds. There is one reason per fired factor, in evaluation order. |
| Priority.Calculate | priority/calculator.go:132-137 | The service's scorer always reports a score in [0, 100] and at most six reasons. |
| Priority.ReasonsInEvaluationOrder | priority/calculator.go:18-130 | The reasons follow the order sickness, patients, age, disease, recency, note, and each factor appears at most once. |
| Priority.RawScoreBounds | priority/calculator.go:18-131 | Before the clamp the sum lies in [-5, 109], whatever the keyword lists. |
| Priority.ClampReachedAbove | priority/calculator.go:132-137 | The upper clamp is reached: a record firing every factor at its maximum sums to 109 and scores 100, critical. |
| Priority.ClampReachedBelow | priority/calculator.go:132-137 | The lower clamp is reached: a record with only a stale update sums to -5 and scores 0, low. |
| Priority.UnconsciousIsCritical | priority/calculator.go:85-104 | A note reading "หมดสติ" (unconscious) earns the critical tier and names that keyword. |
| Priority.EightyIsRisky | priority/calculator.go:52-56 | An age field "80" earns the risky-age factor with the age 80. |
| Schema.ParseTimestamp | routes/routes.go:397-407 | A blank value is no time. Anything else is given, trimmed, to the RFC 3339 parser. |
| Routes.FilterItems | routes/routes.go:303-316 | Nothing for a blank target. Otherwise exactly the items whose lower-cased field equals the trimmed, lower-cased target, each as often as in the input and in input order. |
| Routes.PaddedFieldNeverMatches | routes/routes.go:303-316 | A field that begins with white space matches no target, because only the target is trimmed. |
| Routes.FilterItemsByProvince | routes/routes.go:318-327 | Exactly the items whose trimmed, lower-cased province the predicate accepts, in input order. |
| Routes.SouthernFilter | routes/routes.go:318-327 | Filtering with `isSouthernProvince` keeps exactly the items whose trimmed, lower-cased province is on the allow-list as written, in input order. The predicate's second trim changes nothing. |
| Routes.SouthernProvinceIgnoresCaseAndSpace | routes/routes.go:367-370 | Two names that agree after trimming and ASCII lower-casing are both southern or both not. |
| Routes.SouthernByKey | routes/routes.go:367-370 | Asking about an already normalised name gives the same answer as asking about the raw one. |
| Routes.SuratThaniMisspelled | routes/routes.go:242 | The allow-list as written rejects the correct Thai spelling of Surat Thani. |
| Routes.SuratThaniAccepted | routes/routes.go:222-251 | The corrected allow-list accepts the correct Thai spelling of Surat Thani with any surrounding white space, and accepts every name the list as written accepts. Only this lemma uses the corrected list. |
| Routes.MostRecentUpdate | routes/routes.go:387-395 | The record's own timestamp if it parses, else the properties' timestamp, else Go's zero time. |
| Routes.RankBeforeIsStrictWeakOrder | routes/routes.go:159-164 | The sort's `less` callback (higher score first, then later update) is a strict weak order. |
| Routes.SortByPriority | routes/routes.go:159-164 | The output is a permutation of the input, in descending score with later updates first among equal scores. |
| Routes.SortByPriorityStable | routes/routes.go:159-164 | Records with equal score and update time keep their input order. |
| Routes.FilterByLevel | routes/routes.go:148-157 | A blank or "all" query keeps everything. Any other query keeps exactly the records whose level name equals the trimmed, lower-cased query. |
| Routes.FilterByLevelName | routes/routes.go:148-157 | Naming a level in any ASCII case, with any surrounding space, keeps exactly the records of that level. |
| Routes.FilterByUnknownLevel | routes/routes.go:148-157 | A query that names no level, and is neither blank nor "all", keeps nothing. |
| Routes.Limit | routes/routes.go:166-171 | The page is shorter than the count exactly when the trimmed query parses as an integer n with 0 < n < count, and then its length is n. |
| Routes.PriorityView | routes/routes.go:148-176 | `count` is the number of records that passed the level filter. `items` are the first `Limit` of them in sorted order, in descending priority. |
| Routes.LimitOnlyTruncates | routes/routes.go:166-176 | The count never depends on the limit, and a shorter page is a prefix of a longer one. |
| Routes.RankEach | routes/routes.go:139-146 | One ranked record per input item, in order. Each is paired with its severity and its most recent update. |
| Routes.Candidates | routes/routes.go:139-146 | The candidates' records are exactly the input records that pass the province predicate and the region test, each as often as in the input and in input order. Each carries its own severity and update time. |
| Routes.ViewMembers | routes/routes.go:148-176 | Every record on a page was among the ranked records. |
| Routes.ViewKeepsAll | routes/routes.go:148-176 | With no level and no numeric limit, the page holds every ranked record. |
| Routes.Prioritize | routes/routes.go:131-177 | The reported count is the number of southern candidates in the region at the requested level. Every record in the response is an input record from a province on the allow-list as written, inside the region, with its own severity. |
| Routes.PrioritizeKeepsEverySouthernItem | routes/routes.go:131-177 | With no level and no numeric limit, every input record from a province on the allow-list inside the region appears in the response. |
| Counts.BuildCounts | routes/routes.go:340-365 | Each row has a non-blank, trimmed name, the first spelling seen of its key, and the number of values with that key. A row exists for a key exactly when some value has it. The rows are strictly sorted by lower-cased name. Their counts add up to the number of non-blank values. |
| Counts.RecordKeepsGrouped | routes/routes.go:342-354 | One turn of the grouping loop keeps every row correct for the values seen so far. |
| Counts.TallyGrouped | routes/routes.go:341-354 | After the loop, the rows group all non-blank values by key. |
| Counts.CountsOrderDetermined | routes/routes.go:356-363 | Any sorted arrangement of the grouped rows equals the model's result, whatever the map's enumeration order or the sort's tie-breaking. |
| Counts.CountsKeysUnique | routes/routes.go:340-365 | No two rows share a lower-cased name. |
| Fetcher.RequestFor | services/data_http.go:35-37 | `If-None-Match` is sent exactly when there is a previous tag, and it carries that tag. |
| Fetcher.Classify | services/data_http.go:39-62 | The outcomes in source order: transport error; 304 echoing the tag sent; other non-200 with the status line; decode failure; document with the response's `ETag`. |
| Fetcher.ClassifyWellFormed | services/data_http.go:29-63 | Every reply is exactly one of: an error with nothing else, a not-modified echo of the tag sent, or a document. A document comes exactly from a 200 whose body decodes. |
| Fetcher.ColdFetchDelivers | services/data_http.go:35-48 | Without a tag no precondition is sent. So a server that answers 304 only to conditional requests never says "not modified", and a fetch without error carries a document. |
| Cache.MemoryTtl | services/data_redis.go:155-159 | The snapshot lifetime is the durable lifetime less 5 seconds, or the whole durable lifetime exactly when that is under 10 seconds. It is never under 5 seconds when the durable lifetime is not. |
| Cache.MemoryTtlOfRedisTtl | services/data_redis.go:155-159 | With `redisTTL` at 60 seconds the snapshot lives 55 seconds. |
| Cache.ReadDurable | services/data_redis.go:60-61 | The Redis value is seen exactly when Redis answers and the key has not expired. |
| Cache.WriteDurable | services/data_redis.go:146-150 | A successful write stores the envelope for 60 seconds. A failed one leaves the key as it was. |
| Cache.StoreMemoryCache | services/data_redis.go:155-167 | A new snapshot with the given bytes, tag and parsed form, expiring 55 seconds from now. Nothing else changes. |
| Cache.SaveRawCache | services/data_redis.go:131-153 | The snapshot is stored whether or not Redis took the write. When it did, both tiers hold the same bytes and tag. |
| Cache.SaveOrdersExpiries | services/data_redis.go:131-167 | Right after a save the snapshot expires exactly 5 seconds before the Redis entry. |
| Cache.UpdateParsedCache | services/data_redis.go:180-191 | With no snapshot nothing changes. Otherwise only the parsed form is replaced. |
| Cache.TouchCache | services/data_redis.go:193-199 | A non-empty snapshot is saved again under the given tag, with its bytes and parsed form, and both expiries renewed. If Redis does not take the write, the durable entry is left as it was. With an empty or missing snapshot nothing changes. |
| Cache.TryRefresh | services/data_redis.go:105-129 | While the lock is held: no fetch and no change. Otherwise one fetch and the lock freed. An error changes nothing. "Not modified" or no document touches the snapshot with the OLD tag. A document is saved under the new tag. |
| Cache.GetRaw | services/data_redis.go:51-85 | At most one upstream fetch per call. The lock is held after the call exactly when it was held before. While it is held, any change of state comes with a successful answer. |
| Cache.MemoryHit | services/data_redis.go:52-55 | A live snapshot's own bytes are served. With the lock held, no fetch is made and nothing changes. With the lock free, one refresh runs with the snapshot's own tag. |
| Cache.DurableHit | services/data_redis.go:60-67 | A Redis hit serves the stored bytes. While the lock is held, it leaves a snapshot of them with the stored tag and no parsed form, and makes no fetch. With the lock free, one refresh runs on that snapshot with the stored tag. |
| Cache.ColdPath | services/data_redis.go:70-84 | A fetch error is returned unchanged and nothing is stored. No error and no document gives "no data returned from fetcher". A document is encoded, served and saved under the reply's tag. |
| Cache.NeverNoData | services/data_redis.go:70-76 | With the HTTP fetcher and a server that answers 304 only to conditional requests, `GetRaw` never reports "no data". |
| Cache.DurableHitOutlivesStore | services/data_redis.go:60-67 | A snapshot created from a nearly expired Redis entry outlives it. The snapshot does not always expire first. |
| Cache.ExpiredSnapshotNotServed | services/data_redis.go:51-73 | An expired snapshot is never served: with Redis empty and the fetch failing, the error is returned. |
| Cache.GetSosAsWritten | services/data_redis.go:87-103 | A live snapshot's parsed form is served as is, without a fetch. Otherwise a `GetRaw` error is returned unchanged, bytes that do not decode give a decode error, and a decoded document is returned and attached to the snapshot current after `GetRaw`. At most one fetch per call. |
| Cache.GetSosAsWrittenIncoherent | services/data_redis.go:87-103 | As written, a refresh that completes inside `GetSOS` leaves a snapshot whose bytes decode to the new document while its parsed form is the old one. |
| Cache.UpdateParsedCacheFor | services/data_redis.go:180-191 | The parsed form is attached only to the snapshot whose bytes were decoded. Otherwise nothing changes. |
| Cache.GetSos | services/data_redis.go:87-103 | The corrected `GetSOS` gives the same answers and makes the same fetches as the code as written. |
| Cache.TryRefreshKeepsCoherent | services/data_redis.go:105-129 | A refresh keeps the snapshot's parsed form equal to what its bytes decode to, given a codec that round-trips. |
| Cache.GetRawKeepsCoherent | services/data_redis.go:51-85 | `GetRaw` keeps the snapshot coherent. |
| Cache.GetSosKeepsCoherent | services/data_redis.go:87-103 | The corrected `GetSOS` keeps the snapshot coherent. |
| Cache.CoherentHitAgrees | services/data_redis.go:87-90 | On a coherent cache, the fast path of `GetSOS` answers what decoding the served bytes would. |

## Left out

- `filterItemsByLatLon`, `InSouthernThailand` and `PointInPolygon`: they do floating-point polygon geometry, so the region test is the parameter `inRegion`. The index panic on a record with fewer than two coordinates is not modelled.
- Unicode case mapping: `strings.ToLower` is modelled on ASCII letters only. Thai has no case; other non-ASCII capitals are left as they are.
- JSON: encoding and decoding are the `Codec` parameter. Marshalling a decoded document, or the cache envelope, is taken to succeed, so the error returns after `json.Marshal` in `GetRaw`, `tryRefresh` and `saveRawCache` are not modelled.
- A Redis value is either an envelope or unreadable. The JSON details of `cachedPayload`, such as missing fields decoding to empty ones, are not modelled.
- `http.NewRequest` failing: the URL is a constant. The response body is modelled as its decoding outcome.
- Concurrency: the refresh goroutine runs to completion where `tryRefresh` starts it. Other interleavings and the memory model of `atomic.Value` are not modelled. The coherence finding below is shown under that schedule.
- The 5-second Redis timeouts, Redis errors other than "no answer", and logging.
- Each operation reads the clock once. The source calls `time.Now` several times within one call.
- `loadMemoryCache`'s type assertion always succeeds, since only `*memoryCache` values are stored.
- RFC 3339 parsing (`time.Parse`) is the parameter `rfc3339`.
- The HTTP plumbing of the handlers is not modelled: `decodeParam`, the `/v1`, `/v1/health`, `/v1/south` and area-summary handlers, the 502 mapping of errors, and main.go. Their filtering and counting is modelled through `FilterItems`, `FilterItemsByProvince` and `BuildCounts`.
- Routes.FilterItems: returns the empty sequence where the source returns `nil` for a blank target. The JSON output differs (`null` against `[]`), and the model does not distinguish the two.
- Priority.Calculate: its own contract states only the bounds. The full behaviour is stated on `Priority.Score`, of which `Calculate` is the instance over the service's keyword lists.
- Cache.GetRaw: its own contract states the fetch bound and the lock. The behaviour of each path is stated by `Cache.MemoryHit`, `Cache.DurableHit` and `Cache.ColdPath`.

## Findings

| source | as written | input that shows it | evidently intended | confidence | as-written member | corrected member |
|---|---|---|---|---|---|---|
| routes/routes.go:242 | The Thai entry for Surat Thani is spelled with ฑ (U+0E11) where the province name has ฎ (U+0E0E). | A record whose province is "สุราษฎร์ธานี" is not treated as southern and is left out of `/v1/priority`. | The correctly spelled Thai name is on the allow-list, as the entry's own comment says. | high; not executed | Routes.SuratThaniMisspelled | Routes.SuratThaniAccepted |
| services/data_redis.go:101 | `updateParsedCache` attaches the decoded document to whatever snapshot is current. A refresh started by the `GetRaw` call at line 92 may already have replaced that snapshot. | A live snapshot with no parsed form and the lock free, while upstream answers the conditional fetch with a different document. | The parsed form is attached only to the snapshot whose bytes were decoded. Otherwise `GetSOS` serves the old document for up to 55 seconds while `GetRaw` serves the new bytes. | medium (depends on the refresh finishing first); not executed | Cache.GetSosAsWrittenIncoherent | Cache.GetSosKeepsCoherent |
