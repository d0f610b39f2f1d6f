# translate_cache in Dafny

A model of the translation service in `main.go`. It covers the whole
request path of `jp2cnHander`:

- The client's batch of `TranslateData` records (fingerprint, source text, translation).
- The bulk cache lookup. It is `getPhraseCacheFromRedis`: segments of 300 records, one Redis `MGET` per segment.
- The split of the batch into translated and untranslated records.
- The `"\n"`-joined query sent to the Baidu translation API (`doBaiduTranslate`). This includes the request signature and the form body.
- The merge of the provider's answer back into the untranslated records. The merge is positional, with a fingerprint-keyed fallback.
- The `ResultMessage` envelope and its default messages (`MakeResult`, `init`).
- The asynchronous write-back, `runRedisCachePhrase`/`saveToRedis`: segments of 300 records, one `MSET` per segment.

Four defects show up when the model is held to the behaviour the code is
evidently meant to have. Each one has two halves:

- The "as written" definitions keep it.
- Corrected definitions sit alongside, with the intended property proved.

`Handler.Jp2Cn` is the handler as written. `Handler.Jp2CnFixed` is the same
handler built from the corrections.

Modules, one per file:

| module | file | what it holds |
|---|---|---|
| `Wrappers` | wrappers.dfy | `Option` |
| `Phrases` | phrases.dfy | `TranslateData`, the key/source projections, `SameKeys` |
| `Chunking` | chunking.dfy | `splitArrayTranslateData` over one shared backing array, and the intended chunker `Chunk` |
| `Cache` | cache.dfy | Redis as a `map<string, string>`: the lookup and write-back as written, and `BulkGet`/`BulkSet` as intended |
| `Text` | text.dfy | `Join`/`Split` of delimited strings |
| `Results` | results.dfy | `ResultMessage`, `MakeResult`, `ErrorMessages` |
| `Provider` | provider.dfy | the signature, the form body, the request, and form encoding as intended |
| `Reconcile` | reconcile.dfy | partition, query, positional merge, and the fallback as written and as intended |
| `Handler` | handler.dfy | `jp2cnHander` end to end |

Parameters stand in for what lies outside the model:

- `store` is the Redis contents.
- `failed` is the set of segment numbers whose Redis command returns an error.
- `md5` is `generateMd5`.
- `salt` is `generateRandom()`.
- `transport` is the HTTP round trip plus the JSON decoding of the reply. It returns `None` when any step fails, otherwise the `trans_result` items. An API-level error, such as a signature mismatch, arrives as a normal reply whose `trans_result` is missing, so it is `Some([])`. The handler then replies `ErrorOK` and enqueues the untranslated records with empty translations, as `Handler.FallbackChangesNothing` states for any count mismatch.
- A request body that `BindJSON` rejects is `None`.

## Model

| member | source | states |
|---|---|---|
| `Chunking.SplitArrayTranslateData` | main.go:108-126 | The append loop over one reused buffer produces exactly the closed-form layout: `n / num` full segment headers, then one short header when records remain. Every header is a view of the same backing array. |
| `Chunking.SplitLayout` | main.go:108-126 | The closed form of the Go split. Its own contract says only that every header stays within the buffer. What it contains is stated by `SplitArrayTranslateData` (the loop computes exactly this layout), `SplitShape` and `SplitSharedBuffer`. |
| `Chunking.SplitShape` | main.go:108-126 | Segment lengths are positive and at most `num`, every segment but the last is full, the lengths add up to the batch size, and there are `ceil(n / num)` segments. |
| `Chunking.SplitTail` | main.go:120-123 | The last segment read back is the input's tail from `(count - 1) * num` on. |
| `Chunking.SplitSingle` | main.go:108-126 | A batch no longer than `num` (or `num == 0`) comes back as a single segment equal to the batch, or no segment when it is empty. |
| `Chunking.SplitSharedBuffer` | main.go:112-119 | With more than `num` records, every full segment is the one buffer of length `num`, and slot `i % num` holds the last write, input record `i`, for each of the last `num` records. |
| `Chunking.SplitAliasesSegments` | main.go:112-119 | Two distinct records split by 1 read back as `[[b], [b]]`, not the intended `[[a], [b]]`. |
| `Chunking.SplitAgreesWithChunkWhenSingle` | main.go:108-126 | With at most one segment, the Go split and the intended chunking agree. |
| `Chunking.Chunk` | main.go:108-126 | Intended segmentation: every chunk is non-empty and at most `num` long, and all but the last are full. |
| `Chunking.ChunkFlatten` | main.go:108-126 | Concatenating the intended chunks gives back the batch: nothing lost, duplicated or reordered. |
| `Chunking.ChunkAt` | main.go:108-126 | Chunk `k` is exactly `arr[k*num .. min(k*num + num, n)]`. |
| `Cache.Mget` | main.go:168-173 | `MGET` answers one value per key, in key order; a missing key reads as "" (`redis.Strings` on a nil reply). |
| `Cache.WriteBack` | main.go:178-181 | Reply `i` of a segment lands in record `off + i`; every record outside the window is unchanged. |
| `Cache.LookupSegment` | main.go:167-182 | A segment whose `MGET` fails changes nothing; no record's key or source is touched either way. |
| `Cache.LookupSegments` | main.go:184-187 | The lookup loop keeps every record's key and source, and changes nothing when every segment's `MGET` fails. |
| `Cache.SplitFits` | main.go:178-181 | For the Go split, the write index `i + k*len(segment)` never leaves the batch, so the lookup never indexes out of range. |
| `Cache.GetPhraseCache` | main.go:163-188 | `getPhraseCacheFromRedis` as written. Its own contract is thin: every record keeps its key and source. The values it writes are stated for three cases only: batches of at most 300 records (`GetPhraseCacheSmall`), every `MGET` failing (`GetPhraseCacheAllFailed`), and exactly 301 records (`LookupOf301Phrases`). Batches of more than 301 records with a successful `MGET` are not characterised. |
| `Cache.GetPhraseCacheSmall` | main.go:163-188 | In a batch of at most 300 records, each record gets the cached value for its own key, or the whole batch is unchanged when the one `MGET` fails. |
| `Cache.GetPhraseCacheAllFailed` | main.go:173-181 | When every `MGET` fails, the batch comes back unchanged. |
| `Cache.LookupOf301Phrases` | main.go:163-188 | With 301 records, records 0 and 1 both receive record 300's cached translation, and record 300 keeps the client's. |
| `Cache.OffsetMisplacesTail` | main.go:178-180 | Even over correct segments `[[a, b], [c]]`, the short last segment writes `c`'s translation into index 1 and leaves index 2 alone. |
| `Cache.LookupChunkSpec` | main.go:167-182 | Corrected single `MGET` over chunk `k`: exactly the window `[k*num, min(k*num + num, n))` changes, each record taking the store's value for its own key. The window is left as it was when that `MGET` fails. |
| `Cache.LookupChunksSpec` | main.go:184-187 | Corrected loop from chunk `from` on: earlier records are untouched; each later record gets its own key's value unless its chunk `i / num` failed. |
| `Cache.BulkGet` | main.go:163-188 | The corrected lookup. Its own contract is that keys and sources are kept; `BulkGetSpec` states every record's value. |
| `Cache.BulkGetSpec` | main.go:163-188 | Corrected lookup: record `i` keeps its key and source, and its translation is the store's value for its own key unless the `MGET` of chunk `i / 300` failed. |
| `Cache.MsetArgs` | main.go:134-137 | The `MSET` arguments alternate key and translation, record by record: position `2i` is record `i`'s key and `2i + 1` its translation. |
| `Cache.Mset` | main.go:139 | A key the `MSET` does not name reads back as before, and the key of the last pair holds that pair's value afterwards: later pairs win. |
| `Cache.MsetKeysOf` | main.go:134-139 | The keys the `MSET` of a batch names are exactly the batch's keys. |
| `Cache.MsetStoresEach` | main.go:133-143 | One `MSET` of a self-consistent batch stores each record's translation under its key, and leaves every other key as it was. |
| `Cache.MsetConcat` | main.go:139 | `MSET` applies its pairs left to right: one `MSET` of `x + y` equals `MSET x` followed by `MSET y`. |
| `Cache.SaveSegments` | main.go:146-151 | One `MSET` per segment. If every segment's `MSET` fails, the store is unchanged. A key carried by no segment reads back as before, whichever commands succeed. |
| `Cache.SaveToRedis` | main.go:146-151 | `saveToRedis` as written. Its own contract is thin: if every `MSET` fails, the store is unchanged. What it stores is stated by `SaveToRedisSmall`, `SaveOf301Phrases` and `SaveSkipsAliasedRecords`. |
| `Cache.SaveToRedisSmall` | main.go:146-151 | A self-consistent batch (records with the same key carry the same translation) of at most 300 records, with no failed `MSET`, is written by one `MSET`: every record's translation lands under its key and no other key changes. |
| `Cache.SaveSkipsAliasedRecords` | main.go:146-151 | Saving `[a, b]` with segments of 1 writes `b` twice, and `a`'s key never reaches the store. |
| `Cache.SaveOf301Phrases` | main.go:146-151 | Saving 301 records with segments of 300 writes the reused buffer, where record 300 has overwritten record 0, and then record 300. A key that only record 0 carries reads back as before: record 0 is never cached. |
| `Cache.SaveSegmentsIsOneMset` | main.go:146-151 | Successful `MSET`s over consecutive segments equal one `MSET` of their concatenation. |
| `Cache.BulkSetIsOneMset` | main.go:146-151 | The corrected write-back, with no failures, equals one `MSET` of the whole batch. |
| `Cache.BulkSet` | main.go:146-151 | The corrected write-back, one `MSET` per intended chunk. It has no contract of its own; `BulkSetIsOneMset` states what it stores. |
| `Cache.BulkSetStoresEach` | main.go:133-151 | The corrected write-back of a self-consistent batch stores every record's translation under its key. |
| `Cache.BulkRoundTrip` | main.go:133-188 | Corrected write then corrected read gives back the batch exactly, for every batch size, when the batch agrees with itself on each key. |
| `Text.Join` | main.go:249-266 | Joining one part gives that part; joining none gives "". |
| `Text.Split` | main.go:197 | Splitting yields at least one piece, and no piece contains the delimiter. |
| `Text.JoinSplit` | main.go:197 | Joining the pieces of a split restores the string. |
| `Text.SplitJoin` | main.go:197 | Splitting the join of non-empty delimiter-free parts gives the parts back. |
| `Results.MakeResult` | main.go:64-79 | The code and data are copied. A non-empty message is kept. An empty one becomes "ok" for code 1 and "错误" for code 999, and stays "" for any other code. |
| `Results.MessageEmptyIff` | main.go:69-75 | The envelope's message is empty exactly when the caller gave none and the code has no entry in `ErrorMessages`. |
| `Provider.SignInput` | main.go:195-196 | The signed string is app id, query, salt and secret, in that order, with nothing in between. |
| `Provider.PostData` | main.go:197 | The body is the six `name=value` fields `q, from, to, appid, salt, sign` joined by `&`, each value inserted verbatim. |
| `Provider.DoBaiduTranslate` | main.go:191-228 | The provider call: the `transport` parameter applied to `BuildRequest`. It has no contract of its own (see "Left out"). |
| `Provider.BuildRequest` | main.go:191-206 | A `POST` to the API address with form content type, whose body carries the query and salt and the MD5 of `SignInput`. |
| `Provider.PostDataFields` | main.go:197 | When no value contains `&`, splitting the body on `&` gives back exactly the six raw fields. |
| `Provider.AmpersandSplitsQuery` | main.go:197 | The query `"a&b"` reaches the API as seven fields, with `q=a` followed by a stray `b`, so the API decodes the query as `"a"`. |
| `Provider.PlusBecomesSpace` | main.go:197 | With no `&` anywhere, the query `"a+b"` still reaches the API as field `q=a+b`, which the form decoder reads as `"a b"`. |
| `Provider.PercentIsDecoded` | main.go:197 | The raw query `"%3D"` reaches the API as field `q=%3D`, which the form decoder reads as `"="`. |
| `Provider.EscapeChar` | main.go:206 | `%`, `&`, `+` and `=` become a percent escape that decodes back to the character; every other character stands for itself. |
| `Provider.FormEscape` | main.go:206 | An encoded value never contains `&`. |
| `Provider.UnescapeEscape` | main.go:206 | Form decoding undoes form encoding for every string. |
| `Provider.PostDataEscaped` | main.go:197 | With encoded values, splitting the body on `&` gives exactly the six encoded fields. |
| `Provider.EscapedQueryRoundTrip` | main.go:197-206 | With encoding, any query reaches the API as six fields, the first is `q=…`, and decoding its value gives the query back. |
| `Provider.BuildRequestEscaped` | main.go:191-206 | The corrected request: same verb, address and content type, the body parses into the six encoded fields, and the signature is over the raw query. |
| `Reconcile.Translated` | main.go:249-256 | The translated part is no longer than the batch, and every record in it has a non-empty translation. That it keeps the batch's order and holds each translated record once follows from `PartitionConcat`, `PartitionMembers` and `PartitionMultiset`. |
| `Reconcile.Untranslated` | main.go:249-256 | The untranslated part is no longer than the batch, and every record in it has an empty translation. Order and membership follow from the same three lemmas. |
| `Reconcile.PartitionConcat` | main.go:249-256 | Both partitions distribute over concatenation, so each keeps the batch's relative order. |
| `Reconcile.PartitionMembers` | main.go:249-256 | A record is in the translated part iff it is in the batch with a non-empty translation, and in the untranslated part iff it is in the batch with an empty one. |
| `Reconcile.PartitionMultiset` | main.go:249-256 | Together the two parts are the batch as a multiset, so nothing is lost or duplicated, and their lengths add up to the batch's. |
| `Reconcile.PartitionSrcs` | main.go:249-256 | Together the two parts carry the batch's source texts as a multiset. |
| `Reconcile.QueryText` | main.go:248-256 | The accumulator, when non-empty, ends in a newline: this is the character main.go:262-266 strips. `QueryTextJoin` states its content. |
| `Reconcile.QueryTextJoin` | main.go:248-256 | The accumulated query is non-empty iff some record is untranslated. It is then the untranslated sources joined by `"\n"`, plus one trailing `"\n"`. |
| `Reconcile.Query` | main.go:248-266 | The provider is asked iff some record is untranslated, and the query is then their sources joined by `"\n"`, with no trailing newline. |
| `Reconcile.MergeByPosition` | main.go:276-284 | The `i`-th item's translation goes to the `i`-th untranslated record; keys and sources are unchanged. |
| `Reconcile.PointerKeys` | main.go:287-290 | The fallback map's keys are exactly the untranslated records' fingerprints. |
| `Reconcile.WriteThrough` | main.go:292-298 | Writes through a map pointer reach only the loop variable: the slice is unchanged, and the variable's translation is the last matching item's. |
| `Reconcile.FallbackAsWritten` | main.go:286-299 | The fallback as written leaves the untranslated records exactly as they were. |
| `Reconcile.LastDstIn` | main.go:292-298 | No write happens iff no item's fingerprint is a key of the map. Otherwise the value written is the translation of a matching item after which no item matches: the last write wins. |
| `Reconcile.LastIndex` | main.go:292-298 | The last item whose source fingerprint equals the key, or none iff there is no such item. |
| `Reconcile.DictIsLastDst` | main.go:287-298 | The intended fingerprint map holds a key iff some item has that fingerprint, and maps it to the last such item's translation. |
| `Reconcile.FallbackByFingerprint` | main.go:286-299 | The corrected fallback. Its own contract is that keys and sources are kept; `FallbackByFingerprintSpec` states each record's value. |
| `Reconcile.FallbackByFingerprintSpec` | main.go:286-299 | Corrected fallback: each untranslated record takes the translation of the last item with its fingerprint, and is unchanged if there is none. |
| `Reconcile.PositionAgreesWithFingerprint` | main.go:276-299 | When counts match, items echo their records in order, and fingerprints are distinct, the fingerprint merge equals the positional merge. |
| `Reconcile.FallbackDropsMatches` | main.go:287-297 | One record and two items, one of them matching: as written, the record stays untranslated and only the loop variable receives the translation. The corrected fallback fills the record in. |
| `Reconcile.Merge` | main.go:276-299 | As written: positional when the counts match; otherwise the records come back unchanged. |
| `Reconcile.MergeFixed` | main.go:276-299 | Positional when the counts match; otherwise each record takes its last fingerprint match. |
| `Handler.Respond` | main.go:248-306 | The query is `Reconcile.Query` of the looked-up batch. A batch is enqueued only with a success code after a provider call. Data is present iff the code is `ErrorOK`. |
| `Handler.Jp2Cn` | main.go:231-307 | A rejected body fails with code 999 and neither asks the provider nor enqueues anything. Anything enqueued comes with a success code after a query. |
| `Handler.Jp2CnFixed` | main.go:231-307 | The same two promises for the handler built from the corrected parts. |
| `Handler.BadRequest` | main.go:233-237 | A body that does not decode gets exactly `{999, "参数错误", nil}`, with no query and no write-back. |
| `Handler.ProviderCalledIffUntranslated` | main.go:248-269 | The provider is called iff some looked-up record has an empty translation, with the `"\n"`-join of the untranslated sources. |
| `Handler.ProviderFailure` | main.go:269-273 | A failed provider call answers `{999, "翻译出错", nil}` and enqueues nothing. |
| `Handler.SuccessKeepsBatch` | main.go:305-306 | A success reply says "ok" and carries as many records as the client sent, with the same source texts as a multiset. |
| `Handler.RespondKeepsBatch` | main.go:248-306 | The same, for any looked-up batch and either merge. |
| `Handler.PositionalMerge` | main.go:276-306 | When the provider answers one item per untranslated record, the enqueued records are those records with the items' translations in order. The reply is the translated records followed by them. |
| `Handler.FallbackChangesNothing` | main.go:285-306 | When the count differs, the enqueued records are the untranslated ones unchanged, all still empty, and the reply is the translated ones followed by them. |
| `Handler.ReplyReorders` | main.go:305-306 | A cache miss followed by a cache hit comes back as `[hit, miss]`: translated records always lead. |
| `Handler.RespondTwo` | main.go:305-306 | The same reordering for any looked-up batch of one untranslated record followed by one translated record. |
| `Handler.AllCached` | main.go:240-306 | A batch of at most 300 records, all cached: no provider call, no write-back, and the reply is the batch in order with the cached translations. |
| `Handler.AllMissed` | main.go:240-306 | A batch of at most 300 records, none cached, with an answer of the right length: the provider receives every source, and the reply is the batch in order with the items' translations. |
| `Handler.FixedSuccessKeepsBatch` | main.go:231-307 | With the corrections, a success reply still carries every record once, by source text. |
| `Handler.FixedFallbackTranslates` | main.go:286-301 | With the corrections, a count mismatch enqueues each untranslated record with its last fingerprint match filled in. |

## Left out

- HTTP and JSON: gin routing, `BindJSON`, `c.JSON`, `http.NewRequest`, `client.Do` and `json.Unmarshal` are outside the model. A body that fails to bind is `None`. The whole provider round trip is the `transport` parameter, which returns `None` where `doBaiduTranslate` returns nil.
- `generateMd5` (main.go:87-91) is the `md5` parameter. MD5 itself is not modelled, and nothing assumes it is collision-free. `md5V2` and `md5V3` are unused by the service and left out.
- `generateRandom` (main.go:82-85) reads the clock; its result is the `salt` parameter.
- `runRedisCachePhrase`'s channel, its consumer loop and the goroutine per batch (main.go:153-161, 328) are concurrency. The handler reports the batch it would enqueue (`Outcome.enqueued`), and `Cache.SaveToRedis` models what one consumer task writes. Interleavings of concurrent writers and readers are not modelled, and each request reads one snapshot of the store.
- The Redis pool, connections and their settings (main.go:61, 318-326) are left out. A connection or command error is the `failed` set of segment numbers.
- Logging calls are left out.
- `main` (main.go:332 on) only routes, and is left out.
- `Provider.DoBaiduTranslate` has no contract of its own: it is the `transport` parameter applied to `Provider.BuildRequest`, whose contract carries the content.
- `Cache.LookupSegment`: its own contract covers only the failure case and key preservation. Where the replies land is stated by `Cache.WriteBack`, which it calls with offset `k * len(segment)`, written `Start(k, len)`.
- `Cache.GetPhraseCache` states only that keys and sources are preserved. The lemmas about it cover three cases: at most 300 records (`GetPhraseCacheSmall`), every `MGET` failing (`GetPhraseCacheAllFailed`), and exactly 301 records (`LookupOf301Phrases`). What records receive in a batch of more than 301 records with a successful `MGET` is not characterised, because the aliased buffer and the per-segment offset interact differently for every length. `OffsetMisplacesTail` shows the offset defect on the segment loop `LookupSegments` directly, not through `GetPhraseCache`.
- The fallback's `&v` is modelled with one loop variable shared by all iterations, as in Go before 1.22. With a fresh variable per iteration, the records in the slice are equally untouched, so the handler's behaviour is the same.
- `Cache.Mset` is never applied to an odd number of arguments, so Redis's argument-count error is not modelled. Its contract reads keys through `Get`, so a key set to "" cannot be told apart from a missing key, just as the lookup cannot.
- `Chunking.SplitLayout` has only the validity of its headers in its own contract. Its content is stated by the lemmas named in its row.
- `Cache.SaveToRedis` states only the all-failed case in its own contract. What it writes is stated by `SaveToRedisSmall`, `SaveOf301Phrases` and `SaveSkipsAliasedRecords`.
- `Cache.BulkGet` states only that keys and sources are kept. `BulkGetSpec` gives each record's value.
- `Cache.BulkSet` has no contract of its own. `BulkSetIsOneMset` relates it to a single `MSET`.
- `Reconcile.FallbackByFingerprint` states only that keys and sources are kept. `FallbackByFingerprintSpec` gives each record's value.
- Where the code's evident intent and its behaviour differ, the model follows the code:
  - the lookup's order preservation;
  - the write-back round trip;
  - the URL-encoded provider fields;
  - the fingerprint fallback filling records.

  Each is a row under Findings.

## Findings

| source | as written | input that shows it | evidently intended | confidence | as-written member | corrected member |
|---|---|---|---|---|---|---|
| main.go:112-119 | `tmp = tmp[0:0]` keeps the backing array, so every full segment aliases one buffer. Later appends overwrite earlier segments, both for the lookup (main.go:184) and the write-back (main.go:147). | 301 records: records 0 and 1 get record 300's cached translation, and record 0 is never cached. `[a, b]` with segment size 1 reads back `[[b], [b]]`. | Each segment is its own copy of consecutive records. | high, not executed | `Chunking.SplitAliasesSegments`, `Cache.LookupOf301Phrases`, `Cache.SaveOf301Phrases`, `Cache.SaveSkipsAliasedRecords` | `Chunking.ChunkFlatten`, `Cache.BulkGetSpec`, `Cache.BulkRoundTrip` |
| main.go:178-180 | The reply index is `i + num * len(phrasesList)`, which uses the current segment's length. A short last segment therefore writes from the wrong offset. | Segments `[[a, b], [c]]`: `c`'s translation goes to index 1, and index 2 keeps its old value. | Offset `num * 300`, the segment size. | high, not executed | `Cache.OffsetMisplacesTail` | `Cache.LookupChunksSpec`, `Cache.BulkGetSpec` |
| main.go:287-297 | The map stores `&v`, the address of the loop variable, so `r.Dst = …` never reaches the untranslated records. | One untranslated record and two items, one matching: the record stays untranslated and is enqueued with an empty translation. | Each record with a matching item takes that item's translation. | high, not executed | `Reconcile.FallbackDropsMatches`, `Reconcile.FallbackAsWritten`, `Handler.FallbackChangesNothing` | `Reconcile.FallbackByFingerprintSpec`, `Reconcile.PositionAgreesWithFingerprint`, `Handler.FixedFallbackTranslates` |
| main.go:197 | The form body is built by plain concatenation, although the content type declares it form-encoded (main.go:206). A raw `&`, `+` or `%` in the query is read by the form decoder as syntax. | The query `"a&b"` is parsed as seven fields, and the API sees the query `"a"` and a stray field `b`. The query `"a+b"` is read as `"a b"`, and `"%3D"` as `"="`. The signature was taken over the raw query in each case. | Each value is form-encoded before it is joined. | medium, not executed | `Provider.AmpersandSplitsQuery`, `Provider.PlusBecomesSpace`, `Provider.PercentIsDecoded` | `Provider.EscapedQueryRoundTrip`, `Provider.BuildRequestEscaped` |
