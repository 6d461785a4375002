# sortition: a verified model of the hub service core

sortition is a small HTTP service that keeps *hubs*, each holding *data
items* (short text payloads such as stream URLs). `GET /<hub>` picks one of
the hub's active items at random from its least-chosen half and redirects
to its content, raising the item's selection count. `PUT /<hub>` stores a new
item and `DELETE /<hub>` deactivates one. `POST /create` makes a hub.
Identifiers are minted by `nanoid`'s `customAlphabet` generator and checked by
one regular expression. The `Uint32Array` pool of `Random` only feeds its
`random(min, max)` draw, and nothing in the service calls that draw.

This project models the four core files in Dafny, one module per concern:

- `base.dfy` (`Base`): option and result values, bytes and 32-bit words, and
  JavaScript's decimal rendering of numbers and of `Uint8Array` chunks.
- `entropy.dfy` (`Entropy`): class `Random`, i.e. the `Uint32Array` pool with
  its cursor and its in-place refill, the draw `word % (max - min) + min`
  with JavaScript's truncating `%`, and `validateUUID`
  (`src/random.ts`). It also covers the syntax of the identifiers `nanoid`
  mints from the default alphabet.
- `rows.dfy` (`Rows`): the rows of the `hubs` and `datas` tables, the two
  table layouts, and each `UPDATE`/`SELECT … LIMIT 1` as a function on the
  row sequence (`src/db.ts`).
- `selection.dfy` (`Selection`): the least-chosen-half query of `getData`.
  SQLite may order rows with equal counts in any way, so every
  count-ascending permutation of the candidates is a possible ordering.
  What is proved holds for all of them (`src/db.ts`).
- `store.dfy` (`Store`): class `DB`, i.e. the two tables as mutable sequences
  and the public operations `getData`, `addData`, `deactivateData`,
  `createHub` and `deactivateHub` with their private helpers (`src/db.ts`).
- `datahandler.dfy` (`DataHandler`): the bounded body reader `getString`
  (a loop with an early exit), `parseInt`, the validators and the response
  builders (`src/dataHandler.ts`).
- `requesthandler.dfy` (`RequestHandler`): the router as a pure decision
  `PlanOf`, and the method `Handle` that carries the decision out on a `DB`
  (`src/requestHandler.ts`).

The model follows the code in three places where the code does something
other than what one would expect:

- Validation is a *minimum* length, not a fixed one. The identifier pattern
  is `^[a-zA-Z0-9_-]{10,}$`, whatever the configured length
  (`Entropy.ValidateUuid`, `Entropy.MintedIdValidates`).
- The body text is not the body's bytes. `getString` joins an array of
  `Uint8Array` chunks with `join('')`, which renders each chunk as its
  comma-separated byte values. Two consequences are proved:
  - a `DELETE` body with a chunk of two or more bytes can never validate;
  - any identifier that does validate consists of digits only
    (`DataHandler.DeleteNeedsOneByteChunks`, `DataHandler.DeletedIdsAreDigits`).
- Counts do not always rise. `updateCount` writes `count = <count read> + 1`
  to every row with the picked identifier. Counts never drop when
  identifiers are unique (`Store.PickKeepsCounts`). A concrete table with a
  shared identifier shows a count being lowered
  (`Store.DuplicateIdLowersCount`).

The sources of nondeterminism are parameters:
- `newId`: the identifier `nanoid` mints;
- `now`: `Date.now()`;
- `r`: `ABS(RANDOM())`;
- `words`/`refill`: what `crypto.getRandomValues` writes.

## Model

| member | source | states |
|---|---|---|
| Base.Decimal | src/dataHandler.ts:59 | `${n}` of a non-negative integer is a non-empty digit string with no leading zero |
| Base.DecimalValue | src/dataHandler.ts:59 | the decimal rendering reads back to the number it renders |
| Base.ChunkText | src/dataHandler.ts:89 | a chunk's `toString` is empty exactly for an empty chunk and consists of digits and commas |
| Base.ChunkTextHasComma | src/dataHandler.ts:89 | a chunk of two or more bytes renders with a comma |
| Base.ChunkTextSingle | src/dataHandler.ts:89 | a one-byte chunk renders as that byte's decimal digits, comma-free |
| Base.JoinChunks | src/dataHandler.ts:89 | `data.join('')` consists of digits and commas only |
| Base.JoinChunksHasComma | src/dataHandler.ts:89 | any chunk of two or more bytes puts a comma into the joined text |
| Base.AsciiBytes | src/dataHandler.ts:129 | the bytes of the `Blob` made from an ASCII string: one byte per character, same code |
| Base.DecodeText | src/dataHandler.ts:109 | decoding keeps the length, maps ASCII bytes to their character and others to U+FFFD |
| Base.AsciiRoundTrip | src/dataHandler.ts:127-130 | decoding the encoded ASCII text gives the text back |
| Base.Utf16Length | src/requestHandler.ts:39 | `url.length` counts UTF-16 code units: between the number of characters and twice it, and equal to it iff no character lies outside the Basic Multilingual Plane |
| Entropy.AllIdChars | src/random.ts:36 | true exactly when every character is in `[a-zA-Z0-9_-]` |
| Entropy.ValidateUuid | src/random.ts:103-106 | accepts exactly the strings of at least ten characters from `[a-zA-Z0-9_-]` |
| Entropy.TruncRem | src/random.ts:83 | JavaScript `%`: the result has the dividend's sign, is smaller than the divisor in magnitude, and differs from the dividend by a multiple of the divisor, which together fix the truncated remainder |
| Entropy.Reduce | src/random.ts:83 | `word % (max - min) + min` is `NaN` iff `max == min`, lies in `[min, max)` when `max > min`, and in `[min, 2*min - max)` otherwise |
| Entropy.DefaultAlphabetIsIdClass | src/random.ts:27-36 | the default alphabet is exactly the validator's character class |
| Entropy.MintedIdValidates | src/random.ts:36-42 | an identifier minted from the default alphabet validates iff the length is at least ten; so it always does for the service's length 20 and the constructor's default 10 |
| Entropy.Random.constructor | src/random.ts:23-45 | the pool is allocated at the configured size and filled once, with the cursor at 0 and the state ready |
| Entropy.Random.UpdateStore | src/random.ts:47-56 | the whole buffer is overwritten from the source, the cursor rewinds, and the state ends ready |
| Entropy.Random.Draw | src/random.ts:79-101 | the value comes from the word under the cursor before it moves (`NaN` past the end of an empty pool); the cursor advances, and at the end the buffer is refilled and the cursor rewinds |
| Rows.CreateTableQuery | src/db.ts:106-116 | the three parts joined by spaces: `CREATE TABLE IF NOT EXISTS`, the table name, then the column list in parentheses closed by `);` |
| Rows.HubsLayout | src/db.ts:71-116 | the `hubs` table is created as `(id TEXT, created INTEGER, active INTEGER)` |
| Rows.DatasLayout | src/db.ts:85-116 | the `datas` table is created as `(id TEXT, hub_id TEXT, added INTEGER, active INTEGER, count INTEGER, content BLOB)` |
| Rows.SetCount | src/db.ts:149-151 | `UPDATE datas SET count = c WHERE id = id`: same rows in the same places, every column but `count` kept; rows with the identifier get `c`, the others keep their count |
| Rows.DeactivateRows | src/db.ts:204-206 | `UPDATE datas SET active = 0 WHERE id = id`: every column but `active` kept; rows with the identifier get 0, the others keep their flag |
| Rows.DeactivateHubRows | src/db.ts:289-291 | `UPDATE hubs SET active = 0 WHERE id = id`: the same on `hubs` |
| Rows.FirstDataWithId | src/db.ts:221-226 | `None` iff no row has the identifier; otherwise the first such row in table order |
| Rows.FirstHubWithId | src/db.ts:304-309 | `None` iff no hub has the identifier; otherwise the first such hub in table order |
| Rows.DeactivateIdempotent | src/db.ts:204-206 | deactivating an item twice leaves the table as deactivating it once |
| Rows.DeactivateHubIdempotent | src/db.ts:289-292 | deactivating a hub twice leaves the table as deactivating it once |
| Rows.DeactivateEvolves | src/db.ts:204-206 | deactivation only clears flags; afterwards no active row has the identifier |
| Rows.DeactivateHubEvolves | src/db.ts:289-292 | hub deactivation only clears flags, and every hub with the identifier is inactive |
| Rows.SetCountEvolves | src/db.ts:149-152 | writing `count = c` lowers no count when no row with that identifier counts above `c` |
| Rows.NoActiveWithIdPreserved | src/db.ts:145-215 | a deactivated identifier stays deactivated under count updates, other deactivations and appends of other identifiers |
| Selection.Eligible | src/db.ts:168-169 | a row is a candidate iff it is a row of the hub with `active = 1`; there are no more candidates than rows |
| Selection.EligibleOccurrences | src/db.ts:168-172 | each matching row is a candidate as many times as it occurs in the table, any other row never; so the number of candidates is the `COUNT(*)` that sizes the window |
| Selection.Pick | src/db.ts:168-170 | `LIMIT 1 OFFSET` yields one of the first window-many rows of the ordering |
| Selection.Window | src/db.ts:170-172 | `MAX(ROUND(n * 0.5), 1)` is at least one; for a non-empty hub it is half the rows rounded up |
| Selection.PickIsAmongLeastChosen | src/db.ts:164-175 | under every tie order and every `r`, the offset is in range, the row is a candidate, and fewer rows than the window count less than it |
| Selection.EveryLeastChosenRowCanBePicked | src/db.ts:164-175 | conversely, every candidate that fewer than window-many rows beat on count is picked under some tie order |
| Selection.CountsZeroZeroOneOne | src/db.ts:166-172 | with counts `[0, 0, 1, 1]` only a count-0 row can be picked |
| Selection.SingleCandidate | src/db.ts:168-172 | a hub with one active row always yields that row |
| Selection.SmallHubPicksLeastChosen | src/db.ts:168-172 | with one or two active rows the pick has the smallest count |
| Selection.PickOfTwo | src/db.ts:168-172 | of two candidates with different counts, the less chosen one is picked |
| Selection.EligibleSetCount | src/db.ts:145-175 | the candidates after a count update are the candidates before it with the update applied |
| Selection.EligibleUnique | src/db.ts:168-169 | candidates of a table with unique identifiers have unique identifiers |
| Selection.DeactivatedNeverEligible | src/db.ts:204-206 | a deactivated identifier is never among the candidates |
| Selection.TwoItemsAlternate | src/db.ts:160-191 | two equally chosen items of a hub are served in turn: after one is picked, the next pick is the other |
| Store.DB.constructor | src/db.ts:39-99 | opening the store keeps the rows the tables already hold, and the row invariant holds when those rows meet it |
| Store.DB.UpdateCount | src/db.ts:145-158 | every row with the item's identifier gets the read count plus one; nothing else changes |
| Store.DB.SelectLeastChosen | src/db.ts:164-182 | no row iff the hub has no active row; otherwise the pick under some count ordering, an active row of the hub |
| Store.DB.GetData | src/db.ts:160-198 | the empty item and no change for a hub without active rows; otherwise the picked row as read, with the count update applied to the table |
| Store.DB.SetInactive | src/db.ts:200-215 | every row with the identifier becomes inactive; the table evolves |
| Store.DB.DeactivateData | src/db.ts:217-247 | the empty item and no change for an unknown identifier; otherwise the first row as read, with all its rows deactivated |
| Store.DB.AddData | src/db.ts:249-283 | exactly one active row with count 0, the new identifier and the timestamp is appended, for any hub identifier |
| Store.DB.CreateHub | src/db.ts:332-357 | exactly one active hub with the new identifier and the timestamp is appended |
| Store.DB.SetHubInactive | src/db.ts:285-298 | every hub with the identifier becomes inactive; data rows are untouched |
| Store.DB.DeactivateHub | src/db.ts:300-330 | the empty hub and no change for an unknown identifier; otherwise the hub as read, deactivated, with no cascade to its data |
| Store.PickedRow | src/db.ts:164-191 | the row `LIMIT 1 OFFSET` yields is an active row of the hub among the least-chosen half |
| Store.OrderingExists | src/db.ts:169 | `ORDER BY count ASC` always has an outcome |
| Store.PickKeepsCounts | src/db.ts:145-152 | with unique identifiers the count update of `getData` lowers no count |
| Store.DuplicateIdLowersCount | src/db.ts:149-151 | with a shared identifier the same update lowers another row's count |
| Store.DeactivateEvolvesAnyRows | src/db.ts:200-215 | deactivation touches only flags, for any table |
| DataHandler.TrimStartMeaning | src/dataHandler.ts:59 | `parseInt` skips exactly the leading white space |
| DataHandler.DigitPrefixMeaning | src/dataHandler.ts:59 | `parseInt` reads the longest digit run after the sign |
| DataHandler.ParseInt | src/dataHandler.ts:59 | `parseInt(s, 10)` is `NaN` exactly when no digit follows the leading white space and sign, and it is negative only after a `-` |
| DataHandler.ParseIntDecimal | src/dataHandler.ts:59 | `parseInt` reads back `${n}`, and so the default length as `sizeLimit + 1` |
| DataHandler.ParseIntSpacesAndSign | src/dataHandler.ts:59 | for any run of white space, no sign, `+` or `-`, and any text after the digits that does not start with a digit, `parseInt` reads `n` (`-n` after `-`) |
| DataHandler.ParseIntNoDigits | src/dataHandler.ts:59 | `<spaces><sign><u>` is `NaN` whenever `u` does not start with a digit, for any run of white space and any of no sign, `+` and `-` (so `"+x"`, `" x"` and `"-"` are `NaN`) |
| DataHandler.HeaderOr | src/dataHandler.ts:57-59 | `value \|\| fallback`: a missing or empty header is replaced by the fallback |
| DataHandler.FirstOverflowMeaning | src/dataHandler.ts:77-87 | the scan stops iff the total exceeds the limit, and then at the first chunk whose running total passes it |
| DataHandler.Stream | src/dataHandler.ts:73-89 | the loop fails at that first chunk, having read it and no further; otherwise it returns the joined chunks after reading them all |
| DataHandler.ReadBody | src/dataHandler.ts:53-91 | a success yields the joined chunks and the body fits the limit; the content-type error comes exactly when the type is not `text/plain` |
| DataHandler.GetString | src/dataHandler.ts:53-91 | the reader's result and the number of chunks it reads are those of the specification `ReadBody`/`ChunksRead` |
| DataHandler.ReadBodyOutcomes | src/dataHandler.ts:53-91 | the content type is checked first (a missing one fails), then the declared length before any chunk; it succeeds iff the bytes that arrive fit the limit, and then yields the joined chunks |
| DataHandler.MissingLengthRejected | src/dataHandler.ts:59-70 | a missing or empty `content-length` is refused as too much data, unread |
| DataHandler.UnparsableLengthStreams | src/dataHandler.ts:59-67 | any non-empty `content-length` that `parseInt` reads as `NaN` passes the declared-size check, so a text body then succeeds iff the bytes that arrive fit |
| DataHandler.JoinChunksAscii | src/dataHandler.ts:89 | the reader's text is ASCII |
| DataHandler.ValidateAdd | src/dataHandler.ts:127-130 | the result is the reader's error, or the bytes of the text it read with limit 1024 |
| DataHandler.AddPayloadRoundTrip | src/dataHandler.ts:127-130 | an accepted payload decodes back to the text that was read |
| DataHandler.ValidateDelete | src/dataHandler.ts:132-148 | the text read with limit 36 when it validates, otherwise `Error parsing data` |
| DataHandler.DeletePayloadOutcomes | src/dataHandler.ts:132-148 | every failure is `Error parsing data`; success iff the read succeeds and validates, yielding the joined body within 36 bytes |
| DataHandler.DeleteNeedsOneByteChunks | src/dataHandler.ts:132-148 | a body with a chunk of two or more bytes never passes `validateDelete` |
| DataHandler.DeletedIdsAreDigits | src/dataHandler.ts:132-148 | an identifier that passes `validateDelete` consists of digits only |
| DataHandler.OnGet | src/dataHandler.ts:103-120 | 302 with `Location` set to the content text iff the item is not the empty one; otherwise a bare 200 |
| DataHandler.OnAdd | src/dataHandler.ts:93-99 | 200 with the item's identifier as body |
| DataHandler.OnDelete | src/dataHandler.ts:122-125 | 200 with no body, whatever the item |
| RequestHandler.BeforeSlash | src/requestHandler.ts:53 | the text before the first `/`, which it does not contain |
| RequestHandler.Segment | src/requestHandler.ts:53 | `url.split('/')[1]` is missing iff the url has no `/`; otherwise it is the slash-free field after the first `/`, running to the next `/` or the end |
| RequestHandler.RouteOf | src/requestHandler.ts:39-62 | the base path exactly for the url `/create`; a hub path only for a url whose first field is the validated identifier |
| RequestHandler.BasePlan | src/requestHandler.ts:92-118 | a store call iff the method is `POST`; any immediate reply has no headers and status 200 or 405 |
| RequestHandler.HubPlan | src/requestHandler.ts:120-181 | an immediate reply has no headers and status 200, 405 or 500; no call creates a hub, and fetches and adds target the path's hub |
| RequestHandler.PlanOf | src/requestHandler.ts:33-66 | 404 `Invalid path` is answered exactly for an invalid route |
| RequestHandler.SetCors | src/requestHandler.ts:183-195 | the four CORS headers are added to the given headers |
| RequestHandler.RouteOutcomes | src/requestHandler.ts:39-62 | exactly the missing, empty, non-identifier urls and those over 1024 UTF-16 code units are invalid; a hub path's identifier is the validated first field |
| RequestHandler.InvalidPathAnswered | src/requestHandler.ts:39-62 | an invalid path gets 404 `Invalid path` and no store call |
| RequestHandler.NoSlashInvalid | src/requestHandler.ts:53-62 | a url without `/` is invalid, because the missing field is tested as `undefined` |
| RequestHandler.SegmentOfHubUrl | src/requestHandler.ts:53 | `/<id>` and `/<id>/<rest>` both yield `<id>` |
| RequestHandler.MintedHubRouted | src/requestHandler.ts:53-64 | a url `/<id>/<rest>` with an identifier minted by the service is routed to its hub iff it is within 1024 UTF-16 code units, and is an invalid path otherwise |
| RequestHandler.StoreCallsNeedValidRoute | src/requestHandler.ts:39-64 | only `POST /create` and hub paths with a valid identifier reach the store |
| RequestHandler.BasePathMethods | src/requestHandler.ts:92-118 | on `/create`, `POST` creates a hub, `OPTIONS` answers 200, and others get 405 `Not handled: <method>` |
| RequestHandler.HubPathMethods | src/requestHandler.ts:120-181 | `GET` fetches the path's hub; `PUT` stores the validated body there or answers 500 `Bad request`; `OPTIONS` gives 200; others get 405 with the method name |
| RequestHandler.DeleteTargetsBody | src/requestHandler.ts:149-166 | `DELETE` deactivates the identifier in the body, not the path's hub; a failed validation answers 500 `Bad request` |
| RequestHandler.RepliesHaveNoHeaders | src/requestHandler.ts:84-118 | responses sent without a store call carry no headers |
| RequestHandler.PerformedHeaders | src/requestHandler.ts:49-51 | no response carries a header other than `Location`, so never a CORS header |
| RequestHandler.HandleBase | src/requestHandler.ts:92-118 | carries out the base-path decision: one hub appended for `POST`, the tables unchanged otherwise |
| RequestHandler.HandleHub | src/requestHandler.ts:120-181 | carries out the hub-path decision: the validated store call with its response, or the immediate response with the tables unchanged |
| RequestHandler.Handle | src/requestHandler.ts:33-74 | the response and the tables are those of carrying out `PlanOf`; no CORS header is sent; the row invariant is kept |
| RequestHandler.FetchEvolves | src/requestHandler.ts:124-128 | with unique identifiers a `GET` lowers no count and reactivates nothing |
| RequestHandler.PerformedEvolves | src/requestHandler.ts:120-181 | with unique identifiers no request deletes a row, lowers a count or sets a flag back to 1 |

## Left out

- Store.DB.GetData: its contract does not promise that no count drops, because with a shared identifier the code can lower one. The promise is proved under unique identifiers instead (`Store.PickKeepsCounts`, `RequestHandler.PerformedEvolves`).
- `waitForStoreReady` (src/random.ts:58-77) is timer polling for concurrent callers. The refill is synchronous, so the pool is always ready between calls.
- `crypto.getRandomValues`, `nanoid`'s `customAlphabet` (`uuid()`), `Date.now()` and SQLite's `RANDOM()` are foreign. They become method parameters.
- A newly minted identifier is not checked to be new. Nor does the model assume it is: `Store.PickKeepsCounts` and the evolution lemmas take unique identifiers as a hypothesis.
- `ABS(RANDOM())` overflows on the smallest 64-bit integer. That input is not modelled, because `r` is a natural number.
- JavaScript numbers are doubles; `Random.Draw` and `parseInt` are modelled on integers. Fractional `min`/`max`, digits beyond 2^53 and `Infinity` are not modelled.
- Storage faults: the `Could not …` errors of src/db.ts and the 500 responses they would cause. In-memory tables do not fail.
- The type checks of `hub`/`dataItem` (src/db.ts:118-143) cannot fail on typed rows.
- Text encodings:
  - stored content is decoded byte by byte as ASCII, with other bytes as U+FFFD; since the reader's text is always ASCII, this matches UTF-8 on every body the service stores;
  - response bodies are the text `TextEncoder` would encode.
- `Headers` value validation and `console.log`/`console.error` are not modelled.
- `onGet` is not awaited (src/requestHandler.ts:126), so a rejection of its promise escapes the `try`. Its only await is `data.content.text()` (src/dataHandler.ts:109), modelled as a decoding that cannot fail.
- Stored content is modelled as `seq<byte>` from request to response. In the source, `validateAdd` returns a `Blob` (src/dataHandler.ts:127-130), which is passed to `addData` (src/requestHandler.ts:136-138) although that parameter is declared `Uint8Array` (src/requestHandler.ts:18, src/db.ts:249). The row read back is typed `Uint8Array` (src/db.ts:185-187), on which `onGet` calls `.text()`. The model assumes the SQLite binding stores the payload's bytes in the blob column unchanged and that `.text()` decodes those same bytes; how the binding treats a `Blob` is not part of this model.
- DataHandler.Stream: each chunk is modelled as an independent copy of the bytes it arrived with. Deno's `iter` (std io/util.ts, src/dataHandler.ts:2, 77) yields views of a single buffer that it refills, so for a body of several chunks the source's `data.join('')` renders every kept chunk from that buffer's final contents, not from the bytes that arrived. For single-chunk bodies the two agree. Byte counts, the stop-at-the-limit behaviour, success or failure, `DeleteNeedsOneByteChunks` and `DeletedIdsAreDigits` do not depend on chunk contents; the joined text of `ReadBody`, `AddPayload` and `DeletePayload` on multi-chunk bodies is what the model states differently from the source.
- `regexStr` (src/random.ts:113-116) only returns the pattern text, and nothing in src/ calls it (the only other mention is a doc comment in src/configure.ts:77).
- src/core.ts, src/sortition.ts, src/configure.ts and src/cliHelp.ts are not part of this model. They are the accept loop, CLI parsing and deployment templating. From core.ts, the model keeps the service's identifier length of 20 with the default alphabet.
