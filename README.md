# Kraken trade history to TimescaleDB: a Dafny model

The program (`main.go`) copies the public trade history of one Kraken spot
pair into a PostgreSQL/TimescaleDB table. At start-up it upper-cases the
configured name and looks it up among the canonical pair names, then among
the alternate names. It derives the database and table name
(`<lower-case input>_kraken_trades`) from the input. On a fresh table it
starts from cursor 0. On an existing table it resumes from the `time` of
the row with the highest `trade_id`.

It then loops. Each pass:
- fetches the page of trades at the cursor;
- decodes every positional record `[price, volume, time, side, type, misc, id]`;
- sends one batch of INSERTs followed by a row count;
- stops when the page does not hold 1000 records.

Otherwise it parses the page's `last` marker with `strconv.ParseInt(s, 0, 64)`, adds one, sleeps `tradesRateLimit` (3 s), and goes round again. Before the loop it prints a completion estimate in days, hours and minutes.

The model:

| module | file | models |
|---|---|---|
| `Wrappers` | wrappers.dfy | `Option` and `Result` |
| `Ascii` | ascii.dfy | `strings.ToUpper` and `strings.ToLower` on ASCII |
| `Int64` | int64.dfy | Go's int64 wrap-around and truncating division |
| `StrConv` | strconv.dfy | `strconv.ParseInt(s, 0, 64)` and `strconv.Itoa` |
| `Pairs` | pairs.dfy | `PairExists`, the three-way pair resolution, the table name |
| `Trades` | trades.dfy | the JSON values and the decode step of `insertTradesToDb` |
| `Store` | store.dfy | the batch, and the two values read back from an existing table |
| `Sync` | sync.dfy | one pass of the loop, the loop itself, and its trace of fetches, batches and sleeps |
| `Eta` | eta.dfy | the arithmetic of `estCompletionTime` |
| `MapKeys` | mapkeys.dfy | `Keys` |
| `Ingest` | ingest.dfy | `main` from the catalog fetch on |

How the parts outside the model enter it:
- **Trade-history endpoint.** It is a function from the pair and the cursor of a request to the decoded response body. `None` stands for a failed `http.Get` or body read. The loop always asks it for the session's pair, and each `Fetch` event records the pair and the cursor that go into the request URL.
- **Float conversions.** They are function parameters (`FloatOps`). The two that produce an int64 return `Int64.I64`, the int64 range as a subset type, so trade times, trade ids, the resume cursor and the estimate base always lie in that range.
- **Existing table.** It is `Option<seq<Trade>>`: `None` means the table does not exist.
- **Observable effects.** The loop's fetches, batches and sleeps are a trace of `Event`s.
- **Fatal stops.** A panic or `log.Fatal` becomes an `Aborted` status that says which check failed.

**Loop termination.** The program's loop has no bound. The loop method therefore takes a ghost `fuel` and requires that the loop's specification (`Sync.Run`) ends within it. `Sync.IterateFuel` shows that the fuel only bounds the proof: with more fuel, a finished run is the same run.

**One loop model for two loops.** The two copies of the loop in `main` differ only in their start cursor, so `Sync.SyncLoop` models both. Its source cells cite the first copy (`main.go:124-139`); the second copy (`main.go:147-162`) is the same code line by line.

What the code does at three points where a reader might expect otherwise:
- **Resume cursor.** An existing table resumes from the stored `time` of the highest-id row, not from one past the highest trade id (`Store.ResumeIsNotNextId`).
- **Stopping rule.** Any page that does not hold 1000 records ends the loop after it is inserted. A three-record first page therefore means one fetch and no second request (`Sync.ShortPageStops`).
- **Record length.** A record longer than seven fields is accepted: the program only indexes fields 0-6.

## Model

| member | source | states |
|---|---|---|
| Ascii.ToUpper | main.go:51 | same length; each lower-case ASCII letter becomes its capital; every other character is unchanged |
| Ascii.ToLower | main.go:52 | same length; each capital becomes lower-case; every other character is unchanged |
| Ascii.LowerOfUpper | main.go:51-52 | lower-casing the upper-cased input is lower-casing the input itself |
| Int64.Wrap | main.go:182-183 | the result is an int64, congruent to the input modulo 2^64, and equal to it when it is in range |
| Int64.Inc | main.go:134 | `querySince + 1` is v + 1, except at the maximum int64, where it wraps to the minimum |
| Int64.Quot | main.go:183-186 | Go's division by a positive divisor; the remainder is nonnegative below b for a >= 0, and nonpositive above -b for a < 0 |
| StrConv.Digits | main.go:133 | the digit string has a value exactly when every character is a digit of the base |
| StrConv.SplitRadix | main.go:133 | base 0 picks base 2, 8, 16 or 10; it is 10 exactly when the first character is not '0'; it is 2 (16) exactly on a "0b"/"0B" ("0x"/"0X") prefix of a string of at least three characters, whose digits follow the prefix; it is 8 on a "0o"/"0O" prefix of such a string, digits after the prefix, or else on a lone leading '0', digits after the '0' |
| StrConv.ParseUint | main.go:133 | no value for the empty string; a value is at most 2^64 - 1 |
| StrConv.ParseInt | main.go:133-137 | every accepted value is an int64; the empty string is rejected |
| StrConv.Itoa | main.go:247 | definition: a minus sign before the decimal digits of a negative cursor; its round trip through ParseInt is StrConv.ParseItoa |
| StrConv.Decimal | main.go:247 | a nonempty string of decimal digits with no leading zero |
| StrConv.DigitsOfDecimal | main.go:247 | the decimal digits of n read back as n |
| StrConv.ParseUintDecimal | main.go:247 | ParseUint reads back any decimal it could have printed |
| StrConv.ParseItoa | main.go:247 | every int64 cursor printed by Itoa parses back to itself |
| StrConv.LeadingZeroIsOctal | main.go:133 | the marker "010" parses as 8 |
| StrConv.HexMarker | main.go:133 | the marker "0x1F" parses as 31 |
| StrConv.SignsAlone | main.go:133-137 | "-" and "+" alone are rejected (log.Fatal); "-0" is 0 |
| StrConv.RangeLimits | main.go:133-137 | one past either end of the int64 range is rejected |
| Pairs.IndexOf | main.go:267-274 | -1 exactly when the input is absent; otherwise the least index holding it |
| Pairs.PairExists | main.go:267-274 | the loop with early return: -1 iff absent, otherwise the first matching index |
| Pairs.Resolve | main.go:53-60 | a canonical name is kept; otherwise the first alternate-name match is replaced by the canonical name at the same index; otherwise the name is kept and reported not found, without aborting |
| Pairs.Configure | main.go:51-60 | definition of the start-up configuration; its properties are Pairs.TableFromInput and Pairs.AltNameKeepsTable |
| Pairs.TableFromInput | main.go:76 | the table is the lower-cased input plus "_kraken_trades", whatever the resolution; the resolution is of the upper-cased input |
| Pairs.AltNameKeepsTable | main.go:51-60 | "xbtusd" resolves to XXBTZUSD through its alternate name but writes to "xbtusd_kraken_trades" |
| Trades.DecodeRecord | main.go:196-209 | succeeds exactly on a well-formed record; a non-array fails; on success the fields come from indices 0-6, with side, type and misc copied verbatim |
| Trades.DecodeAll | main.go:195-211 | succeeds iff every record decodes; keeps length and order, record by record |
| Trades.DecodeAllFirstError | main.go:195-205 | a failing page fails with the error of its first bad record |
| Trades.DecodePage | main.go:193-211 | the decode loop yields the page's decoding |
| Trades.DecodeSample | main.go:196-209 | a sample record decodes field by field |
| Store.InsertBatch | main.go:215-220 | definition of a page's batch; its properties are Store.BatchInsertsPage and Store.BuildBatch |
| Store.BatchInsertsPage | main.go:215-220 | the batch inserts exactly the page's trades in order; it has one more query than trades; it ends with the single count query and has no other |
| Store.BuildBatch | main.go:215-220 | the queue loop yields one INSERT per trade, in order, then the count query |
| Store.HighestIdRow | main.go:143 | a row whose trade id no row exceeds |
| Store.ResumeCursor | main.go:143 | 0 on an empty table (the Scan error is ignored); otherwise the time of a row with the highest trade id |
| Store.LastTradeId | main.go:144-145 | 0 on an empty table; otherwise a stored trade id that no row exceeds |
| Store.ResumeIsNotNextId | main.go:143-145 | an existing table resumes from a stored time, not from the highest id plus one |
| Sync.ResultAt | main.go:246-262 | definition: the request for the session's pair at the cursor; a failed request or read aborts, and a body without a "result" object aborts; its properties are Sync.RunRequests and Sync.RunCursors |
| Sync.PageAt | main.go:125-126 | definition: the array under the pair in "result", else an abort; its properties are Sync.RunStore and Sync.ShortPageStops |
| Sync.NextCursorAt | main.go:133-137 | definition: the "last" marker parsed by ParseInt plus one, else an abort; its properties are Sync.MarkerPlusOne and Sync.RunCursors |
| Sync.MarkerPlusOne | main.go:133-134 | a marker that Itoa would print for v gives the next cursor v + 1 |
| Sync.RoundAt | main.go:124-138 | one pass has a fetch, then the batch, which is left out exactly when the page could not be read or decoded, then a sleep exactly when the loop goes on; it goes on iff the page is written, full and its marker parses; it stops caught up iff the page is written and not full |
| Sync.Iterate | main.go:124-139 | definition of the loop over a round function, bounded by fuel; its properties are Sync.IterateCursors, Sync.IterateStore, Sync.IteratePacing, Sync.IterateEndsWithBatch, Sync.IterateRequests and Sync.IterateFuel |
| Sync.Run | main.go:124-139 | definition of a session's loop; its properties are Sync.RunCursors, Sync.RunStore, Sync.RunPacing, Sync.RunEndsWithBatch and Sync.RunRequests, and Sync.SyncLoop computes it |
| Sync.IterateCursors | main.go:124-139 | the first fetch is at the start cursor; each pass continues to the next fetched cursor; the last stops with the run's status |
| Sync.IterateStore | main.go:125-128 | a run adds the passes' trades in fetch order, which is exactly what its batches insert |
| Sync.IteratePacing | main.go:129-138 | fetches start the trace; sleeps = fetches - 1; each sleep lasts tradesRateLimit and is followed by a fetch; every later fetch follows a sleep; none ends the trace |
| Sync.IterateEndsWithBatch | main.go:128-132 | a caught-up run ends on the batch of its last page |
| Sync.IterateRequests | main.go:125 | over well-shaped rounds, every request of a run is for the rounds' pair |
| Sync.IterateLastRound | main.go:124-139 | a run's events end with the events of the pass at its last fetched cursor |
| Sync.IterateFuel | main.go:124 | a run that ends within some fuel ends the same way with more |
| Sync.RunCursors | main.go:129-134 | every fetch but the last was a full decodable page whose marker plus one is the next cursor; the last is not; caught up iff the last page was written and not full |
| Sync.RunLastRequest | main.go:125-128 | a run's last event is the request for its last cursor, with no batch after it, exactly when that page could not be read or decoded |
| Sync.RunStore | main.go:125-128 | the rows added are the decoded pages in fetch order and are what the batches insert |
| Sync.RunPacing | main.go:129-138 | exactly one sleep of tradesRateLimit between consecutive fetches, none after the last |
| Sync.RunRequests | main.go:246-247 | every request a session's loop makes names the session's pair |
| Sync.RunEndsWithBatch | main.go:128-132 | the final short page, even an empty one, is inserted before the loop stops |
| Sync.ShortPageStops | main.go:128-132 | a written page that is not full ends the loop: one fetch, its batch, caught up |
| Sync.FullPageContinues | main.go:128-138 | a full page whose marker parses gives fetch, batch, sleep, then the run from the marker plus one |
| Sync.ResumesStep | main.go:124-139 | one pass keeps "done so far, then the rest, is the whole run", or ends the run with its outcome |
| Sync.PageRound | main.go:125-138 | the loop body computes the pass at the cursor |
| Sync.SyncLoop | main.go:124-139 | the loop's rows are the stored rows followed by the run's trades; its trace and status are the run's |
| Eta.TradesLeft | main.go:182 | the int64 difference, exact when it does not overflow |
| Eta.TotalSeconds | main.go:183 | the estimate in seconds is an int64 |
| Eta.TotalSecondsExact | main.go:183 | without overflow, the estimate is 3 * (trades left) / 1000, rounded down |
| Eta.TotalSecondsWraps | main.go:183 | 4,000,000,000 trades left overflow the product and give a negative estimate |
| Eta.EstCompletion | main.go:182-186 | definition of the printed estimate, which Ingest.Ingest reports; its properties are Eta.Decompose, Eta.DecomposeUnique, Eta.TotalSecondsExact and Eta.TotalSecondsWraps |
| Eta.Decompose | main.go:184-186 | for t >= 0: 0 <= hours < 24; 0 <= minutes < 60; covered seconds <= t < covered + 60. For t < 0: the same bounds mirrored, each field <= 0 |
| Eta.DecomposeUnique | main.go:184-186 | for t >= 0 the printed split is the only one within those bounds |
| MapKeys.Keys | main.go:236-244 | as many keys as map entries, exactly the map's keys, each once, in no promised order |
| Ingest.StartCursor | main.go:122-143 | definition: cursor 0 for a new table, otherwise Store.ResumeCursor; Ingest.Ingest states where the first request goes |
| Ingest.EstimateBase | main.go:123-146 | definition: 0 for a new table, otherwise Store.LastTradeId; Ingest.Ingest states the base it passes |
| Ingest.Ingest | main.go:43-186 | the configuration is derived from the raw input. Every request of the loop is for the resolved pair. Fresh table: fetching starts at 0, the estimate base is 0, and the table holds the decoded pages in fetch order. Existing table: fetching starts at the resume cursor, the estimate base is the highest stored id, and the old rows are followed by the pages. The printed estimate is the one for the upstream's newest id and that base. Trace and status are the run's |

## Left out

- HTTP and JSON decoding (`GetKrakenTrades`, `GetKrakenSpotPairs`, the request in `estCompletionTime`): network I/O. The endpoint is a function from pair and cursor to response body, and the catalog is the two slices.
- Database access through pgx: connecting, the table-exists query, table and hypertable creation, sending the batch and the batch's errors. These are foreign calls. The table is a sequence of rows, and a sent batch always succeeds.
- `godotenv`, `os.Getenv`, the "Press Enter" read from stdin, and all logging: configuration and terminal I/O.
- `time.Sleep`: recorded as a `Sleep` event with its duration, without wall time.
- `strconv.ParseFloat`, `t * 10^9` and the float-to-int64 conversions: floating point. They are opaque parameters.
- Eta.TotalSeconds: the newest upstream trade id comes in as an int64 parameter, because reading it needs HTTP and a float64 conversion. Ingest.Ingest takes it the same way.
- StrConv.ParseInt: underscores between digits, which base 0 accepts, are not modelled; such a marker is rejected.
- Ascii.ToUpper: only ASCII letters change case; Go's Unicode case mapping is not modelled.
- Ascii.ToLower: the same ASCII-only restriction as Ascii.ToUpper.
- Ascii.LowerOfUpper: holds on the ASCII model only. With Go's Unicode mapping, strings.ToLower(strings.ToUpper("ſ")) is "s" while strings.ToLower("ſ") is "ſ".
- Pairs.TableFromInput: the table name is stated as ToLower of the raw input, which relies on Ascii.LowerOfUpper and so holds for ASCII input only.
- Store.ResumeCursor: among rows that share the highest trade id, which row's time is read depends on the database. The model picks one such row and promises only that.
- MapKeys.Keys: Go's map iteration order is unspecified, so no order is promised. The order of the two catalog slices is not modelled either, beyond their index-by-index alignment.
- Ingest.Ingest: assumes that `GetKrakenSpotPairs` and the request in `estCompletionTime` return normally. In the program, `estCompletionTime` runs before the first loop fetch and can stop `main` by `log.Fatal` (main.go:170, main.go:178) or by a panic when the body has no `result` or no record under the pair (main.go:182); those exits are not modelled.
- Sync.SyncLoop: a loop that never stops (an upstream serving full pages forever) is outside the fuel bound.
- The exact panic and `log.Fatal` messages are collapsed into the `Failure` and `DecodeError` values.
- After a failed ParseInt, Go still executes `querySince + 1` before `log.Fatal`. The model stops at the failure, because the value is never used.
