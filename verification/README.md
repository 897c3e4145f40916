# QuestDBRouter: a Dafny model of its routing, forwarding and merging core

QuestDBRouter is a sharding proxy. Rows arrive over the Influx line protocol (ILP), are placed
on a shard by the value of a tag, and are read back over the PostgreSQL protocol as if there
were one database. This project models the code that carries that promise and proves it:

- **Placement and lookup** (`Ring`, `Cluster`, `Sql`, `EndToEnd`): the consistent-hash ring with
  its failover stages, the health snapshot and its actor, shard-key extraction from WHERE
  clauses, and the end-to-end theorems that say exactly when a single-shard read and a fanned-out
  read equal the read of one database holding every accepted row.
- **The connection pool** (`Pool`): permits, idle lists, connects, invalidation and release as
  atomic steps of any number of tasks in any interleaving.
- **ILP framing and forwarding** (`IlpLine`, `Forward`): arbitrary read boundaries, per-shard
  buffers, threshold flushes and I/O failures refine "route each complete line and append it to
  that shard's stream".
- **Federated merge and wire decoding** (`DataRow`, `Columns`, `Federated`, `Scan`): the three
  DataRow decoders (section 55.7 "Message Formats" of the PostgreSQL 16 documentation), the fast
  columnar builder against the slow one, row merging, LIMIT pushdown, distributed aggregates and
  the AVG rewrite.
- **Text round trips and bounded state** (`InlineParams`, `TradeLine`, `Ingest`, `StreamState`):
  placeholder inlining and literal quoting, trade lines, checkpointing across crashes, the
  outbound frame queue and the replay window.

`Bytes`, `Utf8` and `Decimal` hold the byte-string operations, UTF-8 validity and lossy
decoding, and decimal numerals that the rest is written in.

`dafny verify dfyconfig.toml` checks the whole project.

## How the source is modelled

- Text is a sequence of bytes. UTF-8 validity and lossy decoding are written out; a Rust `str`
  is a byte string that is valid.
- `HashRing::get` is a list of virtual nodes and an arbitrary deterministic choice among them,
  one for the plain key and one for each salted probe. Every hash function is an instance.
- Float parsing and printing, whitespace trimming, JSON, Arrow types and the shards' own ILP
  ingestion are parameters, constrained only where a result needs it (a printed number reads
  back, JSON reads back what it wrote, a shard stores an escape-free tag as a column). Sums and
  means are exact reals.
- Connects, writes, flushes, fetches and file operations succeed or fail at will; every contract
  holds for all such behaviours. The snapshot may change before any line: every line carries the
  routing it met.
- Objects that the source updates in place are classes; their methods are proved against
  functions or state machines over which the theorems range.
- Loops over Rust's unordered maps visit keys in an arbitrary order.

The end-to-end theorems assume what the code needs:

- the queried table has no shard-key override (the write path honours it,
  src/protocol/ilp_forward.rs:72-75, SQL planning ignores it, src/routing/sql.rs:222);
- the value compared with the shard key is a string literal or a bound placeholder, and inlining
  the parameters (src/protocol/pg_hook.rs:171-175) leaves every token of the statement and every
  value put in its place as it should be: exactly the sound comparands (`Sql.ComparandSoundIff`)
  and exactly the statements that reach the shard as meant (`InlineParams.StatementInlinesIff`);
- lines that become rows of the queried table are single lines without a backslash in measurement
  or tags, and not tagless lines whose second field bears the key's name: from
  `trades price=1,symbol="x" 1` the scanner takes the key `"x"`, quotes and all
  (src/routing/keys.rs:35-40);
- shards store such a line under its measurement, its key tag as the column of that name;
- for fan-out results, configured shard ids are distinct.

Places where the code does less than a reader might expect are stated as results, each with the
exact condition under which the code does meet the expectation:

- Keyed reads miss rows written during failover: `EndToEnd.FailoverRowIsMissed`; exactly when,
  `EndToEnd.ReadCompleteIff`.
- Full scans miss rows on shards that are up on ILP and down on PG: `EndToEnd.FullScanMissesRow`;
  exactly when, `EndToEnd.FullScanCompleteIff`.
- Identifiers, numbers, booleans and placeholders that are unbound or spelled otherwise than `$1`
  misroute: `Sql.ComparandSoundIff`.
- A bound value can take over the clause it is compared in: `Sql.BoundValueTakesOver`,
  `InlineParams.ValueBecomesSql`; exactly when values and literals read back,
  `InlineParams.ParameterReadsBackIff` and `InlineParams.StringReadsBackIff`.
- Inlining corrupts overlong placeholders and rewrites some values:
  `InlineParams.OverlongIsCorrupted`, `InlineParams.DollarValueIsRewritten`; exactly when,
  `InlineParams.InlineIsSimultaneousIff`.
- The row decoders part after a truncated cell: `DataRow.TruncatedRowsDiffer`; exactly when,
  `DataRow.DecodersAgreeIff` and `Columns.FastEqualsSlowIff`.
- COUNT is empty instead of zero when no shard has the table: `Federated.MergedIsAggregate`.
- Objects are fetched by key from one bucket whatever bucket a message names, and marked under the
  message's: `Ingest.ForeignBucketIsSkipped`; exactly when a skipped object is the delivered one,
  `Ingest.SkippedWasForwarded`.
- The AVG rewrite drops OVER, FILTER and DISTINCT: `Scan.AverageIsMeantIff`. The other aggregates
  are read from the first cell, so behind a wildcard they are misread: `Scan.AggregateQuery`.
- A NUL in a bucket name lets one checkpoint entry hide another object:
  `Ingest.NulBucketHidesObject`; exactly when, `Ingest.EncodeCollidesIff`.
- A checkpoint file named `.tmp` is not saved atomically: `Ingest.PersistIsAtomicIff`.
- The readers never unescape: `TradeLine.TradeReadsBackIff` and `TradeLine.TradeKeyIsSymbolIff`.
- A disconnect leaves its topic channel behind: `StreamState.FreedIff`. A removal can cut off those
  who subscribe between its two steps: `StreamState.CutsOffIff`.

## Model

| member | source | states |
|---|---|---|
| `Ring.EffectiveVNodeCount` | src/routing/ring.rs:103-105 | the saturating 32-bit product of weight and virtual nodes, each at least one, is positive, equals the true product when that fits and the 32-bit maximum otherwise |
| `Ring.FromShards` | src/routing/ring.rs:19-34 | the nested filling loops build the ring of the configured shards' virtual nodes |
| `Ring.VNodesExactly` | src/routing/ring.rs:21-28 | a virtual node is on the ring if and only if some configured shard contributes it |
| `Ring.GetIsConfigured` | src/routing/ring.rs:50-58 | whatever the hash, a lookup on a ring with shards lands on a configured shard |
| `Ring.ShardByKeyFiltered` | src/routing/ring.rs:70-96 | the probe loop with its early returns computes the three-stage lookup |
| `Ring.LookupIsFirstPreferred` | src/routing/ring.rs:60-96 | primary, salted probes and lowest id together are one fixed preference list per key, and lookup takes its first allowed entry |
| `Ring.PreferenceIs` | src/routing/ring.rs:70-96 | that list has the primary, one probe for each virtual node on the ring, and every distinct configured id, in this order |
| `Ring.CandidateDecides` | src/routing/ring.rs:82-91 | for every number of probes up to that of the virtual nodes: when the primary and all earlier probes land on excluded shards and this one does not, its shard is the answer |
| `Ring.LowestOnlyLast` | src/routing/ring.rs:92-96 | when the primary and all those probes are excluded, the answer is an allowed shard of lowest id, if there is any |
| `Ring.LookupTotal` | src/routing/ring.rs:70-96 | lookup succeeds if and only if some configured shard is allowed, and its result is an allowed configured shard |
| `Ring.FailoverMinimalDisruption` | src/routing/ring.rs:60-96 | when more shards are excluded, a key whose shard is still allowed keeps it |
| `Ring.RecoveryMovesOnlyToRecovered` | src/routing/ring.rs:60-96 | when shards recover, a key keeps its shard or moves to a recovered one |
| `Ring.PrimaryWins` | src/routing/ring.rs:77-81 | an allowed primary is always the answer |
| `Cluster.ShardForKeySucceedsIff` | src/metadata/snapshot.rs:67-111 | with exclusion on, routing a key succeeds if and only if the number of configured shards reported up for the protocol is at least one and at least min_healthy_shards, and the result is one that is up; a refusal carries both numbers, or the key |
| `Cluster.DefaultShardSucceedsIff` | src/metadata/snapshot.rs:90-155 | the default shard exists under the same condition as keyed routing, and is the first healthy one in configuration order |
| `Cluster.HealthIsLastReport` | src/metadata/actor.rs:94-150 | after any reports every configured shard has an entry, equal to its last report or healthy if it had none |
| `Cluster.AlwaysIsLastReport` | src/metadata/actor.rs:112-150 | the same for the fold that always publishes |
| `Cluster.SameHealthRoutesAlike` | src/metadata/snapshot.rs:67-142 | routing, healthy ids and counts depend on health entries only through what they say of configured shards |
| `Cluster.SkipUnchangedIsInvisible` | src/metadata/actor.rs:112-150 | skipping unchanged reports routes exactly like always updating, over every report sequence |
| `Cluster.MetadataActor.constructor` | src/metadata/actor.rs:63-92 | starts from a snapshot with every configured shard healthy |
| `Cluster.MetadataActor.OnReport` | src/metadata/actor.rs:112-150 | one report updates the published snapshot as the specification says |
| `Cluster.MetadataActor.Run` | src/metadata/actor.rs:94-110 | the message loop publishes the fold of its mailbox |
| `Sql.KeyIsFirstPin` | src/routing/sql.rs:265-294 | the recursive extraction returns the first matching equality over the flattened top-level AND conjuncts, at any depth |
| `Sql.ComparisonKeys` | src/routing/sql.rs:296-338 | whichever side the column is on and however it is qualified and cased, a comparison is routed by its string, by its number as written, by `true` or `false`, and not by NULL |
| `Sql.OtherComparisons` | src/routing/sql.rs:265-306 | other operators, and equalities that do not name the column on either side, give no key |
| `Sql.UnboundIsRoutedByTable` | src/routing/router.rs:51-66 | a placeholder past the bound parameters, or no key at all, is routed by the name of the table |
| `Sql.ReceivedIsBoundIff` | src/protocol/pg_hook.rs:171-175 | for every expression and all values: the text that reaches the shard is that of the expression with its parameters bound if and only if no token and no value is rewritten on the way |
| `Sql.WhereSoundness` | src/routing/sql.rs:265-325 | under three-valued logic and at any depth, every row that the bound clause accepts has exactly the extracted key, when the comparand is a string literal or bound parameter |
| `Sql.ComparandSoundIff` | src/routing/sql.rs:307-344 | for every comparand a key is extracted from: whatever the shard makes of a rewritten text, all rows it accepts have the routed key if and only if the comparand is a string literal or a placeholder `$1` to `$n` and nothing is rewritten |
| `Sql.TrueConjuncts` | src/routing/sql.rs:265-294 | a true conjunction makes every flattened conjunct true |
| `Sql.IdentifierComparandMisroutes` | src/routing/sql.rs:319-322 | comparing the key column with any column, itself included, is routed by the column's name, which a matching row need not have as its key |
| `Sql.BoundValueTakesOver` | src/protocol/pg_hook.rs:171-175 | for every column: a query routed by the text `$1` whose values turn its clause into one that every row with a key satisfies |
| `Sql.PositionalPlaceholder` | src/routing/sql.rs:340-344 | the placeholder printed for position n is read back as index n-1 |
| `Sql.MarkedPlaceholder` | src/routing/sql.rs:340-344 | the same after any run of `$` and `:` |
| `Sql.SignedPlaceholder` | src/routing/sql.rs:340-344 | the same behind a plus sign, and `$0` is no index |
| `IlpLine.ScanTags` | src/routing/keys.rs:38-52 | the scanner's loop finds the first tag of that name |
| `IlpLine.ShardKeyFromIlp` | src/routing/keys.rs:29-55 | the fast scanner computes the shard key |
| `IlpLine.MeasurementIs` | src/routing/keys.rs:5-19 | the table of a line is its text up to the first comma, space or newline |
| `IlpLine.CollectTags` | src/stream/row.rs:36-53 | the tag loop collects the tags of all pieces that have an equals sign |
| `IlpLine.CollectFields` | src/stream/row.rs:60-85 | the field loop collects the fields that parse |
| `IlpLine.ParseIlpRow` | src/stream/row.rs:22-96 | the row parser as the source runs it |
| `IlpLine.IntegerReadsBack` | src/stream/row.rs:102-113 | a printed integer field, either sign, reads back if it fits 64 signed bits; larger ones are refused |
| `IlpLine.PlusReadsBack` | src/stream/row.rs:110-113 | with a plus sign too |
| `IlpLine.BooleanWords` | src/stream/row.rs:114-121 | exactly four words are true and four are false |
| `IlpLine.NamesAgree` | src/routing/keys.rs:62-66 | strict and lossy name comparison agree for any tag name free of U+FFFD |
| `Utf8.EncodedLeads` | src/routing/keys.rs:62-66 | every encoded scalar value is recognised whole, whatever follows it |
| `Utf8.LeadsAreEncoded` | src/routing/keys.rs:62-66 | and whatever is recognised is the shortest encoding of a scalar value: no overlong forms, no surrogates |
| `Utf8.WhiteSpaceIsSpace` | src/routing/dialect.rs:105-107 | trimming takes exactly the characters with the Unicode property White_Space |
| `Bytes.EqIgnoreCaseIff` | src/routing/keys.rs:62-66 | names match if and only if they have the same bytes up to the case of ASCII letters |
| `IlpLine.KeyAgreesWithRow` | src/routing/keys.rs:29-55 | on every line the parser accepts, ill-formed UTF-8 included, the scanned key is the first parsed tag of that name in any case, or the tag's name |
| `IlpLine.TopicIsShardKey` | src/stream/topic.rs:8-21 | a stream topic made of the shard-key tag alone is the shard key |
| `IlpLine.TopicSplits` | src/stream/topic.rs:8-21 | for any list of tags whose values hold no `@`, cutting the topic at `@` gives in tag order each tag's value, or the configured word for a missing one |
| `Forward.LinesAppend` | src/protocol/ilp.rs:38-49 | cutting lines early and carrying the rest over loses and invents nothing |
| `Forward.LinesAndRemainder` | src/protocol/ilp.rs:44-47 | the cut lines and the unfinished tail are the input, and each of the lines ends in its only newline |
| `Forward.FramingIgnoresChunks` | src/protocol/ilp.rs:38-52 | lines and tail after any sequence of reads depend only on the concatenated bytes |
| `Forward.ChunkingIndependence` | src/protocol/ilp.rs:38-52 | equal bytes in different chunks give every shard an equal stream |
| `Forward.ForwardedIsConcat` | src/protocol/ilp_forward.rs:92-95 | of complete lines a shard is sent the plain concatenation of those that are not blank and are routed to it |
| `Forward.BatchArrivesAsLines` | src/protocol/ilp_forward.rs:92-95 | of lines without newlines a shard is sent bytes that cut into exactly those routed to it, each ended by one newline, with nothing left over |
| `Forward.OverriddenTable` | src/protocol/ilp_forward.rs:71-76 | a line of a table with a shard key of its own is routed by the tag of that name |
| `Forward.DefaultTable` | src/routing/schema.rs:30-35 | every other line by the default tag |
| `Forward.IlpForwarder.constructor` | src/protocol/ilp_forward.rs:32-37 | starts with nothing accepted and nothing written |
| `Forward.IlpForwarder.WriteOut` | src/protocol/ilp_forward.rs:99-102 | writes a whole buffer, or fails after some part; other shards are untouched and what arrived is a prefix of what was accepted |
| `Forward.IlpForwarder.Buffer` | src/protocol/ilp_forward.rs:80-102 | connects if needed, appends, and writes out a buffer exactly when it holds 256 KiB: written plus buffered is always what was accepted |
| `Forward.IlpForwarder.RouteAndBuffer` | src/protocol/ilp_forward.rs:58-106 | accepts exactly the routed line with its newline; blank lines and unroutable lines send nothing |
| `Forward.IlpForwarder.Flush` | src/protocol/ilp_forward.rs:123-132 | on success every shard has received everything accepted for it; a write or a flush of any stream may fail |
| `Forward.IlpForwarder.ForwardLines` | src/protocol/ilp_forward.rs:117-119 | accepts the lines in order, each routed by the snapshot of its moment, up to the first failure; success means every line had a shard |
| `Forward.IlpForwarder.ForwardBatch` | src/protocol/ilp_forward.rs:111-121 | on success every shard received what was accepted before and then its lines of the batch, each where the snapshot of its moment sent it; on failure only a prefix is accepted |
| `Forward.SplitLine` | src/protocol/ilp.rs:44-45 | cuts off the first complete line, or finds none |
| `Forward.DrainLines` | src/protocol/ilp.rs:44-47 | the inner loop forwards the complete lines, each by the snapshot of its moment, and leaves the tail |
| `Forward.OnChunk` | src/protocol/ilp.rs:44-49 | one turn of the read loop, flush included |
| `Forward.HandleConnection` | src/protocol/ilp.rs:28-56 | with the snapshot changing before any line: on a normal end each shard received the plain concatenation of those complete lines of the input that are not blank and are routed to it; on any failure, a prefix of that |
| `Forward.UnroutableSendsNothing` | src/protocol/ilp_forward.rs:76-76 | while one snapshot is in force, if any line cannot be routed none can, so nothing is sent |
| `EndToEnd.PlacedWasAccepted` | src/protocol/ilp_forward.rs:65-77 | every stored line was accepted at some write, by the snapshot the reports before it make |
| `EndToEnd.AcceptedIsPlaced` | src/protocol/ilp_forward.rs:65-77 | and every accepted write stays stored where it went |
| `EndToEnd.PlacedLines` | src/protocol/ilp_forward.rs:58-95 | the lines a run of writes and health reports stores on a shard are, in order, those its writes route there |
| `EndToEnd.ServeRun` | src/protocol/ilp.rs:28-56 | a connection carrying the writes of a run, in any chunks, delivers to every shard the concatenation of exactly the lines the run stores on it |
| `EndToEnd.SelectedRowHasKey` | src/routing/sql.rs:265-325 | a row selected by the query was written with the key the query is routed by |
| `EndToEnd.AnswersAsMeant` | src/protocol/pg_hook.rs:171-175 | a statement that inlines cleanly is answered as the bound query |
| `EndToEnd.ReadCompleteIff` | src/metadata/snapshot.rs:104-111 | for every run and every keyed query that inlines cleanly: shard s, routed to, answers what one database holding every accepted row returns to the bound query, in order, if and only if at every write of a selected row the key was routed to s or the write was refused |
| `EndToEnd.ReadCompleteness` | src/metadata/snapshot.rs:104-111 | so the single-shard read is complete whenever the key's primary is up on ILP at those writes and on PG at the read, whatever else happens |
| `EndToEnd.StaysHealthyIsUp` | src/metadata/actor.rs:94-150 | a primary that every report calls healthy is up at all those moments |
| `EndToEnd.UnionIsOneDatabase` | src/federated/mod.rs:99-151 | all shards together hold each accepted row exactly once |
| `EndToEnd.FanOutCompleteIff` | src/federated/mod.rs:99-151 | a query sent to any set of shards answers like the one database if and only if it includes the shard of every selected row |
| `EndToEnd.FullScanCompleteIff` | src/app/state.rs:118-122 | for every run: the fan-out to the shards healthy on PG now answers like the one database if and only if each accepted selected write went to one of them |
| `EndToEnd.SingleShardEqualsFanOutIff` | src/routing/router.rs:36-71 | the read of one shard equals the fan-out if and only if every selected row on an asked shard is on that one |
| `EndToEnd.SingleShardEqualsFanOut` | src/routing/router.rs:36-71 | with the primary up at the moments that matter, keyed read, fan-out and one database agree |
| `EndToEnd.FailoverRowIsMissed` | src/routing/ring.rs:68-69 | for every key and cluster: a row written while its primary is down sits elsewhere and the read after recovery goes to the primary, or too few shards were left and the write was refused |
| `EndToEnd.FullScanMissesRow` | src/federated/mod.rs:103-106 | for every cluster with enough other shards: a row on a shard that then fails on PG only is missing from a full scan that reports no error |
| `Pool.IdleLists.constructor` | src/pool/pg.rs:26-41 | starts with no idle clients and a capacity of at least one |
| `Pool.IdleLists.Pop` | src/pool/pg.rs:64-67 | takes the newest idle client of that shard and touches no other |
| `Pool.IdleLists.Release` | src/pool/pg.rs:107-113 | appends the client unless the list is full |
| `Pool.ConnectionBound` | src/pool/pg.rs:49-79 | under every interleaving, idle clients plus tasks past the pop never exceed max(1, max_per_shard) on any shard |
| `Pool.PermitIsThereIff` | src/pool/pg.rs:49-79 | in every reachable state a waiting task can take a permit if and only if fewer than max(1, max_per_shard) hold one, and a task with a permit gets the newest idle client or, only when there is none, connects |
| `Pool.ReleaseNeverDiscards` | src/pool/pg.rs:107-113 | the capacity guard never discards a live client: it always gets back on its list |
| `Pool.LiveClientsAccounted` | src/pool/pg.rs:136-154 | under every interleaving, each client that was opened and not invalidated is idle on its own shard or held: none is lost between release and permit |
| `Pool.LiveBound` | src/pool/pg.rs:49-79 | the connections open to a shard, idle or in use, never exceed max(1, max_per_shard) |
| `Pool.ConnectsOnlyBelowCapacity` | src/pool/pg.rs:142-154 | a task with a permit and no idle client opens a connection only while fewer than the maximum are open to that shard |
| `Pool.ClientOwnership` | src/pool/pg.rs:64-78 | each connection has at most one holder or idle slot, on its own shard |
| `Pool.InvalidatedNeverReturns` | src/pool/pg.rs:136-154 | an invalidated connection is never idle or held again, whatever follows |
| `DataRow.I32RoundTrip` | src/federated/pg_types.rs:101-105 | a big-endian signed 32-bit length reads back |
| `DataRow.DecodeRowCellRefs` | src/federated/pg_types.rs:98-115 | the slice decoder's loop computes its specification on every byte string |
| `DataRow.DecodeRowCells` | src/federated/pg_types.rs:117-143 | the counting decoder's loop computes its specification on every byte string |
| `DataRow.CellsF64` | src/federated/arrow.rs:110-131 | is parse-after-trim mapped over the counting decoder, malformed rows included |
| `DataRow.RefsRoundTrip` | src/federated/pg_types.rs:98-115 | encoding any nullable cells and slice-decoding returns them |
| `DataRow.CellsRoundTrip` | src/federated/pg_types.rs:117-143 | encoding any nullable cells and count-decoding returns them, padded with NULLs |
| `DataRow.DecodersAgree` | src/federated/pg_types.rs:98-143 | on every byte string the two decoders agree wherever both give a cell |
| `DataRow.DecodersAgreeIff` | src/federated/pg_types.rs:98-143 | on every byte string the decoders agree on a cell, missing ones read as NULL, if and only if no cell before it is truncated or the bytes behind the truncated one decode to no text there |
| `DataRow.RowsAgreeIff` | src/federated/pg_types.rs:98-143 | whole rows decode alike if and only if every cell does |
| `DataRow.WellFramedIsReliable` | src/federated/pg_types.rs:98-143 | in particular rows without a truncated cell decode alike |
| `DataRow.EncodedIsWellFramed` | src/federated/pg_types.rs:98-143 | encoded rows have no truncated cell |
| `DataRow.FirstCellIsCells` | src/federated/arrow.rs:86-101 | the first-cell reader is the one-column decoder |
| `DataRow.TruncatedRowsDiffer` | src/federated/pg_types.rs:117-143 | after a truncated cell the counting decoder goes on at a wrong offset and reports a cell the other does not |
| `Columns.BuildPgFieldIndex` | src/federated/pg_types.rs:89-96 | the index loop computes the field index |
| `Columns.FieldIndexIsLastMatch` | src/federated/pg_types.rs:89-96 | of duplicate names in any case the last one wins, and only names that occur are indexed |
| `Columns.BatchByName` | src/federated/pg_types.rs:208-233 | told by names alone: every schema column holds cell i of each row and the type of field i, for the last field i that bears its name in any case; NULLs and its own type if no field does |
| `Columns.PushRow` | src/federated/pg_types.rs:208-221 | one decoded row adds to every column the cell at the position its name has in the index, NULL past the end or without one |
| `Columns.CollectColumns` | src/federated/pg_types.rs:196-222 | the row loop collects in every column the cells of the last field of that name in any case |
| `Columns.FastBatch` | src/federated/pg_types.rs:196-233 | the fast builder gives each schema column the cells and the type of the last field that bears its name, and NULLs of its own type if none does |
| `Columns.FastEqualsSlowIff` | src/federated/pg_types.rs:153-233 | on every list of wire rows the fast builder equals the slow one, column by column, if and only if each row decodes alike at the positions the schema reads |
| `Columns.FastRefinesSlow` | src/federated/pg_types.rs:153-233 | in particular on rows without a truncated cell |
| `Columns.BothBuilders` | src/federated/pg_types.rs:145-233 | decode-then-build and build-from-wire, run on the same rows, give the same batch under exactly that condition, and each puts under every name the cells of the last field that bears it |
| `Federated.Absorb` | src/federated/mod.rs:159-187 | one response is checked and appended as the specification says |
| `Federated.MergeQueryResponses` | src/federated/mod.rs:153-196 | the nested loops with their early errors compute the merge of all responses in shard order |
| `Federated.MergeSucceedsIff` | src/federated/mod.rs:153-196 | merging succeeds if and only if column counts agree and the rows fit max_rows, and then gives every row once in shard order |
| `Federated.LimitPushdown` | src/federated/provider.rs:45-77 | the first n rows of the concatenated per-shard prefixes are the first n of the full concatenation, and all of it if it is shorter |
| `Federated.LimitedIs` | src/federated/provider.rs:45-60 | of each shard a pushed limit keeps the first n rows, or all |
| `Federated.MergeScalarAggregate` | src/federated/mod.rs:198-227 | the accumulating loops combine the first cells of all rows |
| `Federated.ReadsPartials` | src/federated/mod.rs:198-227 | the router reads exactly the non-NULL partial results off the wire |
| `Federated.SumsAgree` | src/federated/mod.rs:198-227 | partial sums add up to the sum over the union |
| `Federated.CountsAgree` | src/federated/mod.rs:198-227 | partial counts add up to the count over the union |
| `Federated.MinimaAgree` | src/federated/mod.rs:198-227 | the least partial minimum is the minimum over the union |
| `Federated.MaximaAgree` | src/federated/mod.rs:198-227 | the greatest partial maximum is the maximum over the union |
| `Federated.PartialsMerge` | src/federated/mod.rs:198-227 | partial results combine to the aggregate over the union if and only if it is no COUNT or some shard has the table |
| `Federated.MergedIsAggregate` | src/federated/mod.rs:198-227 | the same read off the wire, for every partition, empty and missing shares included |
| `Scan.DetectBareAggregate` | src/routing/sql.rs:379-406 | a bare aggregate is found if and only if the ungrouped projection is one recognised aggregate among wildcards; it is an error if and only if an unrecognised or second function comes before any other item; a single function is recognised as min, max, sum, count or avg if and only if that is its name in any case |
| `Scan.KindByName` | src/routing/sql.rs:408-417 | the five names, in any case and no others, are told apart |
| `Scan.RewriteAvg` | src/federated/scan.rs:45-82 | the rewrite loop uses the last AVG of the projection and keeps the rest of the query |
| `Scan.RewriteOfBareAvg` | src/federated/scan.rs:45-95 | a detected AVG, wildcards beside it or not, is rewritten to SUM and COUNT of its first argument if and only if that is an expression |
| `Scan.MergeAvg` | src/federated/mod.rs:267-293 | the loop divides total sum by total count, and is empty when no row has both or the count is zero |
| `Scan.ReadsPairs` | src/federated/mod.rs:267-293 | the pairs read off the wire total the sum and count over all shards |
| `Scan.AverageQuery` | src/federated/scan.rs:21-43 | detection, rewrite, fan-out, decoding and merge together: a query for one average gets the mean over the union, modifier or not, empty exactly when there is no non-NULL value, or is refused exactly when its argument is not an expression |
| `Scan.AverageIsMeantIff` | src/federated/scan.rs:59-80 | that mean is what the client asked for if and only if the AVG had no OVER, FILTER or DISTINCT for the rewrite to drop |
| `Scan.ReadsFirsts` | src/federated/arrow.rs:86-108 | the router reads exactly the first cell of each shard's answer |
| `Scan.AggregateQuery` | src/federated/scan.rs:41-43 | detection, fan-out and merge of COUNT, SUM, MIN and MAX: an unmodified aggregate that comes first gives the aggregate over the union if and only if it is no COUNT or some shard has the table; by name, `min(e)` alone is the least and `max(e)` the greatest non-NULL value of e over all rows of all shards that pass the WHERE clause, `sum(e)` their total, `count(e)` their number, `count(*)` the number of those rows; behind a wildcard the wildcard's cells are merged |
| `Scan.MergedByName` | src/federated/mod.rs:198-227 | the merged value of an unmodified aggregate, by its name |
| `Scan.StarCounts` | src/federated/mod.rs:198-227 | the merged value of `count(*)`, empty when no shard has the table |
| `InlineParams.InlineSqlParams` | src/protocol/pg_backend.rs:116-128 | the reverse loop of global replacements computes its specification |
| `InlineParams.InlineIsLongestMatch` | src/protocol/pg_backend.rs:116-128 | for all values: the sequence of replacements is one left-to-right pass that takes the longest index after each dollar sign and inserts its literal with the lower indices replaced inside it |
| `InlineParams.LongestIsSimultaneousIff` | src/protocol/pg_backend.rs:116-128 | that pass is simultaneous substitution if and only if no digit run overshoots and every literal the text names comes out unchanged |
| `InlineParams.InlineIsSimultaneousIff` | src/protocol/pg_backend.rs:116-128 | for all texts and values: the loop substitutes all placeholders at once if and only if no digit run overshoots the parameter count while its first digit names a parameter, and no value the text refers to by index j has a dollar sign followed by an index below j |
| `InlineParams.OverlongIsCorrupted` | src/protocol/pg_backend.rs:116-128 | with one parameter of any value `$12` is corrupted |
| `InlineParams.DollarValueIsRewritten` | src/protocol/pg_backend.rs:116-128 | a value that is itself `$1` is rewritten by a later replacement |
| `InlineParams.ParseSqlStringLiteral` | src/routing/dialect.rs:105-123 | trims white space, then the character loop reads a quoted literal with doubled quotes |
| `InlineParams.InlinedValueReadsBack` | src/routing/dialect.rs:105-123 | an inlined value reads back exactly behind any white space and before any text, unless it is a spelling of NULL |
| `InlineParams.TokenInlinesIff` | src/protocol/pg_backend.rs:116-128 | a token is sent as bound if and only if no index follows a dollar sign in it, or, for a placeholder, no lower index in its value |
| `InlineParams.StatementInlinesIff` | src/protocol/pg_hook.rs:171-175 | for every statement and all values: the shard receives it with each placeholder token replaced by its literal and nothing else changed if and only if every token is so |
| `InlineParams.ParameterReadsBackIff` | src/protocol/pg_backend.rs:116-128 | in place of a placeholder the shard reads the bound value if and only if no lower index follows a dollar sign in the value |
| `InlineParams.StringReadsBackIff` | src/protocol/pg_backend.rs:116-128 | a string literal of the statement reads back if and only if no index of a parameter follows a dollar sign in it |
| `InlineParams.ValueBecomesSql` | src/protocol/pg_backend.rs:116-128 | with the second value `$1`, the placeholder `$2` becomes an empty string, the first value as bare SQL, and an empty string |
| `Ingest.EncodeCollidesIff` | src/ingest/checkpoint.rs:14-16 | two objects share a checkpoint entry if and only if they are one object or one's bucket runs through a NUL into the other's key |
| `Ingest.EncodeInjective` | src/ingest/checkpoint.rs:14-16 | without NULs in bucket names entries are per object |
| `Ingest.PersistIsAtomicIff` | src/ingest/checkpoint.rs:89-100 | a crash anywhere in `persist`, the first save included, leaves the whole old or whole new map if and only if the checkpoint file is not itself named `.tmp` |
| `Ingest.OpenStore` | src/ingest/checkpoint.rs:40-53 | loads what the file holds, missing or blank meaning empty; fails exactly when there is a file that is not blank and does not parse |
| `Ingest.CheckpointStore.Persist` | src/ingest/checkpoint.rs:89-100 | success is write-then-rename; failure leaves the files as they were or a torn temporary file |
| `Ingest.CheckpointStore.MarkProcessed` | src/ingest/checkpoint.rs:66-82 | the entry is in memory even when saving fails |
| `Ingest.SkippedIffLastMarkMatches` | src/ingest/checkpoint.rs:55-64 | an object is skipped if and only if its etag is known and equals that of its latest mark |
| `Ingest.SkippedWasForwarded` | src/ingest/actor.rs:128-132 | in every reachable state, crashes and restarts included, the last delivery for a skipped object sent the whole content its key has in the configured bucket, every line had a shard under the snapshot it met, and every shard holds its part; it was the object itself if and only if the message named that bucket and the stored etag |
| `Ingest.ForeignBucketIsSkipped` | src/ingest/actor.rs:179-180 | for every configuration: a reachable state in which an object of another bucket is skipped though nothing of it was ever fetched |
| `Ingest.RepeatForwardsNothing` | src/ingest/actor.rs:113-132 | receiving an object changes nothing at all if and only if it repeats the last successful etag |
| `Ingest.SavedMarksSurvive` | src/ingest/checkpoint.rs:89-100 | what was saved is never lost by any later step, crashes included |
| `Ingest.ReloadIsSavedPrefix` | src/ingest/checkpoint.rs:40-53 | a reload always succeeds and yields the fold of the saved marks: a complete earlier or current map |
| `Ingest.NulBucketHidesObject` | src/ingest/checkpoint.rs:14-16 | with a NUL in a bucket name one object's entry hides another that was never sent |
| `Ingest.Spawn` | src/ingest/actor.rs:60-86 | a start is the machine's restart from the files a stopped process left, and fails exactly when the checkpoint does not load |
| `Ingest.IngestActor.FetchDecodeForward` | src/ingest/actor.rs:172-186 | success means the non-empty content of the message's key in the configured bucket, whatever etag it has there, every line routed by the snapshot of its moment and every shard holding its part in one piece, whatever earlier failed attempts left in the buffers |
| `Ingest.IngestActor.Attempt` | src/ingest/actor.rs:136-141 | one turn of the retry loop is one step of the machine |
| `Ingest.IngestActor.Checkpoint` | src/ingest/actor.rs:142-147 | marking follows delivery; a failed save keeps the mark in memory only |
| `Ingest.IngestActor.Retry` | src/ingest/actor.rs:135-169 | between one and three attempts, each meeting its own snapshots, and three before giving up; at most one delivery, and a mark if and only if one delivered |
| `Ingest.IngestActor.ProcessObject` | src/ingest/actor.rs:113-170 | skips without any effect or attempt, or tries between one and three times; every execution is a run of the machine |
| `TradeLine.EscapeTagIsOnePass` | src/ingest/nautilus.rs:114-120 | the chain of replacements is one pass that puts a backslash before each special byte |
| `TradeLine.EscapeStringIsOnePass` | src/ingest/nautilus.rs:122-124 | the same for string fields |
| `TradeLine.EscapeTagRoundTrip` | src/ingest/nautilus.rs:114-120 | reading backslash escapes gives the tag back |
| `TradeLine.EscapeTagInjective` | src/ingest/nautilus.rs:114-120 | distinct tags stay distinct |
| `TradeLine.EscapeStringRoundTrip` | src/ingest/nautilus.rs:122-124 | reading backslash escapes gives the string back |
| `TradeLine.ParsedRowHasNoSeparators` | src/stream/row.rs:22-96 | on every line the parser accepts, no measurement, tag value or string field holds a separator |
| `TradeLine.TradeReadsBackIff` | src/ingest/nautilus.rs:164-174 | parsing a formatted trade recovers measurement, both tags, the four fields under their names, the aggressor's word and the timestamp if and only if nothing in it needed escaping, the trade id has no comma and the timestamp fits i64 |
| `TradeLine.TradeKeyIsSymbolIff` | src/routing/keys.rs:29-55 | for every table name: a trade is sharded by its own symbol if and only if the symbol needs no escaping and has no newline, unless the table name itself holds a comma or newline and decides the key |
| `StreamState.QueueOverAllRuns` | src/stream/ws.rs:276-288 | over every interleaving of enqueues and pops: the queue is the newest at most 256 frames, every other frame was sent in order or dropped and not both, the newest 256 are never dropped, and the counts add up |
| `StreamState.OutboundQueue.constructor` | src/stream/ws.rs:59-60 | starts empty |
| `StreamState.OutboundQueue.EnqueueFrame` | src/stream/ws.rs:276-288 | appends, dropping the oldest frame when full |
| `StreamState.OutboundQueue.PopFrame` | src/stream/ws.rs:193-196 | takes the oldest queued frame, the next one in enqueue order that was not dropped |
| `StreamState.OutboundQueue.DrainToSocket` | src/stream/ws.rs:192-206 | sends the queue in order, or up to the frame at which the socket fails |
| `StreamState.WindowIsSuffix` | src/stream/hub.rs:116-131 | over every run the hub keeps of each live channel the last `window` rows of its full record |
| `StreamState.RecordedIs` | src/stream/hub.rs:116-127 | that full record is, in order, exactly the rows sent to the topic since its last removal at moments when it had more subscribers than drops, both told from the operations alone |
| `StreamState.ReplayIsLastRecorded` | src/stream/hub.rs:168-181 | `replay(topic, n)` is the last min(n, window) of the rows sent since the last removal while someone was listening |
| `StreamState.FreedIff` | src/stream/hub.rs:187-197 | undisturbed, unsubscribing frees a topic if and only if no other receiver is left, and a disconnect, which removes while its receiver is held, changes nothing |
| `StreamState.CutsOffIff` | src/stream/hub.rs:188-193 | a removal that saw no receiver removes a channel with receivers if and only if more have subscribed than dropped between its two steps |
| `StreamState.BroadcastHub.constructor` | src/stream/hub.rs:36-46 | starts with no topics |
| `StreamState.BroadcastHub.SendToTopic` | src/stream/hub.rs:116-131 | push and trimming loop record the row on a channel that has receivers |
| `StreamState.BroadcastHub.SubscribeTo` | src/stream/hub.rs:148-154 | creates the channel if needed and adds a receiver |
| `StreamState.BroadcastHub.SeesNoReceivers` | src/stream/hub.rs:188-191 | the look: is there a channel without receivers |
| `StreamState.BroadcastHub.Remove` | src/stream/hub.rs:191-193 | the removal, for a call whose look saw none: the channel goes, whatever it has become |
| `StreamState.BroadcastHub.ReplayRows` | src/stream/hub.rs:168-181 | returns the last min(n, window) of the rows sent to the topic since its last removal while someone was listening |

## Left out

- Planning beyond single-shard reads and bare aggregates (`plan_query`'s Join, GroupBy, FullScan and ORDER BY cases): a dispatch on the query's shape that would add only easy members.
- The text search of `dialect.rs` for SAMPLE BY and LATEST ON: a substring heuristic that cannot see OR or nested text; only its literal reader is modelled.
- What OVER, FILTER and DISTINCT mean, which is left to the shards, and the mean-of-means branch of the scalar merge, which the aggregate scan never reaches.
- Floating-point rounding and the formatting of merged values; sums and means are exact reals.
- Typed Arrow arrays (`build_array`, dates, timestamps, bytea): the builders are compared on the cell values and types they pass on.
- Escaped tags and fields taken for tags in the queried table, per-table shard keys on the SQL side, and duplicate shard ids in the configuration are outside the end-to-end theorems.
- Cancellation of a waiting pool task is one step; a cancelled connect is the same step as a failed one.
- Quote lines (`format_quote_line`): the same layout with four float fields.
- `drain_subscriptions` with its deduplication by tick identity and lag counting, and the `wildcard_subscribers` counter, which repeated control messages change freely.
- `processed_at` timestamps of checkpoint entries, which nothing reads.
- Hash quality and load balance across shards.
- Migration of rows after failover, which the router does not do.
- HTTP, WebSocket and PostgreSQL listeners, S3 fetching, Feather decoding, metrics, logging, configuration, scripts and the web frontend.
