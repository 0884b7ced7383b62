# Verification of pgshard's routing, resharding and failover protocols

pgshard is a sharded PostgreSQL data plane. This project models the parts of it whose
correctness is a statement about every input or every interleaving, and proves those
statements in Dafny.

* **Keyspace.** Key ranges, even splits, partition validation, the hexadecimal bound
  printer and parser, the shard catalog, and replacing one shard by several.
  (`Keyspace`, `KeyText`, `Catalog`, `Reshard`)
* **Reshard seeding.** The snapshot copy in COPY text format, the `pgoutput` decoder, the
  key-range filter, the exactly-once applier with its progress row, and the worker's
  streaming loop. The main results say that every target of a reshard holds exactly the
  source's rows of its range, in every run of any number of workers with crashes, in-doubt
  commits and redelivery. (`Rows`, `Messages`, `Unicode`, `Scalar`, `ScalarText`, `Filter`,
  `FilterExact`, `CopyText`, `PgOutput`, `PgRoundTrip`, `PgExact`, `PgDecoder`, `Apply`,
  `ExactlyOnce`, `Refinement`, `Seeding`, `Stream`, `SeedingRuns`, `StreamLease`, `CatchUp`,
  `SeedCopy`, `WholeReshard`, `Runner`, `XidHorizon`, `Registry`)
* **Write fence.** The agent's admission barrier interleaved with PostgreSQL backends. (`Fence`)
* **Planner.** Shard-key extraction and routing over a small SQL tree with three-valued
  logic. (`Sql`, `Plan`, `Statements`, `Routing`, `Placement`, `RoutingExact`)
* **Buffering gate.** The gate engine as a transition system and as a vector with in-place
  removal. (`Gate`, `GateLaws`, `GateEngine`)
* **Failover.** Identity fencing, election, the durable handshake over whole runs, and the
  agent's epoch guard. (`Failover`, `FailoverRuns`, `FailoverExact`, `FailoverLoops`, `Epoch`)
* **Sequences and the write lease.** (`Sequence`, `Lease`, `LeaseOrder`)

Operations that change state are classes and methods with loops, proved against functions;
concurrent protocols are state machines whose runs are sequences of states and actions. The
shard hash is an arbitrary function everywhere, clocks are numbers passed in, and network or
database outcomes (success, failure, lost reply, crash) are chosen by the run.

Four statements one might expect turn out to be false of the code, and are replaced by what
is true:

* A column alias list in a FROM clause can give the shard key's name to another column
  (`FROM orders AS o(amount, customer_id)`). The planner still reads it as the key, and such a
  SELECT loses rows (`Routing.AliasedKeyLosesRows`, `Routing.OrdersMisread`).
  `Routing.LosesNothingIffNotMisread` is the exact condition.
* A parameterized read and the same read with literals differ when a key value is not of the
  key's type: at Bind it is refused, as a literal it is scattered.
  `Routing.BoundSelectIsLiteral` is the exact condition; writes agree always.
* An armed gate is not always released once its generation is applied: closed again for a
  generation already applied, it waits for the next topology or its deadline
  (`Gate.ClosedAgainIsLeft`). `Gate.NothingDueLeft` says that this is the only way.
* An announcement that confirms a new epoch can go uninstalled when an older one is announced
  after it and before the router swaps (`LeaseOrder.StaleAnnouncementLoses`).
  `LeaseOrder.LosesNothingIffSteady` says exactly which orders of announcements are safe. The
  latest announcement itself is never lost (`Lease.DrainedIsRenewed`).

The exactly-once result assumes neither the stream lease (the session advisory lock of one
live applier per consumer) nor the server's slot lock. With the lease, a target that has not
diverged never trips the one-row check (`StreamLease.UndivergedNeverTrips`); what the lease
prevents is shown by a run without it (`ExactlyOnce.OvertakenWorkerTrips`).

`dafny verify dfyconfig.toml` checks the whole project.

## Model

| member | source | states |
|---|---|---|
| `Keyspace.NewRange` | crates/pgshard-core/src/keyspace.rs:35-42 | a range is accepted exactly when it holds at least one id |
| `Keyspace.IntersectsIffSharedId` | crates/pgshard-core/src/keyspace.rs:52-63 | the interval test for intersection holds exactly when some id is in both ranges |
| `Keyspace.OffsetIsFloor` | crates/pgshard-core/src/keyspace.rs:68-90 | the offset of part i is the floor of i times the width over the part count |
| `Keyspace.SplitEvenly` | crates/pgshard-core/src/keyspace.rs:68-90 | accepted exactly for 1 to width parts; part i starts at the floored offset, the parts are non-empty and contiguous, they cover exactly the range, and their widths differ by at most one |
| `Keyspace.ValidatePartition` | crates/pgshard-core/src/keyspace.rs:170-190 | accepts exactly the start-ordered lists that own every id once; an error names the place where that fails |
| `Keyspace.PartitionIffTiles` | crates/pgshard-core/src/keyspace.rs:170-190 | the adjacency conditions the loop checks are equivalent to owning every id exactly once, in order |
| `KeyText.ParseFormatBound` | crates/pgshard-core/src/keyspace.rs:96-120 | parsing the printed form of any 64-bit bound gives it back |
| `KeyText.FormatParseBound` | crates/pgshard-core/src/keyspace.rs:96-120 | printing a parsed trimmed spelling gives the same text |
| `KeyText.ParseBoundIff` | crates/pgshard-core/src/keyspace.rs:105-120 | a text parses to a value exactly when it is at most eight bytes of lower-case hex that, filled up with zero bytes, are the sixteen digits of the value |
| `KeyText.FromStrDisplay` | crates/pgshard-core/src/keyspace.rs:122-149 | a printed range parses back to itself, open ends included |
| `KeyText.FromStrIff` | crates/pgshard-core/src/keyspace.rs:135-150 | a text parses to a range exactly when it is two bounds around a dash, the second left out for an open end, and the range is not empty |
| `KeyText.CanonicalIffPrinted` | crates/pgshard-topo/src/model.rs:226-235 | a bound string is canonical exactly when it is the printed form of some value, and then it denotes that value |
| `KeyText.CanonicalIffTrimmed` | crates/pgshard-topo/src/model.rs:226-235 | canonical strings are exactly the lower-case, even-length, zero-trimmed hexadecimal strings of at most sixteen digits |
| `KeyText.IntoRangeIffPrinted` | crates/pgshard-topo/src/model.rs:202-220 | a pair of bound strings is accepted exactly when it is the printed form of a valid range, and gives that range back |
| `Catalog.NewCatalog` | crates/pgshard-plan/src/catalog.rs:33-37 | a catalog is built exactly from lists that partition the keyspace in order |
| `Catalog.RouteTotalAndUnique` | crates/pgshard-plan/src/catalog.rs:41-48 | in a validated catalog every id is found, and no other shard contains it |
| `Catalog.RouteOf` | crates/pgshard-plan/src/catalog.rs:41-48 | an id routes to the shard whose range contains it |
| `Reshard.ValidateReshardPartition` | operator/internal/controller/reshard.go:39-70 | accepts exactly two or more ranges that together own every id of the source once and nothing else, in any order |
| `Reshard.ReplaceKeepsPartition` | operator/internal/controller/reshard.go:39-70 | replacing a shard of a valid partition by accepted targets, sorted by start, is a valid partition |
| `Reshard.ReplaceReroutes` | operator/internal/controller/reshard.go:39-70 | after the replacement ids outside the source route as before, and ids of the source route to the target that owns them |
| `Scalar.CoerceIdempotent` | crates/pgshard-core/src/shardfn.rs:39-96 | coercing a coerced value changes nothing, for every type |
| `Scalar.IntSpellingsAgree` | crates/pgshard-core/src/shardfn.rs:39-60 | an integer's text and its 16, 32 and 64-bit forms coerce to one canonical value |
| `ScalarText.IntTextIff` | crates/pgshard-core/src/shardfn.rs:58-60 | a text is an integer key exactly when it is, inside white space, an optional sign, zeros and the decimal digits of a 64-bit value |
| `ScalarText.UuidTextIff` | crates/pgshard-core/src/shardfn.rs:66-82 | a text is a UUID key exactly when it is, inside white space, the 32 hexadecimal digits of its bytes in either case, with hyphens anywhere, in braces or not |
| `ScalarText.ByteaTextIff` | crates/pgshard-core/src/shardfn.rs:87-96 | a text is a byte-string key exactly when it is a backslash, an x and the hexadecimal digits of the bytes in either case |
| `ScalarText.HyphensVanish` | crates/pgshard-core/src/shardfn.rs:66-82 | a hyphen anywhere changes nothing, and nothing else is dropped |
| `Unicode.Utf8Iff` | crates/pgshard-repl/src/filter.rs:82 | bytes pass the UTF-8 test exactly when they encode Unicode scalar values, one after the other |
| `FilterExact.KeptIff` | crates/pgshard-repl/src/filter.rs:70-136 | a row is kept exactly when its key column is UTF-8 text that spells a key whose id lies in the range, skipped exactly when it spells one outside, and refused exactly when it spells none |
| `CopyText.CopyFieldUnescape` | crates/pgshard-repl/src/copy.rs:255-282 | the index loop computes the field decoding that `UnescapeEscape` inverts |
| `CopyText.UnescapeEscape` | crates/pgshard-repl/src/copy.rs:255-282 | decoding a field undoes encoding it, for every nullable byte string |
| `CopyText.EscapedIsNotNull` | crates/pgshard-repl/src/copy.rs:255-258 | no value, backslash-N included, is encoded as the NULL marker |
| `CopyText.RowRoundTrip` | crates/pgshard-repl/src/copy.rs:234-249 | a row of nullable values read back from its line is the row written |
| `CopyText.RowInRange` | crates/pgshard-repl/src/copy.rs:234-249 | the row test computes the decision on the line, each error included |
| `CopyText.DecisionOnRow` | crates/pgshard-repl/src/copy.rs:234-249 | the decision on an encoded row is the decision on its shard-key value |
| `CopyText.StreamFiltered` | crates/pgshard-repl/src/copy.rs:189-230 | for every cut into chunks, the rows sent, their count and the error are those of the whole byte stream |
| `CopyText.CopyForwardsInRange` | crates/pgshard-repl/src/copy.rs:189-230 | for every table with routable keys and every cut, exactly the in-range rows are forwarded, in order and byte for byte |
| `CopyText.UnroutableFails` | crates/pgshard-repl/src/copy.rs:189-249 | a table with an unroutable key is never copied as if complete |
| `CopyText.CutOffFails` | crates/pgshard-repl/src/copy.rs:223-227 | a copy cut off inside a line is never taken for complete |
| `PgOutput.FromToBe` | crates/pgshard-repl/src/pgoutput.rs:639-666 | big-endian reading inverts big-endian writing at every width |
| `PgOutput.TupleAt` | crates/pgshard-repl/src/pgoutput.rs:555-569 | an encoded tuple at any position reads back as itself and ends where its bytes end |
| `PgDecoder.Reader.TakeBytes` | crates/pgshard-repl/src/pgoutput.rs:621-633 | a read stays within the frame, or fails with its offset and length |
| `PgDecoder.Reader.Cstr` | crates/pgshard-repl/src/pgoutput.rs:677-689 | reads to the first zero byte, requires UTF-8, and fails otherwise |
| `PgDecoder.Reader.TupleData` | crates/pgshard-repl/src/pgoutput.rs:555-569 | the column loop reads the specified tuple or fails with its first error |
| `PgDecoder.Reader.RelationColumns` | crates/pgshard-repl/src/pgoutput.rs:395-406 | the column loop of a relation message reads the specified columns or fails with its first error |
| `PgDecoder.DecodeUpdate` | crates/pgshard-repl/src/pgoutput.rs:437-457 | reads the optional old image and the new image, or reports the wrong marker |
| `PgDecoder.Decoder.Decode` | crates/pgshard-repl/src/pgoutput.rs:304-347 | decodes a frame, moves the stream bracket only if the whole frame is accepted, and leaves it unchanged on an error |
| `PgRoundTrip.DecodeEncode` | crates/pgshard-repl/src/pgoutput.rs:304-569 | decoding the standard layout of any well-formed message, with any flag byte that says the same, returns it, inside and outside a streamed transaction |
| `PgRoundTrip.DecodeAllEncoded` | crates/pgshard-repl/src/pgoutput.rs:304-347 | every sequence of well-formed messages decodes to itself |
| `PgRoundTrip.PrefixExactlyInStream` | crates/pgshard-repl/src/pgoutput.rs:304-347 | on any frames, rejected ones included, an accepted change has a transaction id exactly when the last accepted stream marker before it is a start |
| `PgExact.DecodesIffLaid` | crates/pgshard-repl/src/pgoutput.rs:304-569 | a frame decodes to a message if and only if it is a layout of that message: nothing is added, missing, left over or read another way |
| `PgExact.StreamDecodesIff` | crates/pgshard-repl/src/pgoutput.rs:304-347 | over any frames, rejected ones among them, each is accepted as a message exactly when it lays that message out under the bracket then open |
| `Apply.Applier.constructor` | crates/pgshard-repl/src/apply.rs:185-211 | the checkpoint and acknowledgement loaded from the stored progress row |
| `Apply.Applier.Handle` | crates/pgshard-repl/src/apply.rs:230-303 | a row change is buffered or refused without touching the target, a relation is remembered, a begin empties the buffer, streamed and prepared messages are refused, and only a commit writes |
| `Apply.BufferedAlike` | crates/pgshard-repl/src/apply.rs:261-291 | a change is addressed by its key image, in its place by the full old image, and an update with neither by its new row; a delete with neither is refused |
| `Apply.Applier.BuildStatements` | crates/pgshard-repl/src/apply.rs:318-344 | every statement is built, or the first failure is returned, before the target is touched |
| `Apply.Applier.ApplyCommit` | crates/pgshard-repl/src/apply.rs:305-386 | a redelivered commit is skipped; otherwise rows and progress change together or not at all, and an error leaves the in-memory checkpoint and acknowledgement alone even when the commit landed and its reply was lost |
| `ExactlyOnce.SignedOrder` | crates/pgshard-repl/src/apply.rs:364-372 | two positions stored as signed 64-bit integers compare as they do unsigned exactly when both are on the same side of the sign boundary |
| `ExactlyOnce.StepKeeps` | crates/pgshard-repl/src/apply.rs:305-386 | every step of the protocol keeps the invariant tying rows, progress, slot and workers |
| `ExactlyOnce.ExactlyOnceAlways` | crates/pgshard-repl/src/apply.rs:305-386 | in every run the durable rows are the fold of exactly the transactions at or below the durable progress row |
| `ExactlyOnce.ProgressNeverFalls` | crates/pgshard-repl/src/apply.rs:357-379 | the progress row never moves back, in any step of any run |
| `ExactlyOnce.SlotNeverPassesDurable` | crates/pgshard-repl/src/client.rs:409-427 | no reported flush position and no slot position passes the last durable transaction's end, reports never decrease, and every unapplied transaction stays re-sendable |
| `ExactlyOnce.JournalBarrier` | crates/pgshard-agent/src/workflow.rs:1104-1230 | once a journal position is shown, its transaction and all committed before it are durable |
| `ExactlyOnce.CasMeansNext` | crates/pgshard-repl/src/apply.rs:357-379 | the compare-and-set succeeds only for the next transaction after the durable ones |
| `Refinement.CommitIsAPath` | crates/pgshard-repl/src/apply.rs:305-386 | every outcome of the applier's commit is a path of the protocol's actions that leaves the target and the worker as the commit does |
| `Refinement.WorkerCommitIsAPath` | crates/pgshard-agent/src/workflow.rs:1219-1230 | so is the worker's commit with its confirm, report and journal; after a failed one nothing was reported or shown |
| `Seeding.RunnerDecides` | crates/pgshard-agent/src/workflow.rs:1160-1210 | once a change's own table was announced, the runner takes the change exactly when its shard key was shipped, its keys are routable and it does not cross the range boundary, and forwards exactly the in-range ones |
| `Seeding.StatementTracks` | crates/pgshard-agent/src/workflow.rs:1160-1210 | the statement of an in-range change succeeds on the range's rows and gives the range's rows after it |
| `Seeding.SkipTracks` | crates/pgshard-agent/src/workflow.rs:1160-1210 | a skipped change does not touch the range's rows |
| `Stream.TellKnows` | crates/pgshard-agent/src/workflow.rs:1116-1159 | an announcement of a table as it is is accepted, makes the table known, and changes nothing known before |
| `Stream.TakenIffFilterable` | crates/pgshard-agent/src/workflow.rs:1116-1159 | an announcement is taken exactly when the table is mapped, the first column with the key's name exists, its type oid is allowed for the declared type, and a default or index identity covers it; then that index and type become the filter |
| `Stream.FiltersFollowStream` | crates/pgshard-agent/src/workflow.rs:1103-1159 | after any messages the loop went through, the filter of every relation is that of its last announcement, so a table altered mid-stream is never filtered as it was |
| `SeedingRuns.TxnMeans` | crates/pgshard-agent/src/workflow.rs:1103-1218 | a transaction as one session receives it, with announcements, notes and refused messages between its changes, is taken whole exactly when every change is accepted and no TRUNCATE or other refused message comes, and then builds to the statements of its in-range changes |
| `SeedingRuns.MeantMoves` | crates/pgshard-repl/src/apply.rs:346-356 | run in order, those statements take the range's rows of the source before the transaction to those after it |
| `SeedingRuns.BecomesIffAccepted` | crates/pgshard-agent/src/workflow.rs:1067-1230 | every worker, fresh or restarted, that reaches a transaction makes the same of it, wherever it started and whatever was announced when: the statements of its in-range changes exactly when all its changes are accepted and it holds no TRUNCATE or other refused message |
| `SeedingRuns.SessionsAgree` | crates/pgshard-agent/src/workflow.rs:1067-1230 | every session of every worker sees the log's transactions, however the log's entries were made |
| `SeedingRuns.FreshWorkerMakes` | crates/pgshard-agent/src/workflow.rs:1067-1230 | every history has its log: a worker that starts with nothing announced at any transaction makes its entry |
| `SeedingRuns.SeededTargetTracks` | crates/pgshard-agent/src/workflow.rs:1011-1231 | for every source history, refused messages included, and every run of workers that start with nothing announced, the target holds the source's rows of its range right after the last transaction at or below its progress |
| `SeedingRuns.OnlyOvertakenFail` | crates/pgshard-repl/src/apply.rs:346-356 | even without the stream lease, in every run on an undiverged target a statement that fails is that of a worker another one overtook; no statement of the next unapplied transaction fails |
| `StreamLease.HolderIsCurrent` | crates/pgshard-repl/src/apply.rs:122-154 | in every run in which a worker applies only while it holds the stream lease, the checkpoint of the holder is the durable position and its open transaction is the next one, through crashes, lost leases and in-doubt commits |
| `StreamLease.UndivergedNeverTrips` | crates/pgshard-repl/src/apply.rs:346-356 | in every leased run of a target seeded with its range, every statement that is run succeeds: an undiverged target never trips the one-row check |
| `StreamLease.LeasedPassesIff` | crates/pgshard-repl/src/apply.rs:357-379 | a lease holder passes the compare-and-set on the progress row exactly when its commit and the one before lie on one side of the sign boundary of the stored integer |
| `StreamLease.OvertakingNeedsNoLease` | crates/pgshard-repl/src/apply.rs:122-154 | no run under the lease has the actions in which one worker overtakes another |
| `ExactlyOnce.OvertakenWorkerTrips` | crates/pgshard-repl/src/apply.rs:122-154 | what the lease prevents: a run without it in which a worker that another one overtook inside its transaction trips the one-row check on an undiverged target |
| `CatchUp.PassesIffPossible` | crates/pgshard-repl/src/apply.rs:305-386 | from every state of every run the target can still be taken past the first m transactions if and only if each is taken whole, their statements succeed in order on the seed, and no commit crosses the sign boundary of the stored position |
| `CatchUp.CatchesUp` | crates/pgshard-agent/src/workflow.rs:1219-1230 | from every state of every run whose log can be applied, one more worker applies all of it, the slot can follow to its end, and every journal position is shown |
| `CatchUp.SeededTargetCatchesUp` | crates/pgshard-agent/src/workflow.rs:1011-1231 | when every transaction of the source's history can be taken whole, then from every state of every run the target can still come to hold exactly the source's rows of its range |
| `SeedingRuns.TargetsPartitionSource` | operator/internal/controller/reshard.go:39-70 | targets that split the source's range split its rows |
| `SeedingRuns.ReshardIsExact` | crates/pgshard-agent/src/workflow.rs:1011-1231 | when all targets have applied through the same commit, their rows are pairwise disjoint and together exactly the source's rows in its range |
| `SeedCopy.CopyAgreesWithStream` | crates/pgshard-repl/src/filter.rs:92-136 | the copy and the stream decide every row alike, errors included |
| `SeedCopy.SeedIsRestriction` | crates/pgshard-agent/src/workflow.rs:1011-1041 | when every table's copy completed, the seed is the snapshot restricted to the range |
| `WholeReshard.ReshardFromCopyIsExact` | crates/pgshard-agent/src/workflow.rs:1011-1231 | from COPY chunks and streamed messages to rows: when every target has applied through the same commit, the targets' rows partition the source's rows in its range |
| `Runner.ReplicationClient.Confirm` | crates/pgshard-repl/src/client.rs:409-413 | the confirmed position only rises |
| `Runner.ReplicationClient.SendStandbyStatus` | crates/pgshard-repl/src/client.rs:418-427 | reports the confirmed position as flushed and applied, never less than before |
| `Runner.ReplicationClient.OnKeepalive` | crates/pgshard-repl/src/client.rs:380-387 | a keepalive moves only the write position, and the reply carries only what is confirmed |
| `Runner.ReplicationClient.Next` | crates/pgshard-repl/src/client.rs:363-402 | the read loop returns the first record, end or error among the frames; each keepalive before it that asks is answered with exactly the confirmed position, the write position rises to the furthest seen, and the confirmed position does not move |
| `Runner.FurthestIs` | crates/pgshard-repl/src/client.rs:368-384 | the write position after frames is the largest end among them and where it started |
| `Runner.AskedIs` | crates/pgshard-repl/src/client.rs:384-387 | one reply is owed for each keepalive that asks |
| `Stream.AcceptedRelationIsOk` | crates/pgshard-agent/src/workflow.rs:1116-1159 | an accepted relation message has a default or index identity whose distinct columns cover the shard key |
| `Runner.Worker.OnRow` | crates/pgshard-agent/src/workflow.rs:1160-1210 | keeps or skips a row change as decided, and leaves the buffer alone on an error |
| `Runner.Worker.OnAnnouncement` | crates/pgshard-agent/src/workflow.rs:1116-1159 | installs the filter of the announced relation's key column and the relation exactly when that column can be filtered on, said on the message's fields, and leaves both alone otherwise |
| `Runner.Worker.OnCommit` | crates/pgshard-agent/src/workflow.rs:1219-1230 | rows and progress change as the applier's commit says, and the worker confirms, reports and publishes only after the apply succeeded |
| `Runner.Worker.OnOther` | crates/pgshard-agent/src/workflow.rs:1104-1218 | remembers the position of a transactional message with the prefix "pgshard" until its commit, refuses a truncate, and leaves rows, progress and filters alone |
| `XidHorizon.Horizon` | crates/pgshard-agent/src/workflow.rs:499-515 | the least forward distance to a captured normal version, a full cycle if there is none, or an error for unreadable text |
| `XidHorizon.HorizonIsExact` | crates/pgshard-agent/src/workflow.rs:499-515 | below the horizon no captured version recurs, and at a bounding horizon one does |
| `Registry.WorkflowRegistry.Start` | crates/pgshard-agent/src/workflow.rs:289-355 | answers Ok exactly for an identical live worker that is not stopping, or when no live worker has the id or the target, and then adds it; an error names the worker in the way and whether it is stopping; live workers keep distinct targets |
| `Fence.StepKeeps` | crates/pgshard-agent/src/pg.rs:50-120 | every step of the agent and of PostgreSQL keeps the barrier's invariant |
| `Fence.FenceIsABarrier` | crates/pgshard-agent/src/pg.rs:385-445 | after the fence reports success no session outside the spared prefix is read-write, no prepared transaction has written, and nothing writes, in every continuation |
| `Fence.FencedWithNonePrepared` | crates/pgshard-agent/src/pg.rs:104-120 | at the step at which the fence succeeds no prepared transaction exists, written or not, and every session past the admission check is a spared one |
| `Fence.OldWritersAreGone` | crates/pgshard-agent/src/pg.rs:385-445 | no session that was admitted read-write before the fence survives it |
| `Fence.SparedIsUntouched` | crates/pgshard-agent/src/pg.rs:56-62 | in every run a session once admitted with the spared prefix is never selected and never told to terminate, and leaves only by itself |
| `Fence.SignalledWasScanned` | crates/pgshard-agent/src/pg.rs:50-97 | whoever is told to terminate was, when a scan read it, still starting or a session of the database without the spared prefix |
| `Fence.PreparedIsRefused` | crates/pgshard-agent/src/pg.rs:104-120 | a prepared transaction that either check sees ends the attempt in every run |
| `Fence.FenceSucceeds` | crates/pgshard-agent/src/pg.rs:385-445 | from every world without a prepared transaction the agent, helped by nobody but the backends it stops, can report success, and then exactly the spared sessions are left, as they were |
| `Plan.CollectComparison` | crates/pgshard-plan/src/extract.rs:108-149 | the collector of one comparison appends the values that `RoutingExact.WhereCollects` characterizes on the tree |
| `Plan.CollectAnd` | crates/pgshard-plan/src/extract.rs:94-106 | the recursive collector appends the values of every conjunct |
| `Plan.RouteValuesLoop` | crates/pgshard-plan/src/lib.rs:257-297 | classifies key values as unkeyed, parameters, mixed, uncoercible or a set of shards |
| `Plan.ResolveBoundLoop` | crates/pgshard-plan/src/lib.rs:167-207 | completes a parameterized plan, rejecting missing and uncoercible values and cross-shard writes |
| `Statements.AnalyzeFromLoop` | crates/pgshard-plan/src/extract.rs:210-238 | collects the relations of a FROM clause and whether all are plain |
| `Statements.InsertKeyValuesLoop` | crates/pgshard-plan/src/extract.rs:170-191 | reads the shard-key cell of every row, or nothing if one cannot be read |
| `Routing.WhereSound` | crates/pgshard-plan/src/extract.rs:86-141 | every row a WHERE is true of has its key among the values extracted |
| `Routing.SelectLosesNoRows` | crates/pgshard-plan/src/lib.rs:336-430 | with every row on its key's shard, every row a SELECT over a sharded table matches is on a shard of the plan, for literals and bound parameters, and the plan runs on shards or is refused, never elsewhere |
| `Routing.RoutedReadsOne` | crates/pgshard-plan/src/lib.rs:336-430 | a SELECT that is sent to shards reads one sharded table and nothing else: no join, CTE or subquery |
| `Routing.AliasedKeyLosesRows` | crates/pgshard-plan/src/extract.rs:108-141 | when an alias list gives the key's name to another column, every value comparable with that column and readable as a key selects, for every key owned elsewhere, a row on a shard the SELECT's plan leaves out |
| `Routing.LosesNothingIffNotMisread` | crates/pgshard-plan/src/lib.rs:336-430 | no SELECT over a FROM item loses a row exactly when the key's name does not mean another column that shares readable values with the key while keys are on several shards; another column type and a name no column has are covered |
| `Routing.MisreadsByAlias` | crates/pgshard-plan/src/extract.rs:31-38 | only an alias list that contains the key's name can cause it |
| `Routing.OrdersMisread` | crates/pgshard-plan/src/lib.rs:336-430 | `FROM orders AS o(amount, customer_id)` over `orders(customer_id, amount)` is such a FROM item |
| `Routing.BoundSelectIsLiteral` | crates/pgshard-plan/src/lib.rs:167-207 | a parameterized SELECT completed at Bind is the plan of the statement with any literal spelling of its key's parameters exactly when their values are of the key's type, whatever the other parameters are; a bound value that is not is refused where such a literal is scattered |
| `Routing.BoundWriteIsLiteral` | crates/pgshard-plan/src/lib.rs:513-735 | a parameterized INSERT, UPDATE or DELETE completed at Bind is always the plan of the statement with its key's parameters spelled as literals |
| `Placement.WriteIsWhole` | crates/pgshard-plan/src/lib.rs:599-725 | every row a routed UPDATE or DELETE matches, on any shard, is on the one shard it runs on |
| `Placement.WriteRunsIff` | crates/pgshard-plan/src/lib.rs:513-735 | whatever is bound, a write to a sharded table runs on one shard or is refused, and it runs on a given shard exactly when the statement is routable and all its key values are keys of that shard; `RoutingExact.WriteIs` says which values those are |
| `Placement.PlacementIsKept` | crates/pgshard-plan/src/lib.rs:513-735 | every run of accepted writes keeps every row on the shard that owns its key |
| `Placement.ConflictIsLocal` | crates/pgshard-plan/src/lib.rs:543-571 | an accepted ON CONFLICT DO NOTHING finds a conflict on its shard exactly when one exists on any shard |
| `RoutingExact.WhereCollects` | crates/pgshard-plan/src/extract.rs:86-149 | extraction is sound and complete: the values read are exactly those of the operands the conjuncts of the WHERE pin the key to, `key = x`, `x = key` and `key IN (..)` of readable values |
| `RoutingExact.SelectIs` | crates/pgshard-plan/src/lib.rs:336-430 | whatever is bound, a SELECT over one sharded table runs on exactly the shards its operands pin the key to, on all shards if they decide nothing, and is refused for an unusable parameter, a join, a CTE, a subquery or an unknown relation; the rest goes to the unsharded database or stays in the router |
| `RoutingExact.SetOpIs` | crates/pgshard-plan/src/lib.rs:437-471 | a set operation is refused exactly for a CTE, or a branch with a subquery, a hidden relation, a sharded table or an unknown one |
| `RoutingExact.WriteIs` | crates/pgshard-plan/src/lib.rs:513-735 | whatever is bound, a write to a sharded table runs on a shard exactly when the statement may be planned by its key and every key it names, in VALUES rows or pinned by its WHERE, is a key of that shard; else it is refused |
| `GateEngine.Engine.DrainGate` | crates/pgshard-gate/src/lib.rs:161-166 | swap-removes one gate and sends each of its sessions one release |
| `GateEngine.Engine.TopologyApplied` | crates/pgshard-gate/src/lib.rs:209-228 | raises the generation and drains exactly the armed gates it satisfies, despite removal during the scan |
| `GateEngine.Engine.Close` | crates/pgshard-gate/src/lib.rs:235-247 | installs a gate or replaces its spec, keeping its sessions and a pending open |
| `GateEngine.Engine.Open` | crates/pgshard-gate/src/lib.rs:254-279 | expires after the deadline, arms before the generation lands, releases otherwise |
| `GateEngine.Engine.ExpireDue` | crates/pgshard-gate/src/lib.rs:283-298 | drains exactly the gates past their deadline and counts them |
| `GateEngine.Engine.Check` | crates/pgshard-gate/src/lib.rs:303-327 | a statement goes on exactly when no gate of the vector stops it, by mode, table or key range; otherwise it waits at the first gate that does, or is rejected, by the live sessions' room under both limits, and no live session loses its place |
| `GateEngine.Engine.RejectOverdueSessions` | crates/pgshard-gate/src/lib.rs:331-348 | prunes and pops the overdue front of every queue, counting the rejected |
| `GateEngine.TotalOfView` | crates/pgshard-gate/src/lib.rs:156-158 | the vector's total is the number of parked sessions |
| `Gate.AccountingAlways` | crates/pgshard-gate/src/lib.rs:140-348 | over every run each parked session is in one queue and unreleased, queues are in arrival order, and neither limit is exceeded |
| `Gate.HoldsOnce` | crates/pgshard-gate/src/lib.rs:303-327 | in every run no session is in two queues, and none in a queue is released |
| `Gate.ReleasedForever` | crates/pgshard-gate/src/lib.rs:161-348 | in no run is a release changed or taken back |
| `Gate.EverySessionAccounted` | crates/pgshard-gate/src/lib.rs:140-348 | conservation over every run: every session ever numbered is parked, was released, or was dropped by a step that saw its client gone |
| `Gate.ReleaseSafety` | crates/pgshard-gate/src/lib.rs:161-298 | a re-plan comes only from a gate whose open is still in force, before its deadline, with the applied generation at its minimum; an expiry only at or after the deadline |
| `Gate.NothingDueLeft` | crates/pgshard-gate/src/lib.rs:208-248 | at every point of every run an armed gate whose generation is applied is exactly one that was closed again, while armed, for a generation already applied, with no topology applied since |
| `Gate.ClosedAgainIsLeft` | crates/pgshard-gate/src/lib.rs:235-240 | a run that leaves such a gate |
| `Gate.NonePastDeadline` | crates/pgshard-gate/src/lib.rs:283-298 | in every run, after an expiry sweep a gate past the sweep's time is one that was closed again since |
| `Gate.NoneOverdue` | crates/pgshard-gate/src/lib.rs:331-348 | in every run, after an overdue sweep no live session has waited longer than the limit |
| `Gate.OnlyOverdueRejected` | crates/pgshard-gate/src/lib.rs:331-348 | in every run, a session an overdue sweep releases was parked, alive and over the limit at the sweep's time, and is rejected |
| `Gate.AppliesIffStops` | crates/pgshard-gate/src/lib.rs:63-79 | a gate applies exactly to statements of its mode that share a table with it or have a keyspace id in one of its ranges, or to all |
| `GateLaws.CheckIsExact` | crates/pgshard-gate/src/lib.rs:303-327 | at every check of every run a statement goes on exactly if no closed gate stops it; a stopped one is parked exactly when the live sessions are below both limits, and rejected otherwise |
| `GateLaws.OpenReleasesNow` | crates/pgshard-gate/src/lib.rs:254-279 | in every run an open of a gate whose generation is applied releases everyone behind it at once, to plan again before the deadline and as expired after it |
| `GateLaws.OpenedLetsGo` | crates/pgshard-gate/src/lib.rs:209-279 | in every run, once a gate was asked to open, a topology that reaches its generation leaves no session behind it that had been there |
| `GateLaws.AppliedIsHighest` | crates/pgshard-gate/src/lib.rs:209-214 | the applied generation is the highest the router was told of |
| `FailoverLoops.AssessIdentity` | operator/internal/controller/failover.go:196-296 | the assessment loops compute the fence, kept set and dispute flags that the election theorems are about |
| `FailoverLoops.SummarizeInstances` | operator/internal/controller/failover.go:432-473 | the fold computes the summary of the snapshot that the election theorems are about |
| `FailoverLoops.LatchLoop` | operator/internal/controller/failover.go:341-373 | the latch loop computes the latched identity and timeline that `LatchIs` characterizes |
| `FailoverLoops.Shard.ReconcileFailover` | operator/internal/controller/failover.go:540-596 | clears, commits or drives in place, exactly under the conditions of `FailoverExact.HandshakeIsExact` |
| `FailoverLoops.Shard.AggregateStatus` | operator/internal/controller/pgshardshard_controller.go:765-829 | one reconcile: latch, assess, publish, then the handshake |
| `Failover.ElectedIffElectable` | operator/internal/controller/failover.go:196-530 | under a latched identity a target is elected exactly when every started pod was polled, no same-lineage pod claims primary, every other same-lineage pod is a confirmed standby on the latched id and not ahead, all receivers are quiet, and the target leads every observed position |
| `Failover.ElectionOrderFree` | operator/internal/controller/failover.go:196-530 | assessment and election do not depend on the order of the views |
| `FailoverExact.ElectsExactly` | operator/internal/controller/failover.go:475-530 | from any views of a poll the election names exactly the committed pod if it is in front, or else the ready standby in front with the smallest name, with nothing in the way |
| `FailoverExact.BeforeIs` | operator/internal/controller/failover.go:516-522 | ties go by names compared at their first difference, a prefix first |
| `FailoverExact.HandshakeIsExact` | operator/internal/controller/failover.go:540-596 | a committed target is cleared exactly when a primary is published and a kept view is a ready primary, and driven exactly while it is the choice; without one exactly the choice is committed, at the next epoch |
| `FailoverExact.ReconcileIs` | operator/internal/controller/pgshardshard_controller.go:765-829 | one reconcile from the polled views: what is committed, driven and cleared under a latched identity, without one, and when an unreadable or disputed identity freezes it |
| `FailoverExact.PublishedIff` | operator/internal/controller/pgshardshard_controller.go:779-804 | under a latched identity a primary is published exactly when it is the only claimant of the lineage and the operator vouches for it |
| `FailoverExact.PublishedUnlatched` | operator/internal/controller/pgshardshard_controller.go:779-804 | before an identity is latched exactly the only claimant is published, and nobody while the poll disagrees |
| `FailoverExact.LatchAdvances` | operator/internal/controller/failover.go:341-373 | a trusted claimant is imprinted unless the poll disagrees, gives the first timeline, and the committed target's own timeline is reached |
| `FailoverExact.BootstrapLatches` | operator/internal/controller/failover.go:341-373 | in an undisputed poll a trusted claimant gives the latch its own id |
| `FailoverExact.FlagsMean` | operator/internal/controller/failover.go:196-296 | under a latched identity a poll is called blocked exactly for a pod of unknown identity or a standby ahead of the recorded timeline, and incomplete exactly for a started pod it missed |
| `FailoverExact.CommitmentsEndWell` | operator/internal/controller/failover.go:540-596 | over every run a commitment is dropped only by a poll that published a primary and saw a ready primary of the lineage, and a promote goes out only for a target its poll made electable |
| `FailoverExact.FailoverCompletes` | operator/internal/controller/failover.go:540-596 | a poll that makes a pod electable commits it, the next sends its promote at the new epoch, and the poll that sees it as ready primary publishes it, records its timeline and clears the commitment |
| `FailoverRuns.LatchIs` | operator/internal/controller/failover.go:341-373 | a set latch is never overwritten, a new one comes from a trusted undisputed claimant, and only the committed target moves a recorded timeline |
| `FailoverRuns.PublishedIsVouched` | operator/internal/controller/pgshardshard_controller.go:779-804 | a published primary is the committed target or exactly on the recorded timeline, and no other same-lineage claimant is unaccounted for |
| `FailoverRuns.OneTargetPerEpoch` | operator/internal/controller/failover.go:540-596 | over every run, with stale reads, crashes and lost writes, no epoch is sent with two targets |
| `FailoverRuns.TargetChangesByClearing` | operator/internal/controller/failover.go:540-596 | over every run a target changes only through a cleared commitment and a higher epoch |
| `FailoverRuns.IdentityIsForever` | operator/internal/controller/failover.go:341-373 | over every run the latched id never changes and neither the timeline nor the epoch falls |
| `FailoverRuns.PromotesNeverConflict` | crates/pgshard-agent/src/epoch.rs:55-90 | an agent serving the promotes of a run never sees two requests of one epoch that differ |
| `Epoch.EpochGuard.Check` | crates/pgshard-agent/src/epoch.rs:55-79 | over the whole history of commits: a command runs exactly above every committed epoch, is a replay exactly of the first request committed at the highest epoch, conflicts exactly with that one, and is stale exactly below a committed epoch |
| `Epoch.EpochGuard.Commit` | crates/pgshard-agent/src/epoch.rs:83-90 | the record is that of the history with this commit added; the applied epoch never falls and reaches the committed one |
| `Epoch.AfterIs` | crates/pgshard-agent/src/epoch.rs:83-90 | after any history of commits the record is the first commit of the highest epoch |
| `Epoch.AppliedNeverFalls` | crates/pgshard-agent/src/epoch.rs:83-90 | the applied epoch never falls |
| `Epoch.ReplayIsCommitted` | crates/pgshard-agent/src/epoch.rs:55-79 | a replay is granted only for the exact committed request |
| `Epoch.ApplyIsNewer` | crates/pgshard-agent/src/epoch.rs:55-79 | a command runs only under an epoch above every committed one |
| `Sequence.SequenceCache.Turn` | crates/pgshard-seq/src/lib.rs:166-194 | hands out the smallest id left in the block, never one handed out before, and takes only that one from the block; waiting and claiming are characterized exactly |
| `Sequence.SequenceCache.Finish` | crates/pgshard-seq/src/lib.rs:205-225 | releases the claim whatever was returned; a usable range leaves exactly its ids after the first in the block, an unusable one leaves it drained |
| `Sequence.SequenceCache.DropClaim` | crates/pgshard-seq/src/lib.rs:133-143 | unwinding leaves no claim, and the same ids in the block |
| `Sequence.IdsAreUnique` | crates/pgshard-seq/src/lib.rs:166-227 | over every interleaving of threads and routers, with failing, lost, unusable and panicking reservations, no id is handed out twice |
| `Sequence.SingleFlight` | crates/pgshard-seq/src/lib.rs:119-143 | reserving is set exactly while one live claim exists, and there is at most one |
| `Sequence.ReplacedOnlyDrained` | crates/pgshard-seq/src/lib.rs:166-227 | a block is replaced only once drained |
| `Sequence.ClaimEnds` | crates/pgshard-seq/src/lib.rs:119-210 | in every run the entry a claiming thread comes back to is there and claimed, and once it has settled or unwound no waiter that looks again has to wait |
| `Sequence.EveryIdAccounted` | crates/pgshard-seq/src/lib.rs:166-227 | conservation over every run: an id the row has given up was handed out, is held by a router or in flight to one, or was lost at a restart of its holder or with a lost answer |
| `Sequence.CallerGetsNext` | crates/pgshard-router/src/sequence.rs:78-110 | an undisturbed caller gets the next id of the block, or else the row's next with the rest of that reservation as the block, and none exactly if the row is missing, its size is not positive or the range is past the last id |
| `Lease.Freshness.Install` | crates/pgshard-topo/src/lib.rs:126-131 | a stamp no newer than the installed one is ignored, and both clocks move together |
| `Lease.Freshness.Age` | crates/pgshard-topo/src/lib.rs:139-153 | the age is the larger of the two clocks' readings, and maximal exactly when a clock is unusable or the wall clock stepped back past the stamp |
| `Lease.LeasedRouter.HandleUpdate` | crates/pgshard-router/src/lib.rs:317-356 | a topology that does not build changes nothing; one that does is served, and the lease is renewed exactly if the latest announcement confirms it and is newer |
| `Lease.LeasedRouter.HandleValidation` | crates/pgshard-router/src/lib.rs:299-316 | the lease never gets older and is renewed exactly by a newer stamp of the active epoch; every renewal so far confirmed the epoch then active |
| `Lease.RenewalsAreEarned` | crates/pgshard-router/src/lib.rs:284-357 | each renewal comes from a source read, begun no earlier than its stamp, that saw the epoch active at install |
| `Lease.NeverBack` | crates/pgshard-topo/src/file.rs:141-150 | freshness never moves back and the active epoch only rises, in every interleaving |
| `Lease.ConfirmedIsRenewal` | crates/pgshard-router/src/lib.rs:284-357 | in every run the freshness is what the loop started with or the stamp of a renewal |
| `Lease.DrainedIsRenewed` | crates/pgshard-router/src/lib.rs:335-350 | once drained, the latest announcement received is installed if it confirms the active epoch |
| `Lease.PollIsServed` | crates/pgshard-router/src/lib.rs:284-357 | an undisturbed poll of a newer topology that builds makes it active and renews to no earlier than the poll began; one of the active epoch renews it |
| `LeaseOrder.OrderedNothingLost` | crates/pgshard-topo/src/file.rs:69-95 | with announcements in order, every received announcement of the active epoch is installed |
| `LeaseOrder.LosesNothingIffSteady` | crates/pgshard-router/src/lib.rs:284-357 | which orders of announcements are safe under every schedule: a received confirmation can go uninstalled exactly if the announcements somewhere fall back from an epoch newer than the one served at the start |
| `LeaseOrder.SteadyNothingLost` | crates/pgshard-router/src/lib.rs:284-357 | in every run whose announcements do not fall back, every received announcement of the active epoch is installed |
| `LeaseOrder.StaleAnnouncementLoses` | crates/pgshard-router/src/lib.rs:335-350 | the smallest such order: epochs 1, 2 and, from a slow reader, 1 again |

## Left out

- TCP, TLS, SCRAM, gRPC, the pgwire protocol and the Kubernetes client: only their outcomes appear.
- xxHash64 and libpg_query: the hash is an arbitrary function and statements are trees.
- SQL text generation and quoting: statements are inserts, updates and deletes by key.
- Library sorts: an insertion sort by start stands for the sort of ranges, and the first element in the sort order for the sort of candidates.
- Routing.SelectLosesNoRows: a NULL bound to a parameter is not modelled, because bound values are typed scalars.
- Plan.ResolveBoundLoop: shard lists are sets, so the order of a scatter is not modelled; an untyped shard key is not modelled, because the router refuses it.
- Statements.AnalyzeFromLoop: relation lookup inside subqueries and CTE bodies (`find_unresolved_relation`) is not modelled; it only rejects more statements.
- Apply.Applier.ApplyCommit: the target is a map keyed by replica identity, and a unique violation is a database error; other constraints and triggers are not modelled.
- ExactlyOnce.ExactlyOnceAlways: neither the stream lease nor the server's slot lock is assumed; any number of workers may run at once, which is more than either allows. StreamLease adds the lease.
- StreamLease.UndivergedNeverTrips: two consumer ids with one advisory key are not modelled; the bounded wait for the lease is a start that does not happen.
- Seeding.RunnerDecides: the old key is shipped when an identity column changes or is itself unshipped, as PostgreSQL logs it.
- SeedingRuns.SeededTargetTracks: a change of a table's columns or identity at the source while it is being seeded is not modelled; tables are announced as they were when the history began.
- The deletion of the progress row by a re-seed: each seeding run is a fresh consumer.
- FailoverRuns.OneTargetPerEpoch: the decision epoch is unbounded; its 64-bit wrap-around and the text form of the latched id are not modelled.
- FailoverLoops.Shard.AggregateStatus: the phase, the conditions and the pods eligible for pruning are not modelled.
- Fence.FenceSucceeds: the ten-second deadline of the drain is a failure that may come at any time.
- FailoverExact.FailoverCompletes: the promotion inside the agent is what the last poll sees of it.
- Fence.FenceIsABarrier: sessions with the spared prefix neither write nor prepare, and no session overrides its read-only default, which is the trust the source states; lifting the fence is not modelled.
- GateEngine.Engine.DrainGate: the order in which one gate's sessions are sent their releases is not modelled; each has its own channel.
- GateEngine.Engine.Check: one snapshot of disconnected clients is used per call; the lock is a serialization of calls.
- Sequence.IdsAreUnique: the state is that of one sequence; every map and row of the program is keyed by name. The refill hint is not modelled.
- Lease.Freshness.Age: clocks are natural numbers passed in.
- Runner.Worker.OnCommit: a failed send of the status report, which ends the worker, is not modelled.
- PgOutput.TupleAt: pre-allocation caps are not modelled; they do not change what is read.
- Backup resolution, ORDER BY merge, schema logs, the node controllers, seeding preflight queries and the cutover state machine.
