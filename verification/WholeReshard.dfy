/**
A reshard from end to end: the snapshot's COPY streams and the replication messages of every
target, to the rows the targets hold (`crates/pgshard-agent/src/workflow.rs`,
`crates/pgshard-repl/src/copy.rs`).
*/
module WholeReshard {
  import opened Bytes
  import opened Keyspace
  import opened Rows
  import opened Seeding
  import opened SeedingRuns
  import opened SeedCopy
  import R = Reshard

  /** One target's copy of the snapshot: per table the rows listed, the chunks received and the lines sent on. */
  datatype Snapshot = Snapshot(
    rows: map<TableName, seq<Row>>, chunks: map<TableName, seq<seq<Byte>>>, lines: map<TableName, seq<seq<Byte>>>)

  /** Every table's copy completed, and the target loaded what it was sent into `seed`. */
  ghost predicate Copies(cfg: Config, db: Db, c: Snapshot, seed: Db)
    requires ConfigOk(cfg)
  {
    && c.rows.Keys == c.chunks.Keys == c.lines.Keys == cfg.tables.Keys
    && (forall n | n in cfg.tables :: Seeded(cfg, db, n, c.rows[n], c.chunks[n], c.lines[n], seed))
    && (forall id | id in seed :: id.table in cfg.tables)
  }

  lemma CopiedSeed(cfg: Config, range: KeyRange, ds: seq<Delivery>, dbs: seq<Db>, c: Snapshot, seed: Db)
    requires ConfigOk(cfg) && History(cfg, ds, dbs) && ConfigOk(Narrow(cfg, range)) && Copies(Narrow(cfg, range), dbs[0], c, seed)
    ensures seed == Restrict(Narrow(cfg, range), dbs[0])
  {
    hide Seeded, Restrict, DeliveryOk;
    NarrowHistory(cfg, range, ds, dbs);
    SeedIsRestriction(Narrow(cfg, range), dbs[0], c.rows, c.chunks, c.lines, seed);
  }

  /** Target `j` was seeded by its copy of the snapshot, and applied `k` transactions of the history. */
  ghost predicate Resharded(cfg: Config, range: KeyRange, ds: seq<Delivery>, db: Db, c: Snapshot, t: TargetRun, k: nat)
    requires ConfigOk(cfg)
  {
    && ConfigOk(Narrow(cfg, range))
    && AppliedThrough(Narrow(cfg, range), ds, t, k)
    && Copies(Narrow(cfg, range), db, c, SeedOf(t))
  }

  /**
  From bytes to rows: whatever the cuts of the COPY streams, the sessions of the workers, their
  crashes and redeliveries, when every target has applied through the same commit, no row is on
  two targets and together they hold exactly the source's rows in the source's range.
  */
  lemma ReshardFromCopyIsExact(cfg: Config, targets: seq<KeyRange>, ds: seq<Delivery>, dbs: seq<Db>,
                               copies: seq<Snapshot>, ts: seq<TargetRun>, k: nat)
    requires ConfigOk(cfg) && History(cfg, ds, dbs) && R.ExactlyCovers(targets, cfg.range)
    requires |copies| == |ts| == |targets| > 0
    requires forall j | 0 <= j < |ts| :: |ts[j].run| > 0 && Resharded(cfg, targets[j], ds, dbs[0], copies[j], ts[j], k)
    ensures k <= |ds|
    ensures Partitions(RowsOf(ts), Restrict(cfg, dbs[k]))
  {
    assert |dbs| > 0;
    hide Resharded, Restrict, Partitions, History, SeededThrough, ConfigOk;
    forall j | 0 <= j < |ts| ensures ConfigOk(Narrow(cfg, targets[j])) && SeededThrough(Narrow(cfg, targets[j]), ds, dbs[0], ts[j], k) {
      TargetSeeded(cfg, targets[j], ds, dbs, copies[j], ts[j], k);
    }
    ReshardIsExact(cfg, targets, ds, dbs, ts, k);
  }

  lemma TargetSeeded(cfg: Config, range: KeyRange, ds: seq<Delivery>, dbs: seq<Db>, c: Snapshot, t: TargetRun, k: nat)
    requires ConfigOk(cfg) && History(cfg, ds, dbs) && Resharded(cfg, range, ds, dbs[0], c, t, k)
    ensures ConfigOk(Narrow(cfg, range)) && SeededThrough(Narrow(cfg, range), ds, dbs[0], t, k)
  {
    hide Copies, Restrict, LogOf, DeliveryOk, RowsOk;
    CopiedSeed(cfg, range, ds, dbs, c, SeedOf(t));
  }
}
