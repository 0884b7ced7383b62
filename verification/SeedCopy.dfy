/**
The seam between the snapshot copy and the stream: the rows a completed copy loads
are the range's rows of the snapshot (`crates/pgshard-repl/src/copy.rs`,
`crates/pgshard-repl/src/filter.rs`, the copy loop of `run_workflow`).
*/
module SeedCopy {
  import opened Wrappers
  import opened Bytes
  import opened Keyspace
  import opened Rows
  import opened Seeding
  import C = CopyText
  import F = Filter

  function SpecOf(cfg: Config, n: TableName): C.Spec
    requires n in cfg.tables
  {
    C.Spec(cfg.tables[n].keyIndex, cfg.tables[n].ty, cfg.hash, cfg.range)
  }

  /** The copy and the stream decide every row alike, errors included. */
  lemma CopyAgreesWithStream(cfg: Config, n: TableName, row: Row)
    requires n in cfg.tables && cfg.tables[n].keyIndex < |row|
    ensures var t := cfg.tables[n];
      var streamed := F.TupleInRange(FullTuple(row, {}), t.keyIndex, t.ty, cfg.hash, cfg.range);
      C.Decision(SpecOf(cfg, n), C.EncodeRow(row)) ==
        if streamed.Err? then Err(C.Filtering(streamed.error)) else Ok(streamed.value)
  {
    C.DecisionOnRow(SpecOf(cfg, n), row);
  }

  /** `rows` lists the snapshot's rows of table `n`, in any order. */
  ghost predicate Lists(cfg: Config, db: Db, n: TableName, rows: seq<Row>)
    requires ConfigOk(cfg) && n in cfg.tables
  {
    && (forall i | 0 <= i < |rows| :: RowFits(cfg.tables[n], rows[i]) && Stored(cfg, db, n, rows[i]))
    && (forall id | id in db && id.table == n :: db[id] in rows)
  }

  ghost predicate Stored(cfg: Config, db: Db, n: TableName, row: Row)
    requires ConfigOk(cfg) && n in cfg.tables && RowFits(cfg.tables[n], row)
  {
    var id := RowId(n, KeyOf(cfg.tables[n].rel, row));
    id in db && db[id] == row
  }

  /** The source's COPY of table `n`, cut into `chunks`, was copied without failing and sent `lines`. */
  ghost predicate Copied(cfg: Config, db: Db, n: TableName, rows: seq<Row>, chunks: seq<seq<Byte>>, lines: seq<seq<Byte>>)
    requires ConfigOk(cfg) && n in cfg.tables
  {
    && Lists(cfg, db, n, rows)
    && C.Concat(chunks) == C.EncodeTable(rows)
    && C.CopyAll(SpecOf(cfg, n), C.Concat(chunks)) == C.Outcome(lines, None)
  }

  predicate HasKey(rel: Relation, row: Row, key: seq<Value>)
    requires rel.Valid()
  {
    |row| == rel.columns && KeyOf(rel, row) == key
  }

  function DecodeRows(lines: seq<seq<Byte>>): (rows: seq<Row>)
    ensures |rows| == |lines| && forall i | 0 <= i < |lines| :: rows[i] == C.DecodeRow(lines[i])
  {
    seq(|lines|, i requires 0 <= i < |lines| => C.DecodeRow(lines[i]))
  }

  /** The target's COPY stored the rows it read, under their keys. */
  ghost predicate Loads(rel: Relation, rows: seq<Row>, seed: Db)
    requires rel.Valid()
  {
    && (forall i | 0 <= i < |rows| :: |rows[i]| == rel.columns && RowId(rel.table, KeyOf(rel, rows[i])) in seed)
    && (forall id | id in seed && id.table == rel.table :: seed[id] in rows && HasKey(rel, seed[id], id.key))
  }

  lemma {:induction false} Picked<T>(rows: seq<T>, marks: seq<bool>, x: T)
    requires |marks| == |rows|
    ensures x in C.Pick(rows, marks) <==> exists i :: 0 <= i < |rows| && marks[i] && rows[i] == x
  {
    if rows != [] {
      var n := |rows| - 1;
      Picked(rows[..n], marks[..n], x);
      if x in C.Pick(rows[..n], marks[..n]) {
        var i :| 0 <= i < n && marks[..n][i] && rows[..n][i] == x;
        assert marks[i] && rows[i] == x;
      }
      if i :| 0 <= i < |rows| && marks[i] && rows[i] == x {
        if i < n {
          assert marks[..n][i] && rows[..n][i] == x;
        }
      }
    }
  }

  /** A copy that did not fail sent exactly the lines of the in-range rows. */
  lemma CopiedLines(cfg: Config, db: Db, n: TableName, rows: seq<Row>, chunks: seq<seq<Byte>>, lines: seq<seq<Byte>>)
    returns (picked: seq<Row>)
    requires ConfigOk(cfg) && n in cfg.tables && Copied(cfg, db, n, rows, chunks, lines)
    ensures lines == C.EncodeRows(picked)
    ensures forall row :: row in picked <==> row in rows && InTable(cfg, n, row)
  {
    var spec := SpecOf(cfg, n);
    forall i | 0 <= i < |rows| ensures spec.keyIndex < |rows[i]| && C.RowId64(spec, rows[i]).Some? {
      if C.RowId64(spec, rows[i]).None? { C.UnroutableFails(spec, rows, chunks, i); }
    }
    C.CopyForwardsInRange(spec, rows, chunks);
    var marks := C.InRangeMarks(spec, rows);
    picked := C.Pick(rows, marks);
    forall row ensures row in picked <==> row in rows && InTable(cfg, n, row) {
      Picked(rows, marks, row);
    }
  }

  /** The row's key is in the range. */
  ghost predicate InTable(cfg: Config, n: TableName, row: Row)
    requires n in cfg.tables
  {
    var spec := SpecOf(cfg, n);
    && spec.keyIndex < |row|
    && C.RowId64(spec, row).Some?
    && spec.range.Contains(C.RowId64(spec, row).value)
  }

  lemma InTableIsInRange(cfg: Config, n: TableName, row: Row)
    requires ConfigOk(cfg) && n in cfg.tables && RowFits(cfg.tables[n], row)
    ensures InTable(cfg, n, row) <==> InRange(cfg, RowId(n, KeyOf(cfg.tables[n].rel, row)))
  {
  }

  /** `picked` are the rows of table `rel.table` in `want`. */
  ghost predicate Holds(rel: Relation, picked: seq<Row>, want: Db)
    requires rel.Valid()
  {
    && (forall i | 0 <= i < |picked| ::
          && |picked[i]| == rel.columns > 0
          && RowId(rel.table, KeyOf(rel, picked[i])) in want
          && want[RowId(rel.table, KeyOf(rel, picked[i]))] == picked[i])
    && (forall id | id in want && id.table == rel.table :: want[id] in picked && HasKey(rel, want[id], id.key))
  }

  lemma CopiedHolds(cfg: Config, db: Db, n: TableName, rows: seq<Row>, chunks: seq<seq<Byte>>, lines: seq<seq<Byte>>)
    returns (picked: seq<Row>)
    requires ConfigOk(cfg) && RowsOk(cfg, db) && n in cfg.tables && Copied(cfg, db, n, rows, chunks, lines)
    ensures lines == C.EncodeRows(picked)
    ensures Holds(cfg.tables[n].rel, picked, Restrict(cfg, db))
  {
    picked := CopiedLines(cfg, db, n, rows, chunks, lines);
    var want, rel := Restrict(cfg, db), cfg.tables[n].rel;
    forall i | 0 <= i < |picked|
      ensures |picked[i]| == rel.columns > 0
      ensures RowId(n, KeyOf(rel, picked[i])) in want && want[RowId(n, KeyOf(rel, picked[i]))] == picked[i]
    {
      PickedIsWanted(cfg, db, n, rows, picked[i]);
    }
    forall id | id in want && id.table == n ensures want[id] in picked && HasKey(rel, want[id], id.key) {
      WantedIsPicked(cfg, db, rows, id);
    }
  }

  lemma WantedIsPicked(cfg: Config, db: Db, rows: seq<Row>, id: RowId)
    requires ConfigOk(cfg) && RowsOk(cfg, db) && id in Restrict(cfg, db) && Lists(cfg, db, id.table, rows)
    ensures db[id] in rows && InTable(cfg, id.table, db[id])
    ensures HasKey(cfg.tables[id.table].rel, db[id], id.key)
  {
    InTableIsInRange(cfg, id.table, db[id]);
  }

  lemma PickedIsWanted(cfg: Config, db: Db, n: TableName, rows: seq<Row>, row: Row)
    requires ConfigOk(cfg) && n in cfg.tables && Lists(cfg, db, n, rows) && row in rows && InTable(cfg, n, row)
    ensures RowFits(cfg.tables[n], row) && |row| > 0
    ensures var id := RowId(n, KeyOf(cfg.tables[n].rel, row));
      id in Restrict(cfg, db) && Restrict(cfg, db)[id] == row
  {
    InTableIsInRange(cfg, n, row);
  }

  lemma DecodeEncodeRows(rows: seq<Row>)
    requires forall i | 0 <= i < |rows| :: rows[i] != []
    ensures DecodeRows(C.EncodeRows(rows)) == rows
  {
    forall i | 0 <= i < |rows| ensures DecodeRows(C.EncodeRows(rows))[i] == rows[i] {
      C.RowRoundTrip(rows[i]);
    }
  }

  /** The two stores agree on one table. */
  ghost predicate Agree(n: TableName, a: Db, b: Db) {
    forall id: RowId | id.table == n && (id in a || id in b) :: id in a && id in b && a[id] == b[id]
  }

  lemma LoadedIsWanted(rel: Relation, picked: seq<Row>, want: Db, seed: Db)
    requires rel.Valid() && Holds(rel, picked, want) && Loads(rel, picked, seed)
    ensures Agree(rel.table, seed, want)
  {
    forall id: RowId | id.table == rel.table && (id in seed || id in want)
      ensures id in seed && id in want && seed[id] == want[id]
    {
      if id in want {
        var i :| 0 <= i < |picked| && picked[i] == want[id];
      }
    }
  }

  /** Table `n` was copied without failing, and the target loaded what it was sent. */
  ghost predicate Seeded(cfg: Config, db: Db, n: TableName, rows: seq<Row>, chunks: seq<seq<Byte>>, lines: seq<seq<Byte>>, seed: Db)
    requires ConfigOk(cfg)
  {
    && n in cfg.tables
    && Copied(cfg, db, n, rows, chunks, lines)
    && Loads(cfg.tables[n].rel, DecodeRows(lines), seed)
  }

  lemma SeededAgrees(cfg: Config, db: Db, n: TableName, rows: seq<Row>, chunks: seq<seq<Byte>>, lines: seq<seq<Byte>>, seed: Db)
    requires ConfigOk(cfg) && RowsOk(cfg, db) && Seeded(cfg, db, n, rows, chunks, lines, seed)
    ensures Agree(n, seed, Restrict(cfg, db))
  {
    var picked := CopiedHolds(cfg, db, n, rows, chunks, lines);
    DecodeEncodeRows(picked);
    LoadedIsWanted(cfg.tables[n].rel, picked, Restrict(cfg, db), seed);
  }

  /**
  No gap and no overlap at the seam: when every table's copy completed, the seed is
  the snapshot restricted to the range, row for row.
  */
  lemma SeedIsRestriction(cfg: Config, db: Db, rows: map<TableName, seq<Row>>, chunks: map<TableName, seq<seq<Byte>>>,
                          lines: map<TableName, seq<seq<Byte>>>, seed: Db)
    requires ConfigOk(cfg) && RowsOk(cfg, db)
    requires rows.Keys == chunks.Keys == lines.Keys == cfg.tables.Keys
    requires forall n | n in cfg.tables :: Seeded(cfg, db, n, rows[n], chunks[n], lines[n], seed)
    requires forall id | id in seed :: id.table in cfg.tables
    ensures seed == Restrict(cfg, db)
  {
    forall n | n in cfg.tables ensures Agree(n, seed, Restrict(cfg, db)) {
      SeededAgrees(cfg, db, n, rows[n], chunks[n], lines[n], seed);
    }
    AgreeEverywhere(cfg.tables.Keys, seed, Restrict(cfg, db));
  }

  lemma AgreeEverywhere(tables: set<TableName>, a: Db, b: Db)
    requires forall n | n in tables :: Agree(n, a, b)
    requires forall id | id in a || id in b :: id.table in tables
    ensures a == b
  {
    forall id | id in a || id in b ensures id in a && id in b && a[id] == b[id] {
      assert Agree(id.table, a, b);
    }
  }
}
