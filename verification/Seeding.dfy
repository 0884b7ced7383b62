/**
Reshard seeding: the filtered stream keeps the target equal to the source
restricted to its key range (`crates/pgshard-agent/src/workflow.rs`, the
streaming loop of `run_workflow`; `crates/pgshard-repl/src/filter.rs`).

The source is a history of transactions over tables keyed by replica identity.
Each change is encoded as `pgoutput` ships it, filtered by the runner, buffered
and built by the applier, and executed on the target.
*/
module Seeding {
  import opened Wrappers
  import opened Bytes
  import opened Keyspace
  import opened Rows
  import M = Messages
  import A = Apply
  import F = Filter
  import Scalar

  // -------------------------------------------------------------- the source

  /** A mapped table: its relation, its oid, and where its shard key sits in the row and in the identity. */
  datatype Table = Table(oid: M.U32, rel: Relation, keyIndex: nat, keyPos: nat, ty: Scalar.ScalarType)

  datatype Config = Config(tables: map<TableName, Table>, hash: F.ShardFn, range: KeyRange)

  /** What preflight establishes: a usable identity that covers the shard key. */
  ghost predicate TableOk(t: Table) {
    && t.rel.Valid()
    && (t.rel.identity == IDENTITY_DEFAULT || t.rel.identity == IDENTITY_INDEX)
    && (forall p, q | 0 <= p < q < |t.rel.keyColumns| :: t.rel.keyColumns[p] != t.rel.keyColumns[q])
    && t.keyPos < |t.rel.keyColumns|
    && t.rel.keyColumns[t.keyPos] == t.keyIndex
  }

  ghost predicate ConfigOk(cfg: Config) {
    && (forall n | n in cfg.tables :: TableOk(cfg.tables[n]) && cfg.tables[n].rel.table == n)
    && (forall m, n | m in cfg.tables && n in cfg.tables && m != n :: cfg.tables[m].oid != cfg.tables[n].oid)
  }

  /** A row as the source stores it: full width, text in UTF-8, identity columns not null. */
  ghost predicate RowFits(t: Table, row: Row)
    requires TableOk(t)
  {
    && |row| == t.rel.columns
    && (forall c | 0 <= c < |row| :: row[c].Text? ==> Utf8(row[c].bytes))
    && (forall p | 0 <= p < |t.rel.keyColumns| :: row[t.rel.keyColumns[p]].Text?)
  }

  ghost predicate RowsOk(cfg: Config, db: Db)
    requires ConfigOk(cfg)
  {
    forall id | id in db ::
      && id.table in cfg.tables
      && RowFits(cfg.tables[id.table], db[id])
      && id.key == KeyOf(cfg.tables[id.table].rel, db[id])
  }

  /** One source change. `toast` are columns an update leaves unchanged and does not ship. */
  datatype Change =
    | InsertRow(table: TableName, row: Row)
    | UpdateRow(table: TableName, key: seq<Value>, row: Row, toast: set<nat>)
    | DeleteRow(table: TableName, key: seq<Value>)

  ghost predicate ChangeFits(cfg: Config, c: Change)
    requires ConfigOk(cfg)
  {
    && c.table in cfg.tables
    && (c.DeleteRow? || RowFits(cfg.tables[c.table], c.row))
  }

  /** The identity a change leaves behind, or removes. */
  ghost function NewId(cfg: Config, c: Change): RowId
    requires ConfigOk(cfg) && ChangeFits(cfg, c)
  {
    if c.DeleteRow? then RowId(c.table, c.key) else RowId(c.table, KeyOf(cfg.tables[c.table].rel, c.row))
  }

  /** The change is possible in `db`, and an unshipped column really is unchanged. */
  ghost predicate Happens(cfg: Config, c: Change, db: Db)
    requires ConfigOk(cfg)
  {
    && ChangeFits(cfg, c)
    && match c
       case InsertRow(n, row) => NewId(cfg, c) !in db
       case UpdateRow(n, key, row, toast) =>
         && RowId(n, key) in db
         && |db[RowId(n, key)]| == |row|
         && (NewId(cfg, c) == RowId(n, key) || NewId(cfg, c) !in db)
         && (forall i | i in toast :: i < |row| && row[i] == db[RowId(n, key)][i])
       case DeleteRow(n, key) => RowId(n, key) in db
  }

  ghost function After(cfg: Config, c: Change, db: Db): Db
    requires ConfigOk(cfg) && ChangeFits(cfg, c)
  {
    match c
    case InsertRow(n, row) => db[NewId(cfg, c) := row]
    case UpdateRow(n, key, row, _) => (db - {RowId(n, key)})[NewId(cfg, c) := row]
    case DeleteRow(n, key) => db - {RowId(n, key)}
  }

  // ------------------------------------------------------------- key ranges

  /** The keyspace id of a row identity, if its shard key is routable. */
  ghost function KeyspaceIdOf(cfg: Config, id: RowId): Result<U64, F.FilterError> {
    if id.table !in cfg.tables || cfg.tables[id.table].keyPos >= |id.key| then Err(F.UnroutableCell)
    else
      var v := id.key[cfg.tables[id.table].keyPos];
      if v.Null? then Err(F.UnroutableCell)
      else F.BytesKeyspaceId(v.bytes, cfg.tables[id.table].ty, cfg.hash)
  }

  ghost predicate InRange(cfg: Config, id: RowId) {
    KeyspaceIdOf(cfg, id).Ok? && cfg.range.Contains(KeyspaceIdOf(cfg, id).value)
  }

  /** The rows a shard with this range owns. */
  ghost function Restrict(cfg: Config, db: Db): Db {
    map id | id in db && InRange(cfg, id) :: db[id]
  }

  // ------------------------------------------------- the wire form of changes

  function ColumnOf(v: Value): M.TupleColumn {
    if v.Null? then M.NullColumn else M.TextColumn(v.bytes)
  }

  function FullTuple(row: Row, toast: set<nat>): (t: M.Tuple)
    ensures |t| == |row|
    ensures forall i | 0 <= i < |row| :: t[i] == if i in toast then M.UnchangedToast else ColumnOf(row[i])
  {
    seq(|row|, i requires 0 <= i < |row| => if i in toast then M.UnchangedToast else ColumnOf(row[i]))
  }

  function IndexOf(s: seq<nat>, x: nat): (p: nat)
    requires x in s
    ensures p < |s| && s[p] == x
  {
    if s[0] == x then 0 else 1 + IndexOf(s[1..], x)
  }

  /** The identity columns filled in, every other column null. */
  function KeyTuple(rel: Relation, key: seq<Value>): (t: M.Tuple)
    requires |key| == |rel.keyColumns|
    ensures |t| == rel.columns
    ensures forall i | 0 <= i < rel.columns ::
      t[i] == if i in rel.keyColumns then ColumnOf(key[IndexOf(rel.keyColumns, i)]) else M.NullColumn
  {
    seq(rel.columns, i requires 0 <= i < rel.columns =>
      if i in rel.keyColumns then ColumnOf(key[IndexOf(rel.keyColumns, i)]) else M.NullColumn)
  }

  /** The old identity is shipped when an update changes it or leaves one of its columns unshipped. */
  ghost predicate ShipsKey(t: Table, key: seq<Value>, row: Row, toast: set<nat>)
    requires TableOk(t) && RowFits(t, row)
  {
    KeyOf(t.rel, row) != key || exists i :: i in toast && i in t.rel.keyColumns
  }

  ghost function UpdateMessage(t: Table, key: seq<Value>, row: Row, toast: set<nat>): (m: M.Msg)
    requires TableOk(t) && RowFits(t, row) && |key| == |t.rel.keyColumns|
    ensures m.Update?
  {
    var before := if ShipsKey(t, key, row, toast) then Some(KeyTuple(t.rel, key)) else None;
    M.Update(None, t.oid, before, None, FullTuple(row, toast))
  }

  /** A row change as `pgoutput` ships it. */
  ghost function Encode(cfg: Config, c: Change): (m: M.Msg)
    requires ConfigOk(cfg) && ChangeFits(cfg, c)
    requires !c.InsertRow? ==> |c.key| == |cfg.tables[c.table].rel.keyColumns|
    ensures m.Insert? || m.Update? || m.Delete?
  {
    var t := cfg.tables[c.table];
    match c
    case InsertRow(_, row) => M.Insert(None, t.oid, FullTuple(row, {}))
    case UpdateRow(_, key, row, toast) => UpdateMessage(t, key, row, toast)
    case DeleteRow(_, key) => M.Delete(None, t.oid, Some(KeyTuple(t.rel, key)), None)
  }

  // -------------------------------------------------------------- the runner

  datatype RelFilter = RelFilter(keyIndex: nat, ty: Scalar.ScalarType)

  datatype RunError =
    | UnmappedTable(table: TableName)
    | ShardKeyMissing
    | IdentityLost
    | UnknownRow(oid: M.U32)
    | Filtered(filter: F.FilterError)
    | CrossesBoundary
    | DeleteWithoutKey
    | TruncateRefused
    | Refused(apply: ApplyError)

  /** The runner's filters and its applier's relations and buffer. */
  datatype Runner = Runner(
    filters: map<M.U32, RelFilter>, relations: map<M.U32, Relation>, pending: seq<A.PendingChange>)

  function Forward(r: Runner, msg: M.Msg): Result<Runner, RunError>
    requires msg.Insert? || msg.Update? || msg.Delete?
  {
    var c := A.Buffered(msg);
    if c.Err? then Err(Refused(c.error)) else Ok(r.(pending := r.pending + [c.value]))
  }

  /** The keep-or-skip decision of the streaming loop for one row change. */
  function OnChange(hash: F.ShardFn, range: KeyRange, r: Runner, msg: M.Msg): Result<Runner, RunError>
    requires msg.Insert? || msg.Update? || msg.Delete?
  {
    if msg.relOid !in r.filters then Err(UnknownRow(msg.relOid))
    else
      var f := r.filters[msg.relOid];
      match msg
      case Insert(_, _, t) =>
        var keep := F.TupleInRange(t, f.keyIndex, f.ty, hash, range);
        if keep.Err? then Err(Filtered(keep.error))
        else if keep.value then Forward(r, msg) else Ok(r)
      case Update(_, _, key, full, t) =>
        var keep := F.TupleInRange(t, f.keyIndex, f.ty, hash, range);
        if keep.Err? then Err(Filtered(keep.error))
        else
          var before := if key.Some? then key else full;
          var was := if before.Some? then F.TupleInRange(before.value, f.keyIndex, f.ty, hash, range) else keep;
          if was.Err? then Err(Filtered(was.error))
          else if was.value != keep.value then Err(CrossesBoundary)
          else if keep.value then Forward(r, msg) else Ok(r)
      case Delete(_, _, key, full) =>
        if key.None? && full.None? then Err(DeleteWithoutKey)
        else
          var keep := F.TupleInRange(if key.Some? then key.value else full.value, f.keyIndex, f.ty, hash, range);
          if keep.Err? then Err(Filtered(keep.error))
          else if keep.value then Forward(r, msg) else Ok(r)
  }

  /** Table `n` has been announced to the runner, as it is. */
  ghost predicate Knows(cfg: Config, r: Runner, n: TableName) {
    && n in cfg.tables
    && var t := cfg.tables[n];
       && t.oid in r.filters && r.filters[t.oid] == RelFilter(t.keyIndex, t.ty)
       && t.oid in r.relations && r.relations[t.oid] == t.rel
  }

  // -------------------------------------------------- one change, end to end

  /** The new row's shard key is shipped. */
  ghost predicate ShipsShardKey(cfg: Config, c: Change)
    requires c.table in cfg.tables
  {
    c.UpdateRow? ==> cfg.tables[c.table].keyIndex !in c.toast
  }

  /** When the runner can represent a change on its side of the boundary. */
  ghost predicate Accepted(cfg: Config, c: Change)
    requires ConfigOk(cfg) && ChangeFits(cfg, c)
  {
    && KeyspaceIdOf(cfg, NewId(cfg, c)).Ok? && ShipsShardKey(cfg, c)
    && (c.UpdateRow? && RowId(c.table, c.key) != NewId(cfg, c) ==>
          && KeyspaceIdOf(cfg, RowId(c.table, c.key)).Ok?
          && (InRange(cfg, RowId(c.table, c.key)) <==> InRange(cfg, NewId(cfg, c))))
  }

  lemma FullTupleKey(cfg: Config, n: TableName, row: Row, toast: set<nat>)
    requires ConfigOk(cfg) && n in cfg.tables && RowFits(cfg.tables[n], row) && cfg.tables[n].keyIndex !in toast
    ensures var t := cfg.tables[n];
      var id := KeyspaceIdOf(cfg, RowId(n, KeyOf(t.rel, row)));
      F.TupleInRange(FullTuple(row, toast), t.keyIndex, t.ty, cfg.hash, cfg.range) ==
        if id.Err? then Err(id.error) else Ok(cfg.range.Contains(id.value))
  {
    var t := cfg.tables[n];
    assert t.rel.keyColumns[t.keyPos] in t.rel.keyColumns;
  }

  lemma UnshippedKey(t: Table, row: Row, toast: set<nat>, hash: F.ShardFn, range: KeyRange)
    requires TableOk(t) && RowFits(t, row) && t.keyIndex in toast
    ensures F.TupleInRange(FullTuple(row, toast), t.keyIndex, t.ty, hash, range).Err?
  {
  }

  lemma {:induction false} IndexOfUnique(s: seq<nat>, p: nat)
    requires p < |s| && forall i, j | 0 <= i < j < |s| :: s[i] != s[j]
    ensures s[p] in s && IndexOf(s, s[p]) == p
  {
  }

  lemma KeyTupleKey(cfg: Config, n: TableName, key: seq<Value>)
    requires ConfigOk(cfg) && n in cfg.tables && |key| == |cfg.tables[n].rel.keyColumns|
    ensures var t := cfg.tables[n];
      var id := KeyspaceIdOf(cfg, RowId(n, key));
      F.TupleInRange(KeyTuple(t.rel, key), t.keyIndex, t.ty, cfg.hash, cfg.range) ==
        if id.Err? then Err(id.error) else Ok(cfg.range.Contains(id.value))
  {
    var t := cfg.tables[n];
    IndexOfUnique(t.rel.keyColumns, t.keyPos);
  }

  /** The identity of a stored row has one text value per identity column. */
  lemma StoredKey(cfg: Config, db: Db, id: RowId)
    requires ConfigOk(cfg) && RowsOk(cfg, db) && id in db
    ensures id.table in cfg.tables && |id.key| == |cfg.tables[id.table].rel.keyColumns|
    ensures forall p | 0 <= p < |id.key| :: id.key[p].Text? && Utf8(id.key[p].bytes)
  {
  }

  ghost predicate KeyIsText(key: seq<Value>) {
    forall p | 0 <= p < |key| :: key[p].Text? && Utf8(key[p].bytes)
  }

  ghost function Assignments(row: Row, toast: set<nat>): (a: seq<Option<Value>>)
    ensures |a| == |row| && forall i | 0 <= i < |row| :: a[i] == if i in toast then None else Some(row[i])
  {
    seq(|row|, i requires 0 <= i < |row| => if i in toast then None else Some(row[i]))
  }

  /** The statement a change means for a shard that owns the row. */
  ghost function StatementOf(cfg: Config, c: Change): Statement
    requires ConfigOk(cfg) && ChangeFits(cfg, c)
  {
    var rel := cfg.tables[c.table].rel;
    match c
    case InsertRow(_, row) => Insert(rel, row)
    case UpdateRow(_, key, row, toast) =>
      Update(rel, key, Assignments(row, toast))
    case DeleteRow(_, key) => Delete(rel, key)
  }

  function ShippedCell(v: Value, unshipped: bool): Cell {
    if unshipped then Unchanged else if v.Null? then NullCell else TextCell(v.bytes)
  }

  /** `cells` are the values of `row`, with the columns in `toast` unshipped. */
  ghost predicate Ships(cells: seq<Cell>, row: Row, toast: set<nat>) {
    && |cells| == |row|
    && forall i | 0 <= i < |row| :: cells[i] == ShippedCell(row[i], i in toast)
  }

  lemma CellsOfFullTuple(row: Row, toast: set<nat>)
    ensures A.TupleCells(FullTuple(row, toast)).Ok?
    ensures Ships(A.TupleCells(FullTuple(row, toast)).value, row, toast)
  {
    var t := FullTuple(row, toast);
    var cells := A.TupleCells(t).value;
    forall i | 0 <= i < |row| ensures cells[i] == ShippedCell(row[i], i in toast) {
      assert A.CellOf(t[i]) == Ok(cells[i]);
    }
  }

  lemma CellsOfKeyTuple(rel: Relation, key: seq<Value>)
    requires |key| == |rel.keyColumns| && rel.Valid()
    requires forall p, q | 0 <= p < q < |rel.keyColumns| :: rel.keyColumns[p] != rel.keyColumns[q]
    requires KeyIsText(key)
    ensures A.TupleCells(KeyTuple(rel, key)).Ok?
    ensures var cells := A.TupleCells(KeyTuple(rel, key)).value;
      && |cells| == rel.columns
      && KeyValues(rel.keyColumns, cells) == Ok(key)
  {
    var t := KeyTuple(rel, key);
    var cells := A.TupleCells(t).value;
    forall p | 0 <= p < |key|
      ensures cells[rel.keyColumns[p]] == TextCell(key[p].bytes)
    {
      IndexOfUnique(rel.keyColumns, p);
      assert A.CellOf(t[rel.keyColumns[p]]) == Ok(cells[rel.keyColumns[p]]);
    }
    assert KeyValues(rel.keyColumns, cells).Ok?;
    assert KeyValues(rel.keyColumns, cells).value == key;
  }

  lemma InsertBuilds(cfg: Config, r: Runner, c: Change)
    requires ConfigOk(cfg) && ChangeFits(cfg, c) && c.InsertRow? && Knows(cfg, r, c.table)
    requires forall o | o in r.relations :: r.relations[o].Valid()
    ensures A.Buffered(Encode(cfg, c)).Ok?
    ensures A.Build(r.relations, A.Buffered(Encode(cfg, c)).value) == Ok(Some(StatementOf(cfg, c)))
  {
    hide A.TupleCells, RenderAll, FullTuple;
    CellsOfFullTuple(c.row, {});
    var cells := A.TupleCells(FullTuple(c.row, {})).value;
    var row := RenderAll(cells);
    assert forall i | 0 <= i < |cells| :: RenderCell(cells[i]) == Ok(c.row[i]);
    assert row.value == c.row;
  }

  lemma DeleteBuilds(cfg: Config, r: Runner, c: Change)
    requires ConfigOk(cfg) && ChangeFits(cfg, c) && c.DeleteRow? && Knows(cfg, r, c.table)
    requires forall o | o in r.relations :: r.relations[o].Valid()
    requires |c.key| == |cfg.tables[c.table].rel.keyColumns| && KeyIsText(c.key)
    ensures A.Buffered(Encode(cfg, c)).Ok?
    ensures A.Build(r.relations, A.Buffered(Encode(cfg, c)).value) == Ok(Some(StatementOf(cfg, c)))
  {
    hide KeyTuple, KeyIsText, TableOk;
    var t := cfg.tables[c.table];
    var cells := DeleteBuffers(t, c.key);
    assert A.Buffered(Encode(cfg, c)) == Ok(A.PendingDelete(t.oid, cells));
  }

  lemma DeleteBuffers(t: Table, key: seq<Value>) returns (cells: seq<Cell>)
    requires TableOk(t) && |key| == |t.rel.keyColumns| && KeyIsText(key)
    ensures A.TupleCells(KeyTuple(t.rel, key)) == Ok(cells)
    ensures BuildDelete(t.rel, cells) == Ok(Delete(t.rel, key))
  {
    CellsOfKeyTuple(t.rel, key);
    cells := A.TupleCells(KeyTuple(t.rel, key)).value;
  }

  lemma UpdateBuilds(cfg: Config, r: Runner, c: Change)
    requires ConfigOk(cfg) && ChangeFits(cfg, c) && c.UpdateRow? && Knows(cfg, r, c.table)
    requires forall o | o in r.relations :: r.relations[o].Valid()
    requires |c.key| == |cfg.tables[c.table].rel.keyColumns| && KeyIsText(c.key)
    ensures A.Buffered(Encode(cfg, c)).Ok?
    ensures ShipsShardKey(cfg, c) ==> A.Build(r.relations, A.Buffered(Encode(cfg, c)).value) == Ok(Some(StatementOf(cfg, c)))
  {
    hide TableOk, RowFits, UpdateMessage, KeyValues, BuildUpdate, Ships, A.Buffered, Assignments;
    var t := cfg.tables[c.table];
    var keySource, cells := UpdateBuffers(t, c.key, c.row, c.toast);
    assert A.Buffered(Encode(cfg, c)) == Ok(A.PendingUpdate(t.oid, keySource, cells));
    if ShipsShardKey(cfg, c) { UpdateStatement(t, c.row, c.toast, cells, keySource, c.key); }
  }

  /** The message of an update buffers as the old identity's cells and the new row's cells. */
  lemma UpdateBuffers(t: Table, key: seq<Value>, row: Row, toast: set<nat>) returns (keySource: seq<Cell>, cells: seq<Cell>)
    requires TableOk(t) && RowFits(t, row) && |key| == |t.rel.keyColumns| && KeyIsText(key)
    ensures A.Buffered(UpdateMessage(t, key, row, toast)) == Ok(A.PendingUpdate(t.oid, keySource, cells))
    ensures Ships(cells, row, toast)
    ensures |keySource| == t.rel.columns && KeyValues(t.rel.keyColumns, keySource) == Ok(key)
  {
    hide A.TupleCells, KeyValues, FullTuple, KeyTuple;
    CellsOfFullTuple(row, toast);
    cells := A.TupleCells(FullTuple(row, toast)).value;
    if ShipsKey(t, key, row, toast) {
      CellsOfKeyTuple(t.rel, key);
      keySource := A.TupleCells(KeyTuple(t.rel, key)).value;
    } else {
      NewTupleKey(t, row, toast, cells);
      keySource := cells;
    }
  }

  lemma {:induction false} UpdateStatement(t: Table, row: Row, toast: set<nat>, cells: seq<Cell>, keySource: seq<Cell>, key: seq<Value>)
    requires TableOk(t) && RowFits(t, row) && Ships(cells, row, toast) && t.keyIndex !in toast
    requires |keySource| == t.rel.columns && KeyValues(t.rel.keyColumns, keySource) == Ok(key)
    ensures BuildUpdate(t.rel, keySource, cells) == Ok(Some(Update(t.rel, key, Assignments(row, toast))))
  {
    AssignmentsOf(row, toast, cells);
    assert !cells[t.keyIndex].Unchanged?;
  }

  lemma {:induction false} AssignmentsOf(row: Row, toast: set<nat>, cells: seq<Cell>)
    requires Ships(cells, row, toast)
    requires forall i | 0 <= i < |row| :: row[i].Text? ==> Utf8(row[i].bytes)
    ensures RenderAssignments(cells) == Ok(Assignments(row, toast))
  {
    assert forall i | 0 <= i < |cells| :: cells[i].Unchanged? || RenderCell(cells[i]) == Ok(row[i]);
    assert RenderAssignments(cells).value == Assignments(row, toast);
  }

  lemma {:induction false} NewTupleKey(t: Table, row: Row, toast: set<nat>, cells: seq<Cell>)
    requires TableOk(t) && RowFits(t, row) && Ships(cells, row, toast)
    requires forall i | i in toast :: i !in t.rel.keyColumns
    ensures KeyValues(t.rel.keyColumns, cells) == Ok(KeyOf(t.rel, row))
  {
    forall p | 0 <= p < |t.rel.keyColumns|
      ensures cells[t.rel.keyColumns[p]] == TextCell(row[t.rel.keyColumns[p]].bytes)
    {
      assert t.rel.keyColumns[p] in t.rel.keyColumns;
    }
    assert KeyValues(t.rel.keyColumns, cells).Ok?;
    assert KeyValues(t.rel.keyColumns, cells).value == KeyOf(t.rel, row);
  }

  lemma Builds(cfg: Config, r: Runner, c: Change, db: Db)
    requires ConfigOk(cfg) && RowsOk(cfg, db) && Happens(cfg, c, db) && Knows(cfg, r, c.table)
    requires forall o | o in r.relations :: r.relations[o].Valid()
    ensures !c.InsertRow? ==> |c.key| == |cfg.tables[c.table].rel.keyColumns|
    ensures A.Buffered(Encode(cfg, c)).Ok?
    ensures ShipsShardKey(cfg, c) ==> A.Build(r.relations, A.Buffered(Encode(cfg, c)).value) == Ok(Some(StatementOf(cfg, c)))
  {
    if !c.InsertRow? {
      StoredKey(cfg, db, RowId(c.table, c.key));
      assert KeyIsText(c.key);
    }
    match c
    case InsertRow(_, _) => InsertBuilds(cfg, r, c);
    case UpdateRow(_, _, _, _) => UpdateBuilds(cfg, r, c);
    case DeleteRow(_, _) => DeleteBuilds(cfg, r, c);
  }

  /** A change keeps the source's rows well formed. */
  lemma AfterOk(cfg: Config, c: Change, db: Db)
    requires ConfigOk(cfg) && RowsOk(cfg, db) && Happens(cfg, c, db)
    ensures RowsOk(cfg, After(cfg, c, db))
  {
  }

  /** An update's old and new identity lie on the same side of the boundary. */
  ghost predicate OneSided(cfg: Config, c: Change)
    requires ConfigOk(cfg) && ChangeFits(cfg, c)
  {
    c.UpdateRow? ==> (InRange(cfg, RowId(c.table, c.key)) <==> InRange(cfg, NewId(cfg, c)))
  }

  lemma RestrictPut(cfg: Config, db: Db, id: RowId, row: Row)
    requires InRange(cfg, id)
    ensures Restrict(cfg, db[id := row]) == Restrict(cfg, db)[id := row]
  {
  }

  lemma RestrictDrop(cfg: Config, db: Db, id: RowId)
    ensures Restrict(cfg, db - {id}) == Restrict(cfg, db) - {id}
  {
  }

  lemma UpdateExecutes(t: Table, key: seq<Value>, row: Row, toast: set<nat>, visible: Db)
    requires TableOk(t) && RowFits(t, row)
    requires var id, moved := RowId(t.rel.table, key), RowId(t.rel.table, KeyOf(t.rel, row));
      && id in visible && |visible[id]| == |row|
      && (moved == id || moved !in visible)
      && forall i | i in toast :: i < |row| && row[i] == visible[id][i]
    ensures var id, moved := RowId(t.rel.table, key), RowId(t.rel.table, KeyOf(t.rel, row));
      Execute(Update(t.rel, key, Assignments(row, toast)), visible) == Ok(map[id := None][moved := Some(row)])
  {
    assert Merge(visible[RowId(t.rel.table, key)], Assignments(row, toast)) == row;
  }

  lemma OverlayMove(rows: Db, id: RowId, moved: RowId, row: Row)
    ensures Overlay(rows, map[id := None][moved := Some(row)]) == (rows - {id})[moved := row]
  {
  }

  lemma OverlayPut(rows: Db, id: RowId, row: Row)
    ensures Overlay(rows, map[id := Some(row)]) == rows[id := row]
  {
  }

  lemma OverlayDrop(rows: Db, id: RowId)
    ensures Overlay(rows, map[id := None]) == rows - {id}
  {
  }

  lemma UpdateTracks(cfg: Config, c: Change, db: Db)
    requires ConfigOk(cfg) && c.UpdateRow? && Happens(cfg, c, db)
    requires InRange(cfg, RowId(c.table, c.key)) && InRange(cfg, NewId(cfg, c))
    ensures var writes := map[RowId(c.table, c.key) := None][NewId(cfg, c) := Some(c.row)];
      && Execute(StatementOf(cfg, c), Restrict(cfg, db)) == Ok(writes)
      && Overlay(Restrict(cfg, db), writes) == Restrict(cfg, After(cfg, c, db))
  {
    var rows, was, id := Restrict(cfg, db), RowId(c.table, c.key), NewId(cfg, c);
    UpdateExecutes(cfg.tables[c.table], c.key, c.row, c.toast, rows);
    RestrictDrop(cfg, db, was);
    RestrictPut(cfg, db - {was}, id, c.row);
    OverlayMove(rows, was, id, c.row);
  }

  /** On the rows of the range, the statement of an in-range change succeeds and gives the rows of the range. */
  lemma StatementTracks(cfg: Config, c: Change, db: Db)
    requires ConfigOk(cfg) && RowsOk(cfg, db) && Happens(cfg, c, db)
    requires OneSided(cfg, c) && InRange(cfg, NewId(cfg, c))
    ensures Execute(StatementOf(cfg, c), Restrict(cfg, db)).Ok?
    ensures Overlay(Restrict(cfg, db), Execute(StatementOf(cfg, c), Restrict(cfg, db)).value)
         == Restrict(cfg, After(cfg, c, db))
  {
    hide InRange, KeyOf, Merge, RowsOk;
    var rows, id := Restrict(cfg, db), NewId(cfg, c);
    match c
    case InsertRow(_, row) =>
      RestrictPut(cfg, db, id, row);
      OverlayPut(rows, id, row);
    case UpdateRow(_, _, _, _) => UpdateTracks(cfg, c, db);
    case DeleteRow(n, key) =>
      RestrictDrop(cfg, db, id);
      OverlayDrop(rows, id);
  }

  /** A change outside the range does not touch the rows of the range. */
  lemma SkipTracks(cfg: Config, c: Change, db: Db)
    requires ConfigOk(cfg) && Happens(cfg, c, db)
    requires OneSided(cfg, c) && !InRange(cfg, NewId(cfg, c))
    ensures Restrict(cfg, After(cfg, c, db)) == Restrict(cfg, db)
  {
  }

  /** What the runner does with one change of the source. */
  ghost predicate Decides(cfg: Config, r: Runner, c: Change, out: Result<Runner, RunError>)
    requires ConfigOk(cfg) && ChangeFits(cfg, c)
    requires !c.InsertRow? ==> |c.key| == |cfg.tables[c.table].rel.keyColumns|
  {
    && (out.Ok? <==> Accepted(cfg, c))
    && (out.Ok? && InRange(cfg, NewId(cfg, c)) ==> Forward(r, Encode(cfg, c)) == out)
    && (out.Ok? && !InRange(cfg, NewId(cfg, c)) ==> out.value == r)
  }

  lemma InsertDecides(cfg: Config, r: Runner, c: Change)
    requires ConfigOk(cfg) && ChangeFits(cfg, c) && c.InsertRow? && Knows(cfg, r, c.table)
    requires Forward(r, Encode(cfg, c)).Ok?
    ensures Decides(cfg, r, c, OnChange(cfg.hash, cfg.range, r, Encode(cfg, c)))
  {
    FullTupleKey(cfg, c.table, c.row, {});
  }

  lemma DeleteDecides(cfg: Config, r: Runner, c: Change)
    requires ConfigOk(cfg) && ChangeFits(cfg, c) && c.DeleteRow? && Knows(cfg, r, c.table)
    requires |c.key| == |cfg.tables[c.table].rel.keyColumns|
    requires Forward(r, Encode(cfg, c)).Ok?
    ensures Decides(cfg, r, c, OnChange(cfg.hash, cfg.range, r, Encode(cfg, c)))
  {
    KeyTupleKey(cfg, c.table, c.key);
  }

  lemma UpdateDecides(cfg: Config, r: Runner, c: Change)
    requires ConfigOk(cfg) && ChangeFits(cfg, c) && c.UpdateRow? && Knows(cfg, r, c.table)
    requires |c.key| == |cfg.tables[c.table].rel.keyColumns|
    requires Forward(r, Encode(cfg, c)).Ok?
    ensures Decides(cfg, r, c, OnChange(cfg.hash, cfg.range, r, Encode(cfg, c)))
  {
    hide F.TupleInRange, KeyTuple, FullTuple, A.Buffered;
    if ShipsShardKey(cfg, c) {
      FullTupleKey(cfg, c.table, c.row, c.toast);
      KeyTupleKey(cfg, c.table, c.key);
    } else {
      UnshippedKey(cfg.tables[c.table], c.row, c.toast, cfg.hash, cfg.range);
    }
  }

  /** The runner takes a change exactly when its shard key was shipped, it is routable and it does not cross the boundary. */
  lemma RunnerDecides(cfg: Config, r: Runner, c: Change, db: Db)
    requires ConfigOk(cfg) && RowsOk(cfg, db) && Happens(cfg, c, db) && Knows(cfg, r, c.table)
    requires forall o | o in r.relations :: r.relations[o].Valid()
    ensures !c.InsertRow? ==> |c.key| == |cfg.tables[c.table].rel.keyColumns|
    ensures Decides(cfg, r, c, OnChange(cfg.hash, cfg.range, r, Encode(cfg, c)))
  {
    hide Accepted, OnChange, InRange, A.Buffered, A.Build, Encode, RowsOk, TableOk, NewId, StatementOf;
    Builds(cfg, r, c, db);
    match c
    case InsertRow(_, _) => InsertDecides(cfg, r, c);
    case UpdateRow(_, _, _, _) => UpdateDecides(cfg, r, c);
    case DeleteRow(_, _) => DeleteDecides(cfg, r, c);
  }
}
