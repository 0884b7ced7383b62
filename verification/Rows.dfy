/**
Target tables and the statements the applier builds
(`crates/pgshard-repl/src/apply.rs`, `build_insert`, `build_update`, `build_delete`, `build_where`).

A database is a map from replica-identity key to row. A statement is the meaning
of the SQL text the source renders: an insert of a full row, or an update or
delete of the row with a given key.
*/
module Rows {
  import opened Wrappers
  import opened Bytes

  /** A stored column value, in the text form the column's output function gives. */
  datatype Value = Null | Text(bytes: seq<Byte>)

  type Row = seq<Value>

  datatype TableName = TableName(schema: seq<Byte>, name: seq<Byte>)

  /** The replica identity of one row of one table. */
  datatype RowId = RowId(table: TableName, key: seq<Value>)

  type Db = map<RowId, Row>

  /** One column of a shipped tuple, after the binary format has been refused. */
  datatype Cell = NullCell | TextCell(bytes: seq<Byte>) | Unchanged

  /** `identity` is `relreplident`; `keyColumns` are the identity's column indices. */
  datatype Relation = Relation(table: TableName, columns: nat, identity: Byte, keyColumns: seq<nat>) {
    ghost predicate Valid() {
      forall p | 0 <= p < |keyColumns| :: keyColumns[p] < columns
    }
  }

  const IDENTITY_DEFAULT: Byte := 100  // b'd'
  const IDENTITY_INDEX: Byte := 105    // b'i'

  datatype Statement =
    | Insert(rel: Relation, row: Row)
    | Update(rel: Relation, key: seq<Value>, assignments: seq<Option<Value>>)
    | Delete(rel: Relation, key: seq<Value>)

  datatype ApplyError =
    | DbError
    | UnknownRelation(oid: nat)
    | ColumnCountMismatch(expected: nat, actual: nat)
    | InvalidUtf8
    | RowCountMismatch(affected: nat)
    | Fenced
    | Unsupported

  // ----------------------------------------------------- building statements

  function RenderCell(c: Cell): Result<Value, ApplyError> {
    match c
    case NullCell => Ok(Null)
    case TextCell(b) => if Utf8(b) then Ok(Text(b)) else Err(InvalidUtf8)
    case Unchanged => Err(Unsupported)
  }

  function RenderAll(cells: seq<Cell>): (r: Result<Row, ApplyError>)
    ensures r.Ok? ==> |r.value| == |cells|
    ensures r.Ok? <==> forall i | 0 <= i < |cells| :: RenderCell(cells[i]).Ok?
    ensures r.Ok? ==> forall i | 0 <= i < |cells| :: RenderCell(cells[i]) == Ok(r.value[i])
  {
    if cells == [] then Ok([])
    else
      var head := RenderCell(cells[0]);
      var tail := RenderAll(cells[1..]);
      assert forall i | 1 <= i < |cells| :: cells[i] == cells[1..][i - 1];
      if head.Err? then Err(head.error)
      else if tail.Err? then
        assert exists i | 0 <= i < |cells[1..]| :: RenderCell(cells[1..][i]).Err?;
        Err(tail.error)
      else Ok([head.value] + tail.value)
  }

  /** `None` at a column whose stored value stays. */
  function RenderAssignments(cells: seq<Cell>): (r: Result<seq<Option<Value>>, ApplyError>)
    ensures r.Ok? ==> |r.value| == |cells|
    ensures r.Ok? <==> forall i | 0 <= i < |cells| :: cells[i].Unchanged? || RenderCell(cells[i]).Ok?
    ensures r.Ok? ==> forall i | 0 <= i < |cells| ::
      if cells[i].Unchanged? then r.value[i] == None
      else RenderCell(cells[i]).Ok? && r.value[i] == Some(RenderCell(cells[i]).value)
  {
    if cells == [] then Ok([])
    else
      var tail := RenderAssignments(cells[1..]);
      assert forall i | 1 <= i < |cells| :: cells[i] == cells[1..][i - 1];
      if cells[0].Unchanged? then
        if tail.Err? then
          assert exists i | 0 <= i < |cells[1..]| :: !(cells[1..][i].Unchanged? || RenderCell(cells[1..][i]).Ok?);
          Err(tail.error)
        else Ok([None] + tail.value)
      else
        var head := RenderCell(cells[0]);
        if head.Err? then Err(head.error)
        else if tail.Err? then
          assert exists i | 0 <= i < |cells[1..]| :: !(cells[1..][i].Unchanged? || RenderCell(cells[1..][i]).Ok?);
          Err(tail.error)
        else Ok([Some(head.value)] + tail.value)
  }

  /** The key values of a `WHERE`: every identity column present as text. */
  function KeyValues(keyColumns: seq<nat>, cells: seq<Cell>): (r: Result<seq<Value>, ApplyError>)
    requires forall p | 0 <= p < |keyColumns| :: keyColumns[p] < |cells|
    ensures r.Ok? ==> |r.value| == |keyColumns|
    ensures r.Ok? <==> forall p | 0 <= p < |keyColumns| :: cells[keyColumns[p]].TextCell? && Utf8(cells[keyColumns[p]].bytes)
    ensures r.Ok? ==> forall p | 0 <= p < |keyColumns| ::
      cells[keyColumns[p]].TextCell? && r.value[p] == Text(cells[keyColumns[p]].bytes)
  {
    if keyColumns == [] then Ok([])
    else
      var c := cells[keyColumns[0]];
      assert forall p | 1 <= p < |keyColumns| :: keyColumns[p] == keyColumns[1..][p - 1];
      var rest := KeyValues(keyColumns[1..], cells);
      if !c.TextCell? then Err(Unsupported)
      else if !Utf8(c.bytes) then Err(InvalidUtf8)
      else if rest.Err? then
        assert exists p | 0 <= p < |keyColumns[1..]| ::
          !(cells[keyColumns[1..][p]].TextCell? && Utf8(cells[keyColumns[1..][p]].bytes));
        Err(rest.error)
      else Ok([Text(c.bytes)] + rest.value)
  }

  function BuildWhere(rel: Relation, cells: seq<Cell>): Result<seq<Value>, ApplyError>
    requires rel.Valid() && |cells| == rel.columns
  {
    if rel.identity != IDENTITY_DEFAULT && rel.identity != IDENTITY_INDEX then Err(Unsupported)
    else if rel.keyColumns == [] then Err(Unsupported)
    else KeyValues(rel.keyColumns, cells)
  }

  function BuildInsert(rel: Relation, cells: seq<Cell>): Result<Statement, ApplyError> {
    if |cells| != rel.columns then Err(ColumnCountMismatch(rel.columns, |cells|))
    else
      var row := RenderAll(cells);
      if row.Err? then Err(row.error) else Ok(Insert(rel, row.value))
  }

  /** `None` when every column is an unshipped value and there is nothing to set. */
  function BuildUpdate(rel: Relation, keySource: seq<Cell>, cells: seq<Cell>): Result<Option<Statement>, ApplyError>
    requires rel.Valid()
  {
    if |keySource| != rel.columns then Err(ColumnCountMismatch(rel.columns, |keySource|))
    else if |cells| != rel.columns then Err(ColumnCountMismatch(rel.columns, |cells|))
    else
      var assignments := RenderAssignments(cells);
      if assignments.Err? then Err(assignments.error)
      else if forall i | 0 <= i < |cells| :: cells[i].Unchanged? then Ok(None)
      else
        var key := BuildWhere(rel, keySource);
        if key.Err? then Err(key.error) else Ok(Some(Update(rel, key.value, assignments.value)))
  }

  function BuildDelete(rel: Relation, keySource: seq<Cell>): Result<Statement, ApplyError>
    requires rel.Valid()
  {
    if |keySource| != rel.columns then Err(ColumnCountMismatch(rel.columns, |keySource|))
    else
      var key := BuildWhere(rel, keySource);
      if key.Err? then Err(key.error) else Ok(Delete(rel, key.value))
  }

  // --------------------------------------------------- executing statements

  function KeyOf(rel: Relation, row: Row): (key: seq<Value>)
    requires rel.Valid() && |row| == rel.columns
  {
    seq(|rel.keyColumns|, p requires 0 <= p < |rel.keyColumns| => row[rel.keyColumns[p]])
  }

  function Merge(stored: Row, assignments: seq<Option<Value>>): (row: Row)
    requires |stored| == |assignments|
    ensures |row| == |stored|
    ensures forall i | 0 <= i < |stored| :: row[i] == if assignments[i].Some? then assignments[i].value else stored[i]
  {
    seq(|stored|, i requires 0 <= i < |stored| => if assignments[i].Some? then assignments[i].value else stored[i])
  }

  predicate WellFormed(stmt: Statement) {
    && (forall p | 0 <= p < |stmt.rel.keyColumns| :: stmt.rel.keyColumns[p] < stmt.rel.columns)
    && match stmt
       case Insert(rel, row) => |row| == rel.columns
       case Update(rel, key, assignments) => |assignments| == rel.columns
       case Delete(rel, key) => true
  }

  /** The row changes of one statement: `None` marks a deleted row. */
  type Writes = map<RowId, Option<Row>>

  /**
  Runs one statement against the visible rows. The target enforces the identity's
  uniqueness, and a statement that does not touch exactly one row is an error.
  */
  function Execute(stmt: Statement, visible: Db): (r: Result<Writes, ApplyError>) {
    if !WellFormed(stmt) then Err(DbError)
    else match stmt
      case Insert(rel, row) =>
        var id := RowId(rel.table, KeyOf(rel, row));
        if id in visible then Err(DbError) else Ok(map[id := Some(row)])
      case Update(rel, key, assignments) =>
        var id := RowId(rel.table, key);
        if id !in visible then Err(RowCountMismatch(0))
        else if |visible[id]| != rel.columns then Err(DbError)
        else
          var row := Merge(visible[id], assignments);
          var moved := RowId(rel.table, KeyOf(rel, row));
          if moved != id && moved in visible then Err(DbError)
          else Ok(map[id := None][moved := Some(row)])
      case Delete(rel, key) =>
        var id := RowId(rel.table, key);
        if id !in visible then Err(RowCountMismatch(0)) else Ok(map[id := None])
  }

  /** Committed rows as seen through a transaction's own writes. */
  function Overlay(rows: Db, writes: Writes): (visible: Db)
    ensures forall id :: id in visible <==> if id in writes then writes[id].Some? else id in rows
    ensures forall id | id in visible :: visible[id] == if id in writes then writes[id].value else rows[id]
  {
    map id | id in rows.Keys + writes.Keys && (if id in writes then writes[id].Some? else id in rows)
      :: if id in writes then writes[id].value else rows[id]
  }

  lemma OverlayTwice(rows: Db, first: Writes, second: Writes)
    ensures Overlay(Overlay(rows, first), second) == Overlay(rows, first + second)
  {
  }

  lemma OverlayNothing(rows: Db)
    ensures Overlay(rows, map[]) == rows
  {
  }

  /** Runs statements one after the other. */
  function ExecuteAll(stmts: seq<Statement>, rows: Db): Result<Db, ApplyError> {
    if stmts == [] then Ok(rows)
    else
      var before := ExecuteAll(stmts[..|stmts| - 1], rows);
      if before.Err? then before
      else
        var step := Execute(stmts[|stmts| - 1], before.value);
        if step.Err? then Err(step.error) else Ok(Overlay(before.value, step.value))
  }
}
