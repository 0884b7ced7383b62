/** The applier object: buffering decoded messages and applying at commit (`crates/pgshard-repl/src/apply.rs`). */
module Apply {
  import opened Wrappers
  import opened Keyspace
  import opened Rows
  import M = Messages
  import EO = ExactlyOnce

  datatype PendingChange =
    | PendingInsert(relOid: M.U32, new_: seq<Cell>)
    | PendingUpdate(relOid: M.U32, keySource: seq<Cell>, new_: seq<Cell>)
    | PendingDelete(relOid: M.U32, keySource: seq<Cell>)

  function CellOf(c: M.TupleColumn): Result<Cell, ApplyError> {
    match c
    case NullColumn => Ok(NullCell)
    case TextColumn(b) => Ok(TextCell(b))
    case UnchangedToast => Ok(Unchanged)
    case BinaryColumn(_) => Err(Unsupported)
  }

  function TupleCells(t: M.Tuple): (r: Result<seq<Cell>, ApplyError>)
    ensures r.Ok? <==> forall i | 0 <= i < |t| :: !t[i].BinaryColumn?
    ensures r.Ok? ==> |r.value| == |t| && forall i | 0 <= i < |t| :: CellOf(t[i]) == Ok(r.value[i])
  {
    if t == [] then Ok([])
    else
      var head := CellOf(t[0]);
      var tail := TupleCells(t[1..]);
      assert forall i | 1 <= i < |t| :: t[i] == t[1..][i - 1];
      if head.Err? then Err(head.error)
      else if tail.Err? then
        assert exists i | 0 <= i < |t[1..]| :: t[1..][i].BinaryColumn?;
        Err(tail.error)
      else Ok([head.value] + tail.value)
  }

  function KeyColumnsFrom(columns: seq<M.RelationColumn>, from: nat): (ks: seq<nat>)
    requires from <= |columns|
    ensures forall p | 0 <= p < |ks| :: from <= ks[p] < |columns| && columns[ks[p]].IsKey()
    ensures forall i | from <= i < |columns| && columns[i].IsKey() :: i in ks
    decreases |columns| - from
  {
    if from == |columns| then []
    else
      var rest := KeyColumnsFrom(columns, from + 1);
      if columns[from].IsKey() then [from] + rest else rest
  }

  function RelationOf(m: M.Msg): (rel: Relation)
    requires m.Relation?
    ensures rel.Valid()
  {
    Relation(TableName(m.namespace, m.name), |m.columns|, m.replicaIdentity, KeyColumnsFrom(m.columns, 0))
  }

  /** The statement a buffered change becomes; `None` for an update with nothing to set. */
  function Build(relations: map<M.U32, Relation>, change: PendingChange): Result<Option<Statement>, ApplyError>
    requires forall o | o in relations :: relations[o].Valid()
  {
    if change.relOid !in relations then Err(UnknownRelation(change.relOid))
    else
      var rel := relations[change.relOid];
      match change
      case PendingInsert(_, cells) =>
        var s := BuildInsert(rel, cells);
        if s.Err? then Err(s.error) else Ok(Some(s.value))
      case PendingUpdate(_, keySource, cells) => BuildUpdate(rel, keySource, cells)
      case PendingDelete(_, keySource) =>
        var s := BuildDelete(rel, keySource);
        if s.Err? then Err(s.error) else Ok(Some(s.value))
  }

  function BuildAll(relations: map<M.U32, Relation>, pending: seq<PendingChange>): Result<seq<Statement>, ApplyError>
    requires forall o | o in relations :: relations[o].Valid()
  {
    if pending == [] then Ok([])
    else
      var before := BuildAll(relations, pending[..|pending| - 1]);
      if before.Err? then before
      else
        var last := Build(relations, pending[|pending| - 1]);
        if last.Err? then Err(last.error)
        else if last.value.None? then before
        else Ok(before.value + [last.value.value])
  }

  /** How the target transaction ends when every statement succeeded. */
  datatype Fate = Lost | Ends(fate: EO.Fate)

  /** The target database: committed rows and the progress table. */
  class Target {
    var rows: Db
    var progress: map<string, EO.Progress>

    constructor(rows: Db)
      ensures this.rows == rows && progress == map[]
    {
      this.rows := rows;
      progress := map[];
    }
  }

  ghost function ProgressOf(progress: map<string, EO.Progress>, consumer: string): Option<EO.Progress> {
    if consumer in progress then Some(progress[consumer]) else None
  }

  class Applier {
    const target: Target
    const consumer: string
    var relations: map<M.U32, Relation>
    var checkpoint: U64
    var ack: U64
    var pending: seq<PendingChange>

    ghost predicate Valid()
      reads this
    {
      forall o | o in relations :: relations[o].Valid()
    }

    constructor(target: Target, consumer: string)
      requires consumer in target.progress ==> EO.ProgressStored(Some(target.progress[consumer]))
      ensures Valid() && this.target == target && this.consumer == consumer && pending == [] && relations == map[]
      ensures EO.ProgressStored(ProgressOf(target.progress, consumer))
      ensures var w := EO.LoadWorker(ProgressOf(target.progress, consumer), 0);
        checkpoint == w.checkpoint && ack == w.ack
    {
      this.target := target;
      this.consumer := consumer;
      relations := map[];
      pending := [];
      if consumer in target.progress {
        var lsn := EO.AsU64OfI64(target.progress[consumer].lsn);
        var end := EO.AsU64OfI64(target.progress[consumer].end);
        checkpoint := lsn;
        ack := if end > lsn then end else lsn;
      } else {
        checkpoint := 0;
        ack := 0;
      }
    }

    /** Track relations, buffer changes, apply at commit; refuse what cannot be applied. */
    method Handle(msg: M.Msg, fate: Fate) returns (r: Result<(), ApplyError>)
      requires Valid()
      modifies this, target
      ensures Valid()
      ensures !msg.Commit? ==> target.rows == old(target.rows) && target.progress == old(target.progress)
      ensures !msg.Commit? ==> checkpoint == old(checkpoint) && ack == old(ack)
      ensures msg.Relation? ==> r.Ok? && relations == old(relations)[msg.oid := RelationOf(msg)] && pending == old(pending)
      ensures !msg.Relation? ==> relations == old(relations)
      ensures msg.Begin? ==> r.Ok? && pending == []
      ensures (msg.Insert? || msg.Update? || msg.Delete?) ==>
        var c := Buffered(msg);
        if c.Err? then r == Err(c.error) && pending == old(pending) else r.Ok? && pending == old(pending) + [c.value]
      ensures (msg.Origin? || msg.TypeDecl? || msg.Message?) ==> r.Ok? && pending == old(pending)
      ensures (msg.Truncate? || msg.StreamStart? || msg.StreamStop? || msg.StreamCommit? || msg.StreamAbort?
               || msg.BeginPrepare? || msg.Prepare? || msg.CommitPrepared? || msg.StreamPrepare? || msg.RollbackPrepared?) ==>
        r == Err(Unsupported) && pending == old(pending)
      ensures msg.Commit? ==>
        CommitOutcome(msg.commitLsn, msg.endLsn, fate, r, old(View()), View(), old(target.rows), target.rows,
                      old(target.progress), target.progress)
    {
      hide CommitOutcome, RelationOf, Buffered;
      if msg.Commit? {
        r := ApplyCommit(msg.commitLsn, msg.endLsn, fate);
      } else {
        r := Remember(msg);
      }
    }

    /** Every message but the commit: only the relation cache and the buffered changes may move. */
    method Remember(msg: M.Msg) returns (r: Result<(), ApplyError>)
      requires Valid() && !msg.Commit?
      modifies this`relations, this`pending
      ensures Valid()
      ensures msg.Relation? ==> r.Ok? && relations == old(relations)[msg.oid := RelationOf(msg)] && pending == old(pending)
      ensures !msg.Relation? ==> relations == old(relations)
      ensures msg.Begin? ==> r.Ok? && pending == []
      ensures (msg.Insert? || msg.Update? || msg.Delete?) ==>
        var c := Buffered(msg);
        if c.Err? then r == Err(c.error) && pending == old(pending) else r.Ok? && pending == old(pending) + [c.value]
      ensures (msg.Origin? || msg.TypeDecl? || msg.Message?) ==> r.Ok? && pending == old(pending)
      ensures (msg.Truncate? || msg.StreamStart? || msg.StreamStop? || msg.StreamCommit? || msg.StreamAbort?
               || msg.BeginPrepare? || msg.Prepare? || msg.CommitPrepared? || msg.StreamPrepare? || msg.RollbackPrepared?) ==>
        r == Err(Unsupported) && pending == old(pending)
    {
      hide RelationOf, Buffered;
      match msg
      case Relation(_, oid, _, _, _, _) =>
        relations := relations[oid := RelationOf(msg)];
        return Ok(());
      case Begin(_, _, _) =>
        pending := [];
        return Ok(());
      case Insert(_, _, _) =>
        var c := Buffered(msg);
        if c.Err? { return Err(c.error); }
        pending := pending + [c.value];
        return Ok(());
      case Update(_, _, _, _, _) =>
        var c := Buffered(msg);
        if c.Err? { return Err(c.error); }
        pending := pending + [c.value];
        return Ok(());
      case Delete(_, _, _, _) =>
        var c := Buffered(msg);
        if c.Err? { return Err(c.error); }
        pending := pending + [c.value];
        return Ok(());
      case Origin(_, _) => return Ok(());
      case TypeDecl(_, _, _, _) => return Ok(());
      case Message(_, _, _, _, _) => return Ok(());
      case _ => return Err(Unsupported);
    }

    ghost function View(): ApplierView
      reads this
    {
      ApplierView(relations, consumer, checkpoint, ack, pending)
    }

    /** Every statement is built before the target transaction opens. */
    method BuildStatements() returns (r: Result<seq<Statement>, ApplyError>)
      requires Valid()
      ensures r == BuildAll(relations, pending)
    {
      var statements: seq<Statement> := [];
      for i := 0 to |pending|
        invariant BuildAll(relations, pending[..i]) == Ok(statements)
      {
        var built := Build(relations, pending[i]);
        assert pending[..i + 1][..i] == pending[..i];
        if built.Err? {
          BuildFailsWhole(relations, pending, i + 1);
          return Err(built.error);
        }
        if built.value.Some? {
          statements := statements + [built.value.value];
        }
      }
      assert pending[..|pending|] == pending;
      return Ok(statements);
    }

    /** Runs the statements inside the transaction; nothing is committed yet. */
    method RunStatements(statements: seq<Statement>) returns (r: Result<Writes, ApplyError>)
      ensures var all := ExecuteAll(statements, target.rows);
        if r.Ok? then all == Ok(Overlay(target.rows, r.value)) else all == Err(r.error)
    {
      var writes: Writes := map[];
      OverlayNothing(target.rows);
      for i := 0 to |statements|
        invariant ExecuteAll(statements[..i], target.rows) == Ok(Overlay(target.rows, writes))
      {
        var effect := Execute(statements[i], Overlay(target.rows, writes));
        assert statements[..i + 1][..i] == statements[..i];
        if effect.Err? {
          ExecuteFailsWhole(statements, target.rows, i + 1);
          return Err(effect.error);
        }
        OverlayTwice(target.rows, writes, effect.value);
        writes := writes + effect.value;
      }
      assert statements[..|statements|] == statements;
      return Ok(writes);
    }

    method ApplyCommit(commitLsn: U64, endLsn: U64, fate: Fate) returns (r: Result<(), ApplyError>)
      requires Valid()
      modifies this, target
      ensures Valid()
      ensures CommitOutcome(commitLsn, endLsn, fate, r, old(View()), View(), old(target.rows), target.rows,
                            old(target.progress), target.progress)
    {
      if commitLsn <= checkpoint {
        ack := EO.Max(ack, endLsn);
        pending := [];
        return Ok(());
      }
      var statements := BuildStatements();
      if statements.Err? {
        return Err(statements.error);
      }
      var writes := RunStatements(statements.value);
      if writes.Err? {
        return Err(writes.error);
      }
      if fate.Lost? {
        return Err(DbError);
      }
      if consumer in target.progress && !(target.progress[consumer].lsn < EO.AsI64(commitLsn)) {
        return Err(Fenced);
      }
      if fate.fate.Succeeds? || fate.fate.landed {
        target.rows := Overlay(target.rows, writes.value);
        target.progress := target.progress[consumer := EO.Progress(EO.AsI64(commitLsn), EO.AsI64(endLsn))];
      }
      if !fate.fate.Succeeds? {
        return Err(DbError);
      }
      checkpoint := commitLsn;
      ack := EO.Max(ack, endLsn);
      pending := [];
      return Ok(());
    }
  }

  /** An insert, update or delete message as a buffered change. */
  function Buffered(msg: M.Msg): Result<PendingChange, ApplyError>
    requires msg.Insert? || msg.Update? || msg.Delete?
  {
    match msg
    case Insert(_, oid, t) =>
      var cells := TupleCells(t);
      if cells.Err? then Err(cells.error) else Ok(PendingInsert(oid, cells.value))
    case Update(_, oid, key, oldTuple, t) =>
      var source := if key.Some? then key.value else if oldTuple.Some? then oldTuple.value else t;
      var keyCells := TupleCells(source);
      var cells := TupleCells(t);
      if keyCells.Err? then Err(keyCells.error)
      else if cells.Err? then Err(cells.error)
      else Ok(PendingUpdate(oid, keyCells.value, cells.value))
    case Delete(_, oid, key, oldTuple) =>
      if key.None? && oldTuple.None? then Err(Unsupported)
      else
        var keyCells := TupleCells(if key.Some? then key.value else oldTuple.value);
        if keyCells.Err? then Err(keyCells.error) else Ok(PendingDelete(oid, keyCells.value))
  }

  /**
  A change is addressed by its key image, in its place by the full old image, and an update that
  has neither by its new row; a delete that has neither is refused.
  */
  lemma BufferedAlike(xid: Option<M.U32>, oid: M.U32, key: M.Tuple, any: Option<M.Tuple>, row: M.Tuple)
    ensures Buffered(M.Update(xid, oid, None, Some(key), row)) == Buffered(M.Update(xid, oid, Some(key), any, row))
    ensures Buffered(M.Update(xid, oid, None, None, row)) == Buffered(M.Update(xid, oid, Some(row), any, row))
    ensures Buffered(M.Delete(xid, oid, None, Some(key))) == Buffered(M.Delete(xid, oid, Some(key), any))
    ensures Buffered(M.Delete(xid, oid, None, None)).Err?
  {
  }

  datatype ApplierView = ApplierView(
    relations: map<M.U32, Relation>, consumer: string, checkpoint: U64, ack: U64, pending: seq<PendingChange>)

  lemma {:induction false} BuildFailsWhole(relations: map<M.U32, Relation>, pending: seq<PendingChange>, n: nat)
    requires forall o | o in relations :: relations[o].Valid()
    requires n <= |pending| && BuildAll(relations, pending[..n]).Err?
    ensures BuildAll(relations, pending) == BuildAll(relations, pending[..n])
  {
    if n < |pending| {
      var init := pending[..|pending| - 1];
      assert init[..n] == pending[..n];
      BuildFailsWhole(relations, init, n);
    } else {
      assert pending[..n] == pending;
    }
  }

  lemma {:induction false} ExecuteFailsWhole(stmts: seq<Statement>, rows: Db, n: nat)
    requires n <= |stmts| && ExecuteAll(stmts[..n], rows).Err?
    ensures ExecuteAll(stmts, rows) == ExecuteAll(stmts[..n], rows)
  {
    if n < |stmts| {
      var init := stmts[..|stmts| - 1];
      assert init[..n] == stmts[..n];
      ExecuteFailsWhole(init, rows, n);
    } else {
      assert stmts[..n] == stmts;
    }
  }

  /**
  Everything `commit` may do. Rows and progress move together or not at all; they
  move only past the stored position; and the in-memory checkpoint moves only when
  the transaction is known to have landed.
  */
  ghost predicate CommitOutcome(
    commitLsn: U64, endLsn: U64, fate: Fate, r: Result<(), ApplyError>,
    a: ApplierView, a': ApplierView, rows: Db, rows': Db,
    progress: map<string, EO.Progress>, progress': map<string, EO.Progress>)
  {
    && (forall o | o in a.relations :: a.relations[o].Valid())
    && var built := BuildAll(a.relations, a.pending);
    var applied := if built.Ok? then ExecuteAll(built.value, rows) else Err(built.error);
    var advances := EO.CasAdvances(ProgressOf(progress, a.consumer), commitLsn);
    var lands := !fate.Lost? && (fate.fate.Succeeds? || fate.fate.landed);
    if commitLsn <= a.checkpoint then
      && r == Ok(()) && rows' == rows && progress' == progress
      && a' == a.(ack := EO.Max(a.ack, endLsn), pending := [])
    else if applied.Err? then
      r == Err(applied.error) && rows' == rows && progress' == progress && a' == a
    else if fate.Lost? || !advances then
      r == Err(if fate.Lost? then DbError else Fenced) && rows' == rows && progress' == progress && a' == a
    else
      && rows' == (if lands then applied.value else rows)
      && progress' == (if lands then progress[a.consumer := EO.Progress(EO.AsI64(commitLsn), EO.AsI64(endLsn))] else progress)
      && r == (if fate.fate.Succeeds? then Ok(()) else Err(DbError))
      && a' == (if fate.fate.Succeeds?
                then a.(checkpoint := commitLsn, ack := EO.Max(a.ack, endLsn), pending := [])
                else a)
  }
}
