/**
The messages of a worker's stream and what its loop does with each before the commit
(`crates/pgshard-agent/src/workflow.rs`, the streaming loop of `run_workflow`;
`crates/pgshard-repl/src/apply.rs`, `Applier::handle`).
*/
module Stream {
  import opened Wrappers
  import opened Keyspace
  import opened Rows
  import opened Seeding
  import M = Messages
  import A = Apply
  import F = Filter
  import Scalar

  // ------------------------------------------------------ announced relations

  /** A table of the workflow: its shard key column and type. */
  datatype TablePlan = TablePlan(keyColumn: M.Text, ty: Scalar.ScalarType)

  /** A seeding workflow. `allowed` are the type oids that hash as a key type. */
  datatype Workflow = Workflow(plans: map<TableName, TablePlan>, allowed: Scalar.ScalarType -> set<M.U32>, hash: F.ShardFn, range: KeyRange)

  /** The first column with this name, or the number of columns. */
  function ColumnIndex(columns: seq<M.RelationColumn>, name: M.Text): (i: nat)
    ensures i <= |columns|
    ensures i < |columns| ==> columns[i].name == name
    ensures forall j | 0 <= j < i :: columns[j].name != name
  {
    if columns == [] || columns[0].name == name then 0 else 1 + ColumnIndex(columns[1..], name)
  }

  /** The filter an announced relation gets, or why the stream stops. */
  function FilterFor(wf: Workflow, msg: M.Msg): Result<RelFilter, RunError>
    requires msg.Relation?
  {
    var t := TableName(msg.namespace, msg.name);
    if t !in wf.plans then Err(UnmappedTable(t))
    else
      var i := ColumnIndex(msg.columns, wf.plans[t].keyColumn);
      if i == |msg.columns| || msg.columns[i].typeOid !in wf.allowed(wf.plans[t].ty) then Err(ShardKeyMissing)
      else if !(msg.replicaIdentity == IDENTITY_DEFAULT || msg.replicaIdentity == IDENTITY_INDEX) || !msg.columns[i].IsKey() then Err(IdentityLost)
      else Ok(RelFilter(i, wf.plans[t].ty))
  }

  /**
  An announced relation the runner accepts has what seeding relies on: a usable identity
  with distinct columns that covers the shard key.
  */
  lemma AcceptedRelationIsOk(wf: Workflow, msg: M.Msg) returns (keyPos: nat)
    requires msg.Relation? && FilterFor(wf, msg).Ok?
    ensures var f := FilterFor(wf, msg).value;
      TableOk(Table(msg.oid, A.RelationOf(msg), f.keyIndex, keyPos, f.ty))
  {
    var f := FilterFor(wf, msg).value;
    var ks := A.KeyColumnsFrom(msg.columns, 0);
    KeyColumnsDistinct(msg.columns, 0);
    assert f.keyIndex in ks;
    assert forall p, q | 0 <= p < q < |ks| :: ks[p] < ks[q];
    keyPos :| 0 <= keyPos < |ks| && ks[keyPos] == f.keyIndex;
  }

  ghost predicate Increasing(ks: seq<nat>) {
    forall p, q | 0 <= p < q < |ks| :: ks[p] < ks[q]
  }

  lemma IncreasingCons(first: nat, rest: seq<nat>)
    requires Increasing(rest) && forall i | 0 <= i < |rest| :: first < rest[i]
    ensures Increasing([first] + rest)
  {
    var ks := [first] + rest;
    forall p, q | 0 <= p < q < |ks| ensures ks[p] < ks[q] {
      assert ks[q] == rest[q - 1];
      if p > 0 { assert ks[p] == rest[p - 1]; }
    }
  }

  lemma {:induction false} KeyColumnsDistinct(columns: seq<M.RelationColumn>, from: nat)
    requires from <= |columns|
    ensures Increasing(A.KeyColumnsFrom(columns, from))
    decreases |columns| - from
  {
    if from < |columns| {
      KeyColumnsDistinct(columns, from + 1);
      IncreasingCons(from, A.KeyColumnsFrom(columns, from + 1));
    }
  }

  // ------------------------------------------------------------ the loop's step

  predicate IsRowChange(msg: M.Msg) {
    msg.Insert? || msg.Update? || msg.Delete?
  }

  /** Messages that carry nothing to apply. */
  predicate IsNote(msg: M.Msg) {
    msg.Origin? || msg.TypeDecl? || msg.Message?
  }

  /** A truncate, or a message of a streamed or two-phase transaction. */
  predicate IsRefused(msg: M.Msg) {
    !msg.Relation? && !IsRowChange(msg) && !msg.Begin? && !msg.Commit? && !IsNote(msg)
  }

  function OnRelation(wf: Workflow, r: Runner, msg: M.Msg): Result<Runner, RunError>
    requires msg.Relation?
  {
    var f := FilterFor(wf, msg);
    if f.Err? then Err(f.error)
    else Ok(r.(filters := r.filters[msg.oid := f.value], relations := r.relations[msg.oid := A.RelationOf(msg)]))
  }

  /** The loop's step on every message but a commit. */
  function OnMessage(wf: Workflow, r: Runner, msg: M.Msg): Result<Runner, RunError>
    requires !msg.Commit?
  {
    if msg.Relation? then OnRelation(wf, r, msg)
    else if IsRowChange(msg) then OnChange(wf.hash, wf.range, r, msg)
    else if msg.Begin? then Ok(r.(pending := []))
    else if IsNote(msg) then Ok(r)
    else if msg.Truncate? then Err(TruncateRefused)
    else Err(Refused(Unsupported))
  }

  /** The runner after messages, or the first error. */
  function StreamAll(wf: Workflow, r: Runner, msgs: seq<M.Msg>): Result<Runner, RunError>
    requires forall i | 0 <= i < |msgs| :: !msgs[i].Commit?
  {
    if msgs == [] then Ok(r)
    else
      var before := StreamAll(wf, r, msgs[..|msgs| - 1]);
      if before.Err? then before else OnMessage(wf, before.value, msgs[|msgs| - 1])
  }

  // --------------------------------------------- which announcements are taken

  /**
  Column `i` of an announced relation can be filtered on: the table is one of the workflow's, the
  column is the first with the shard key's name, its type hashes as declared, and a default or
  index identity covers it.
  */
  ghost predicate Filterable(wf: Workflow, msg: M.Msg, i: nat)
    requires msg.Relation?
  {
    && TableName(msg.namespace, msg.name) in wf.plans && i < |msg.columns|
    && (msg.replicaIdentity == 100 || msg.replicaIdentity == 105)  // 'd', 'i'
    && msg.columns[i].flags % 2 == 1
    && var plan := wf.plans[TableName(msg.namespace, msg.name)];
       && msg.columns[i].name == plan.keyColumn && (forall j | 0 <= j < i :: msg.columns[j].name != plan.keyColumn)
       && msg.columns[i].typeOid in wf.allowed(plan.ty)
  }

  /**
  An announcement is taken exactly if its key column can be filtered on. Then that column and the
  declared type become the filter of its oid, the relation is remembered, and nothing else
  changes.
  */
  lemma TakenIffFilterable(wf: Workflow, r: Runner, msg: M.Msg)
    requires msg.Relation?
    ensures OnMessage(wf, r, msg).Ok? <==> exists i :: Filterable(wf, msg, i)
    ensures forall i: nat | Filterable(wf, msg, i) ::
      OnMessage(wf, r, msg) == Ok(Runner(r.filters[msg.oid := RelFilter(i, wf.plans[TableName(msg.namespace, msg.name)].ty)],
                                         r.relations[msg.oid := A.RelationOf(msg)], r.pending))
  {
    var t := TableName(msg.namespace, msg.name);
    if OnMessage(wf, r, msg).Ok? {
      assert Filterable(wf, msg, ColumnIndex(msg.columns, wf.plans[t].keyColumn));
    }
    forall i: nat | Filterable(wf, msg, i)
      ensures OnMessage(wf, r, msg) == Ok(Runner(r.filters[msg.oid := RelFilter(i, wf.plans[t].ty)],
                                                 r.relations[msg.oid := A.RelationOf(msg)], r.pending))
    {
      assert ColumnIndex(msg.columns, wf.plans[t].keyColumn) == i;
    }
  }

  /** The last announcement of `oid` among the messages has this filter. */
  ghost predicate LastAnnounced(wf: Workflow, past: seq<M.Msg>, oid: M.U32, f: RelFilter) {
    exists j {:trigger past[j]} :: 0 <= j < |past| && Announces(wf, past[j], oid, f)
           && forall k | j < k < |past| :: !(past[k].Relation? && past[k].oid == oid)
  }

  ghost predicate Announces(wf: Workflow, msg: M.Msg, oid: M.U32, f: RelFilter) {
    && msg.Relation? && msg.oid == oid && Filterable(wf, msg, f.keyIndex)
    && f.ty == wf.plans[TableName(msg.namespace, msg.name)].ty
  }

  ghost predicate FiltersLive(wf: Workflow, r: Runner, past: seq<M.Msg>) {
    forall oid | oid in r.filters :: LastAnnounced(wf, past, oid, r.filters[oid])
  }

  lemma LastKept(wf: Workflow, past: seq<M.Msg>, msg: M.Msg, oid: M.U32, f: RelFilter)
    requires LastAnnounced(wf, past, oid, f) && !(msg.Relation? && msg.oid == oid)
    ensures LastAnnounced(wf, past + [msg], oid, f)
  {
    hide Announces;
    var all := past + [msg];
    var j :| 0 <= j < |past| && Announces(wf, past[j], oid, f) && forall k | j < k < |past| :: !(past[k].Relation? && past[k].oid == oid);
    assert all[j] == past[j];
  }

  lemma LastNew(wf: Workflow, past: seq<M.Msg>, msg: M.Msg, oid: M.U32, f: RelFilter)
    requires Announces(wf, msg, oid, f)
    ensures LastAnnounced(wf, past + [msg], oid, f)
  {
    hide Announces;
    assert (past + [msg])[|past|] == msg;
  }

  lemma MessageKeepsLive(wf: Workflow, r: Runner, past: seq<M.Msg>, msg: M.Msg)
    requires !msg.Commit? && FiltersLive(wf, r, past) && OnMessage(wf, r, msg).Ok?
    ensures FiltersLive(wf, OnMessage(wf, r, msg).value, past + [msg])
  {
    var r' := OnMessage(wf, r, msg).value;
    if msg.Relation? { TakenIffFilterable(wf, r, msg); }
    hide LastAnnounced, OnMessage, Filterable;
    forall oid | oid in r'.filters ensures LastAnnounced(wf, past + [msg], oid, r'.filters[oid]) {
      if msg.Relation? && msg.oid == oid {
        var i :| Filterable(wf, msg, i);
        LastNew(wf, past, msg, oid, r'.filters[oid]);
      } else {
        LastKept(wf, past, msg, oid, r'.filters[oid]);
      }
    }
  }

  /**
  A mid-stream change of a table is never missed: after any messages the loop went through, the
  filter of every relation is that of its last announcement, and every announcement among them
  could be filtered on.
  */
  lemma {:induction false} FiltersFollowStream(wf: Workflow, r: Runner, past: seq<M.Msg>, msgs: seq<M.Msg>)
    requires (forall i | 0 <= i < |msgs| :: !msgs[i].Commit?) && FiltersLive(wf, r, past) && StreamAll(wf, r, msgs).Ok?
    ensures FiltersLive(wf, StreamAll(wf, r, msgs).value, past + msgs)
    ensures forall i | 0 <= i < |msgs| && msgs[i].Relation? :: exists c :: Filterable(wf, msgs[i], c)
  {
    hide OnMessage, FiltersLive, Filterable;
    if msgs == [] {
      assert past + msgs == past;
    } else {
      var n := |msgs| - 1;
      FiltersFollowStream(wf, r, past, msgs[..n]);
      var mid := StreamAll(wf, r, msgs[..n]).value;
      MessageKeepsLive(wf, mid, past + msgs[..n], msgs[n]);
      assert past + msgs[..n] + [msgs[n]] == past + msgs;
      if msgs[n].Relation? { TakenIffFilterable(wf, mid, msgs[n]); }
      forall i | 0 <= i < |msgs| && msgs[i].Relation? ensures exists c :: Filterable(wf, msgs[i], c) {
        if i < n { assert msgs[..n][i] == msgs[i]; }
      }
    }
  }

  // --------------------------------------------------------- what the server sends

  /** One message of a transaction: a table's announcement, a row change, a note, or what the loop always refuses. */
  datatype Item =
    | Tell(table: TableName, columns: seq<M.RelationColumn>)
    | Row(change: Change)
    | Note(msg: M.Msg)
    | Refusal(msg: M.Msg)

  /** `columns` describe table `n` as it is, and its key column hashes as the workflow says. */
  ghost predicate Describes(cfg: Config, wf: Workflow, n: TableName, columns: seq<M.RelationColumn>) {
    && n in cfg.tables && n in wf.plans && wf.plans[n].ty == cfg.tables[n].ty
    && var t := cfg.tables[n];
       && |columns| == t.rel.columns && A.KeyColumnsFrom(columns, 0) == t.rel.keyColumns
       && t.keyIndex < |columns| && ColumnIndex(columns, wf.plans[n].keyColumn) == t.keyIndex
       && columns[t.keyIndex].typeOid in wf.allowed(t.ty)
  }

  ghost predicate Encodable(cfg: Config, c: Change)
    requires ConfigOk(cfg)
  {
    ChangeFits(cfg, c) && (!c.InsertRow? ==> |c.key| == |cfg.tables[c.table].rel.keyColumns|)
  }

  ghost predicate ItemOk(cfg: Config, wf: Workflow, item: Item)
    requires ConfigOk(cfg)
  {
    match item
    case Tell(n, columns) => Describes(cfg, wf, n, columns)
    case Row(c) => Encodable(cfg, c)
    case Note(msg) => IsNote(msg)
    case Refusal(msg) => IsRefused(msg)
  }

  ghost predicate ItemsOk(cfg: Config, wf: Workflow, items: seq<Item>)
    requires ConfigOk(cfg)
  {
    forall i | 0 <= i < |items| :: ItemOk(cfg, wf, items[i])
  }

  ghost function MsgOf(cfg: Config, wf: Workflow, item: Item): (m: M.Msg)
    requires ConfigOk(cfg) && ItemOk(cfg, wf, item)
    ensures !m.Commit?
  {
    match item
    case Tell(n, columns) => M.Relation(None, cfg.tables[n].oid, n.schema, n.name, cfg.tables[n].rel.identity, columns)
    case Row(c) => Encode(cfg, c)
    case Note(msg) => msg
    case Refusal(msg) => msg
  }

  ghost function MsgsOf(cfg: Config, wf: Workflow, items: seq<Item>): (ms: seq<M.Msg>)
    requires ConfigOk(cfg) && ItemsOk(cfg, wf, items)
    ensures |ms| == |items| && forall i | 0 <= i < |items| :: ms[i] == MsgOf(cfg, wf, items[i])
  {
    seq(|items|, i requires 0 <= i < |items| => MsgOf(cfg, wf, items[i]))
  }

  /** The tables announced among the items. */
  ghost function Told(items: seq<Item>): set<TableName> {
    if items == [] then {}
    else
      var before, last := Told(items[..|items| - 1]), items[|items| - 1];
      if last.Tell? then before + {last.table} else before
  }

  /** The row changes among the items, in order. */
  ghost function Sent(items: seq<Item>): seq<Change> {
    if items == [] then []
    else
      var before, last := Sent(items[..|items| - 1]), items[|items| - 1];
      if last.Row? then before + [last.change] else before
  }

  /** The transaction holds something the loop always refuses. */
  ghost predicate Stops(items: seq<Item>) {
    exists i :: 0 <= i < |items| && items[i].Refusal?
  }

  /** The server announces a table to a session before its first change; `told` were announced earlier. */
  ghost predicate TellsFirst(told: set<TableName>, items: seq<Item>) {
    forall i | 0 <= i < |items| && items[i].Row? :: items[i].change.table in told + Told(items[..i])
  }

  // ------------------------------------------------------ what the runner knows

  ghost predicate Runs(cfg: Config, wf: Workflow) {
    wf.hash == cfg.hash && wf.range == cfg.range
  }

  /** The runner knows exactly the tables it was told of, as they are. */
  ghost predicate Faithful(cfg: Config, r: Runner, told: set<TableName>) {
    && (forall n | n in told :: Knows(cfg, r, n))
    && (forall o | o in r.relations || o in r.filters :: exists n :: n in told && n in cfg.tables && cfg.tables[n].oid == o)
  }

  lemma FaithfulValid(cfg: Config, r: Runner, told: set<TableName>)
    requires ConfigOk(cfg) && Faithful(cfg, r, told)
    ensures forall o | o in r.relations :: r.relations[o].Valid()
  {
    forall o | o in r.relations ensures r.relations[o].Valid() {
      var n :| n in told && n in cfg.tables && cfg.tables[n].oid == o;
      assert Knows(cfg, r, n);
    }
  }

  /** The runner's step on an announcement of a table as it is. */
  lemma TellAccepted(cfg: Config, wf: Workflow, r: Runner, item: Item)
    requires ConfigOk(cfg) && item.Tell? && ItemOk(cfg, wf, item)
    ensures item.table in cfg.tables
    ensures var t := cfg.tables[item.table];
      OnMessage(wf, r, MsgOf(cfg, wf, item))
        == Ok(r.(filters := r.filters[t.oid := RelFilter(t.keyIndex, t.ty)], relations := r.relations[t.oid := t.rel]))
  {
    var n, t := item.table, cfg.tables[item.table];
    assert TableName(n.schema, n.name) == n;
    assert t.rel.keyColumns[t.keyPos] in A.KeyColumnsFrom(item.columns, 0);
    assert FilterFor(wf, MsgOf(cfg, wf, item)) == Ok(RelFilter(t.keyIndex, t.ty));
  }

  /** A known relation is that of the table it was told of. */
  lemma KnownIs(cfg: Config, r: Runner, told: set<TableName>, o: M.U32) returns (n: TableName)
    requires Faithful(cfg, r, told) && (o in r.relations || o in r.filters)
    ensures n in told && Knows(cfg, r, n) && cfg.tables[n].oid == o
  {
    n :| n in told && n in cfg.tables && cfg.tables[n].oid == o;
  }

  /** An announcement is accepted, makes its table known, and changes nothing known before. */
  lemma TellKnows(cfg: Config, wf: Workflow, r: Runner, told: set<TableName>, item: Item)
    requires ConfigOk(cfg) && Faithful(cfg, r, told) && item.Tell? && ItemOk(cfg, wf, item)
    ensures OnMessage(wf, r, MsgOf(cfg, wf, item)).Ok?
    ensures var r' := OnMessage(wf, r, MsgOf(cfg, wf, item)).value;
      && Faithful(cfg, r', told + {item.table}) && r'.pending == r.pending
      && forall o | o in r.relations :: o in r'.relations && r'.relations[o] == r.relations[o]
  {
    hide OnMessage, MsgOf, Describes, TableOk;
    TellAccepted(cfg, wf, r, item);
    var r', n, t := OnMessage(wf, r, MsgOf(cfg, wf, item)).value, item.table, cfg.tables[item.table];
    forall m | m in told + {n} ensures Knows(cfg, r', m) {
      if m in told { assert Knows(cfg, r, m); }
    }
    forall o | o in r.relations ensures r'.relations[o] == r.relations[o] {
      var m := KnownIs(cfg, r, told, o);
    }
    forall o | o in r'.relations || o in r'.filters
      ensures exists m :: m in told + {n} && m in cfg.tables && cfg.tables[m].oid == o
    {
      if o == t.oid {
        assert n in told + {n};
      } else {
        var m := KnownIs(cfg, r, told, o);
        assert m in told + {n};
      }
    }
  }

  /** Only announcements change what the runner knows. */
  lemma FaithfulSame(cfg: Config, r: Runner, r': Runner, told: set<TableName>)
    requires Faithful(cfg, r, told) && r'.filters == r.filters && r'.relations == r.relations
    ensures Faithful(cfg, r', told)
  {
    forall n | n in told ensures Knows(cfg, r', n) { assert Knows(cfg, r, n); }
  }

  /** What is built from a buffer is unchanged by further announcements. */
  lemma {:induction false} BuildAllGrows(relations: map<M.U32, Relation>, relations': map<M.U32, Relation>, pending: seq<A.PendingChange>)
    requires forall o | o in relations' :: relations'[o].Valid()
    requires forall o | o in relations :: relations[o].Valid() && o in relations' && relations'[o] == relations[o]
    requires A.BuildAll(relations, pending).Ok?
    ensures A.BuildAll(relations', pending) == A.BuildAll(relations, pending)
  {
    if pending != [] { BuildAllGrows(relations, relations', pending[..|pending| - 1]); }
  }
}
