/**
Whole seeding runs: copy under the slot's snapshot, then stream, on one target and
across all targets of a reshard (`crates/pgshard-agent/src/workflow.rs`).

A worker starts with nothing announced. The server announces each table to a session
before the table's first change in it, so what a transaction's messages are depends on
the session; what the transaction becomes does not.
*/
module SeedingRuns {
  import opened Wrappers
  import opened Keyspace
  import opened Rows
  import opened Seeding
  import opened Stream
  import M = Messages
  import A = Apply
  import EO = ExactlyOnce
  import R = Reshard

  // ------------------------------------------------ what a transaction means

  /** `states` are the source's rows before and after each change. */
  ghost predicate Steps(cfg: Config, changes: seq<Change>, states: seq<Db>)
    requires ConfigOk(cfg)
  {
    && |states| == |changes| + 1
    && forall i {:trigger changes[i]} | 0 <= i < |changes| ::
         Happens(cfg, changes[i], states[i]) && states[i + 1] == After(cfg, changes[i], states[i])
  }

  lemma {:induction false} StatesOk(cfg: Config, changes: seq<Change>, states: seq<Db>, n: nat)
    requires ConfigOk(cfg) && Steps(cfg, changes, states) && RowsOk(cfg, states[0]) && n <= |changes|
    ensures RowsOk(cfg, states[n])
  {
    if n > 0 {
      StatesOk(cfg, changes, states, n - 1);
      AfterOk(cfg, changes[n - 1], states[n - 1]);
    }
  }

  ghost predicate AllFit(cfg: Config, changes: seq<Change>)
    requires ConfigOk(cfg)
  {
    forall i {:trigger changes[i]} | 0 <= i < |changes| :: ChangeFits(cfg, changes[i])
  }

  ghost predicate AllAccepted(cfg: Config, changes: seq<Change>)
    requires ConfigOk(cfg)
  {
    forall i {:trigger changes[i]} | 0 <= i < |changes| :: ChangeFits(cfg, changes[i]) && Accepted(cfg, changes[i])
  }

  /** The statements of the in-range changes, in order. */
  ghost function Meant(cfg: Config, changes: seq<Change>): seq<Statement>
    requires ConfigOk(cfg)
  {
    if changes == [] then []
    else
      var before, last := Meant(cfg, changes[..|changes| - 1]), changes[|changes| - 1];
      if ChangeFits(cfg, last) && InRange(cfg, NewId(cfg, last)) then before + [StatementOf(cfg, last)] else before
  }

  lemma {:induction false} MeantMore(cfg: Config, changes: seq<Change>, c: Change)
    requires ConfigOk(cfg) && AllFit(cfg, changes) && ChangeFits(cfg, c)
    ensures AllFit(cfg, changes + [c])
    ensures Meant(cfg, changes + [c])
         == if InRange(cfg, NewId(cfg, c)) then Meant(cfg, changes) + [StatementOf(cfg, c)] else Meant(cfg, changes)
  {
    assert (changes + [c])[..|changes|] == changes;
  }

  lemma AcceptedOneSided(cfg: Config, c: Change)
    requires ConfigOk(cfg) && ChangeFits(cfg, c) && Accepted(cfg, c)
    ensures OneSided(cfg, c) && ShipsShardKey(cfg, c)
  {
  }

  /** Run in order, the statements of accepted changes take the range's rows before to the range's rows after. */
  lemma {:induction false} MeantMoves(cfg: Config, changes: seq<Change>, states: seq<Db>, n: nat)
    requires ConfigOk(cfg) && Steps(cfg, changes, states) && RowsOk(cfg, states[0]) && AllAccepted(cfg, changes) && n <= |changes|
    ensures AllFit(cfg, changes[..n]) && ExecuteAll(Meant(cfg, changes[..n]), Restrict(cfg, states[0])) == Ok(Restrict(cfg, states[n]))
  {
    hide Accepted, RowsOk, Restrict, After, Meant, ExecuteAll, Happens, ConfigOk;
    if n == 0 {
      MeantNothing(cfg, Restrict(cfg, states[0]));
      assert changes[..0] == [];
    } else {
      MeantMoves(cfg, changes, states, n - 1);
      StatesOk(cfg, changes, states, n - 1);
      assert changes[..n] == changes[..n - 1] + [changes[n - 1]];
      MeantOneMore(cfg, changes[..n - 1], changes[n - 1], states[n - 1], Restrict(cfg, states[0]));
    }
  }

  lemma {:induction false} MeantNothing(cfg: Config, rows: Db)
    requires ConfigOk(cfg)
    ensures ExecuteAll(Meant(cfg, []), rows) == Ok(rows)
  {
  }

  lemma {:induction false} MeantOneMore(cfg: Config, changes: seq<Change>, c: Change, db: Db, rows: Db)
    requires ConfigOk(cfg) && AllFit(cfg, changes) && RowsOk(cfg, db) && Happens(cfg, c, db) && Accepted(cfg, c)
    requires ExecuteAll(Meant(cfg, changes), rows) == Ok(Restrict(cfg, db))
    ensures AllFit(cfg, changes + [c]) && ExecuteAll(Meant(cfg, changes + [c]), rows) == Ok(Restrict(cfg, After(cfg, c, db)))
  {
    hide Accepted, InRange, RowsOk, Restrict, After, StatementOf, NewId, Execute, Meant, ConfigOk, Overlay;
    MeantMore(cfg, changes, c);
    AcceptedOneSided(cfg, c);
    if InRange(cfg, NewId(cfg, c)) {
      StatementTracks(cfg, c, db);
      var before, stmt := Meant(cfg, changes), StatementOf(cfg, c);
      assert (before + [stmt])[..|before|] == before;
    } else {
      SkipTracks(cfg, c, db);
    }
  }

  // ------------------------------------------------- one transaction's messages

  /** The runner knows what it was told, and its buffer builds to what the changes mean. */
  ghost predicate Buffers(cfg: Config, r: Runner, told: set<TableName>, changes: seq<Change>)
    requires ConfigOk(cfg)
  {
    && Faithful(cfg, r, told) && AllFit(cfg, changes)
    && (forall o | o in r.relations :: r.relations[o].Valid())
    && A.BuildAll(r.relations, r.pending) == Ok(Meant(cfg, changes))
  }

  lemma BuffersNothing(cfg: Config, r: Runner, told: set<TableName>)
    requires ConfigOk(cfg) && Faithful(cfg, r, told) && r.pending == []
    ensures Buffers(cfg, r, told, [])
  {
    FaithfulValid(cfg, r, told);
  }

  lemma TellStep(cfg: Config, wf: Workflow, r: Runner, told: set<TableName>, changes: seq<Change>, item: Item)
    requires ConfigOk(cfg) && Buffers(cfg, r, told, changes) && item.Tell? && ItemOk(cfg, wf, item)
    ensures OnMessage(wf, r, MsgOf(cfg, wf, item)).Ok?
    ensures Buffers(cfg, OnMessage(wf, r, MsgOf(cfg, wf, item)).value, told + {item.table}, changes)
  {
    hide OnMessage, MsgOf, Describes, Meant, A.BuildAll;
    TellKnows(cfg, wf, r, told, item);
    var r' := OnMessage(wf, r, MsgOf(cfg, wf, item)).value;
    FaithfulValid(cfg, r', told + {item.table});
    BuildAllGrows(r.relations, r'.relations, r.pending);
  }

  /** A row change of a known table is taken exactly when it is accepted, and buffered exactly when it is in range. */
  lemma RowStep(cfg: Config, wf: Workflow, r: Runner, told: set<TableName>, changes: seq<Change>, c: Change, db: Db)
    requires ConfigOk(cfg) && Runs(cfg, wf) && Buffers(cfg, r, told, changes) && c.table in told
    requires RowsOk(cfg, db) && Happens(cfg, c, db) && Encodable(cfg, c)
    ensures OnMessage(wf, r, Encode(cfg, c)).Ok? <==> Accepted(cfg, c)
    ensures Accepted(cfg, c) ==> Buffers(cfg, OnMessage(wf, r, Encode(cfg, c)).value, told, changes + [c])
  {
    hide OnChange, Encode, InRange, Accepted, A.Buffered, A.Build, Meant, RowsOk, Happens, NewId, StatementOf;
    assert Knows(cfg, r, c.table);
    RunnerDecides(cfg, r, c, db);
    if Accepted(cfg, c) {
      AcceptedOneSided(cfg, c);
      MeantMore(cfg, changes, c);
      var r' := OnMessage(wf, r, Encode(cfg, c)).value;
      if InRange(cfg, NewId(cfg, c)) {
        Builds(cfg, r, c, db);
        var p := A.Buffered(Encode(cfg, c)).value;
        assert r' == r.(pending := r.pending + [p]);
        assert (r.pending + [p])[..|r.pending|] == r.pending;
        FaithfulSame(cfg, r, r', told);
      }
    }
  }

  lemma NoteStep(cfg: Config, wf: Workflow, r: Runner, told: set<TableName>, changes: seq<Change>, item: Item)
    requires ConfigOk(cfg) && Buffers(cfg, r, told, changes) && item.Note? && ItemOk(cfg, wf, item)
    ensures OnMessage(wf, r, MsgOf(cfg, wf, item)) == Ok(r)
  {
  }

  lemma {:induction false} SentPrefix(items: seq<Item>, n: nat)
    requires n <= |items|
    ensures Sent(items[..n]) <= Sent(items)
  {
    if n == |items| {
      assert items[..n] == items;
    } else {
      var init := items[..|items| - 1];
      assert init[..n] == items[..n];
      SentPrefix(init, n);
    }
  }

  /** A transaction's messages, up to the `n`-th: the runner stops exactly if a change is not accepted or a message is refused. */
  ghost predicate BodyTaken(cfg: Config, wf: Workflow, told: set<TableName>, items: seq<Item>, out: Result<Runner, RunError>)
    requires ConfigOk(cfg)
  {
    && (out.Ok? <==> AllAccepted(cfg, Sent(items)) && !Stops(items))
    && (out.Ok? ==> Buffers(cfg, out.value, told + Told(items), Sent(items)))
  }

  /** What one more item adds. */
  lemma {:induction false} ItemStep(cfg: Config, wf: Workflow, told: set<TableName>, init: seq<Item>, item: Item, r: Runner, db: Db)
    requires ConfigOk(cfg) && Runs(cfg, wf) && ItemOk(cfg, wf, item)
    requires BodyTaken(cfg, wf, told, init, Ok(r))
    requires item.Row? ==> item.change.table in told + Told(init) && RowsOk(cfg, db) && Happens(cfg, item.change, db)
    ensures BodyTaken(cfg, wf, told, init + [item], OnMessage(wf, r, MsgOf(cfg, wf, item)))
  {
    hide OnMessage, Buffers, Accepted, Encode, Stops;
    assert (init + [item])[..|init|] == init;
    StopsMore(init, item);
    match item
    case Tell(n, _) =>
      TellStep(cfg, wf, r, told + Told(init), Sent(init), item);
      assert told + Told(init) + {n} == told + Told(init + [item]);
    case Row(c) =>
      RowStep(cfg, wf, r, told + Told(init), Sent(init), c, db);
      assert AllAccepted(cfg, Sent(init) + [c]) <==> Accepted(cfg, c) by {
        assert (Sent(init) + [c])[|Sent(init)|] == c;
      }
    case Note(_) => NoteStep(cfg, wf, r, told + Told(init), Sent(init), item);
    case Refusal(_) => RefusalStep(cfg, wf, r, item);
  }

  lemma RefusalStep(cfg: Config, wf: Workflow, r: Runner, item: Item)
    requires ConfigOk(cfg) && item.Refusal? && ItemOk(cfg, wf, item)
    ensures OnMessage(wf, r, MsgOf(cfg, wf, item)).Err?
  {
  }

  lemma StopsMore(init: seq<Item>, item: Item)
    ensures Stops(init + [item]) <==> Stops(init) || item.Refusal?
  {
    var all := init + [item];
    if Stops(init) {
      var i :| 0 <= i < |init| && init[i].Refusal?;
      assert all[i].Refusal?;
    }
    if item.Refusal? { assert all[|init|].Refusal?; }
  }

  lemma AcceptedPrefix(cfg: Config, changes: seq<Change>, more: seq<Change>)
    requires ConfigOk(cfg) && changes <= more && AllAccepted(cfg, more)
    ensures AllAccepted(cfg, changes)
  {
    forall i | 0 <= i < |changes| ensures ChangeFits(cfg, changes[i]) && Accepted(cfg, changes[i]) {
      assert changes[i] == more[i];
    }
  }

  /**
  One transaction as one session receives it: from a runner that knows what it was told, the
  messages are taken whole exactly when every change is accepted and none is a refused message,
  and then build to what the changes mean.
  */
  lemma {:induction false} TxnMeans(cfg: Config, wf: Workflow, r: Runner, told: set<TableName>, items: seq<Item>, states: seq<Db>, n: nat)
    requires ConfigOk(cfg) && Runs(cfg, wf) && ItemsOk(cfg, wf, items) && TellsFirst(told, items)
    requires Faithful(cfg, r, told) && r.pending == [] && n <= |items|
    requires Steps(cfg, Sent(items), states) && RowsOk(cfg, states[0])
    ensures BodyTaken(cfg, wf, told, items[..n], StreamAll(wf, r, MsgsOf(cfg, wf, items)[..n]))
  {
    hide BodyTaken, OnMessage, MsgOf, ItemOk, RowsOk, Happens, After;
    var msgs := MsgsOf(cfg, wf, items);
    if n == 0 {
      NothingTaken(cfg, wf, r, told);
      assert items[..0] == [] && msgs[..0] == [];
    } else {
      TxnMeans(cfg, wf, r, told, items, states, n - 1);
      var init, item := items[..n - 1], items[n - 1];
      assert msgs[..n][..n - 1] == msgs[..n - 1] && items[..n] == init + [item];
      var before := StreamAll(wf, r, msgs[..n - 1]);
      SentPrefix(items, n - 1);
      SentPrefix(items, n);
      if before.Err? {
        StillRefused(cfg, wf, told, init, item, before);
      } else {
        var k := |Sent(init)|;
        StatesOk(cfg, Sent(items), states, k);
        if item.Row? { assert items[..n][..n - 1] == init && Sent(items)[k] == item.change; }
        ItemStep(cfg, wf, told, init, item, before.value, states[k]);
      }
    }
  }

  lemma NothingTaken(cfg: Config, wf: Workflow, r: Runner, told: set<TableName>)
    requires ConfigOk(cfg) && Faithful(cfg, r, told) && r.pending == []
    ensures BodyTaken(cfg, wf, told, [], Ok(r))
  {
    BuffersNothing(cfg, r, told);
    assert told + {} == told;
  }

  lemma StillRefused(cfg: Config, wf: Workflow, told: set<TableName>, init: seq<Item>, item: Item, out: Result<Runner, RunError>)
    requires ConfigOk(cfg) && BodyTaken(cfg, wf, told, init, out) && out.Err?
    ensures BodyTaken(cfg, wf, told, init + [item], out)
  {
    hide Stops;
    assert (init + [item])[..|init|] == init;
    StopsMore(init, item);
    if AllAccepted(cfg, Sent(init + [item])) { AcceptedPrefix(cfg, Sent(init), Sent(init + [item])); }
  }

  // ------------------------------------------------------------- whole sessions

  /**
  One source transaction: its changes and the source's rows around each. If it `stops`, it also
  holds a truncate or another message the loop refuses, and the changes are those before it.
  */
  datatype Delivery = Delivery(changes: seq<Change>, states: seq<Db>, stops: bool)

  ghost predicate DeliveryOk(cfg: Config, d: Delivery, from: Db, to: Db)
    requires ConfigOk(cfg)
  {
    && Steps(cfg, d.changes, d.states)
    && d.states[0] == from
    && (if d.stops then RowsOk(cfg, to) else d.states[|d.changes|] == to)
  }

  /** The runner can take the transaction whole. */
  ghost predicate Takeable(cfg: Config, d: Delivery)
    requires ConfigOk(cfg)
  {
    AllAccepted(cfg, d.changes) && !d.stops
  }

  /** What a transaction becomes at the target: its statements, or nothing if it cannot be taken whole. */
  ghost function Verdict(cfg: Config, d: Delivery): Option<seq<Statement>>
    requires ConfigOk(cfg)
  {
    if Takeable(cfg, d) then Some(Meant(cfg, d.changes)) else None
  }

  /** `dbs[i]` are the source's rows before the `i`-th transaction after the snapshot. */
  ghost predicate History(cfg: Config, ds: seq<Delivery>, dbs: seq<Db>)
    requires ConfigOk(cfg)
  {
    && |dbs| == |ds| + 1
    && RowsOk(cfg, dbs[0])
    && forall i {:trigger ds[i]} | 0 <= i < |ds| :: DeliveryOk(cfg, ds[i], dbs[i], dbs[i + 1])
  }

  lemma {:induction false} HistoryOk(cfg: Config, ds: seq<Delivery>, dbs: seq<Db>, k: nat)
    requires ConfigOk(cfg) && History(cfg, ds, dbs) && k <= |ds|
    ensures RowsOk(cfg, dbs[k])
  {
    if k > 0 {
      HistoryOk(cfg, ds, dbs, k - 1);
      var d := ds[k - 1];
      if !d.stops { StatesOk(cfg, d.changes, d.states, |d.changes|); }
    }
  }

  /** What the server sends one worker from transaction `from` on, until the worker ends. */
  datatype Session = Session(from: nat, txns: seq<seq<Item>>)

  /** The tables announced in the first `j` transactions of the session. */
  ghost function ToldBefore(s: Session, j: nat): set<TableName>
    requires j <= |s.txns|
  {
    if j == 0 then {} else ToldBefore(s, j - 1) + Told(s.txns[j - 1])
  }

  ghost predicate SessionItems(cfg: Config, wf: Workflow, s: Session)
    requires ConfigOk(cfg)
  {
    forall j | 0 <= j < |s.txns| :: ItemsOk(cfg, wf, s.txns[j])
  }

  /** The session carries the history's changes, and announces each table before its first change. */
  ghost predicate SessionOk(cfg: Config, wf: Workflow, ds: seq<Delivery>, s: Session)
    requires ConfigOk(cfg)
  {
    && Runs(cfg, wf) && s.from + |s.txns| <= |ds| && SessionItems(cfg, wf, s)
    && forall j {:trigger s.txns[j]} | 0 <= j < |s.txns| ::
         && Sent(s.txns[j]) == ds[s.from + j].changes && (Stops(s.txns[j]) <==> ds[s.from + j].stops)
         && TellsFirst(ToldBefore(s, j), s.txns[j])
  }

  /** The runner a fresh worker starts with. */
  const FRESH: Runner := Runner(map[], map[], [])

  /** The worker's runner before transaction `j` of its session: a Begin empties the buffer and keeps what is known. */
  ghost function RunnerBefore(cfg: Config, wf: Workflow, s: Session, j: nat): Result<Runner, RunError>
    requires ConfigOk(cfg) && SessionItems(cfg, wf, s) && j <= |s.txns|
  {
    if j == 0 then Ok(FRESH) else AfterTxn(cfg, wf, s, j - 1, RunnerBefore(cfg, wf, s, j - 1))
  }

  ghost function AfterTxn(cfg: Config, wf: Workflow, s: Session, j: nat, before: Result<Runner, RunError>): Result<Runner, RunError>
    requires ConfigOk(cfg) && SessionItems(cfg, wf, s) && j < |s.txns|
  {
    if before.Err? then before
    else
      var after := StreamAll(wf, before.value, MsgsOf(cfg, wf, s.txns[j]));
      if after.Err? then after else Ok(after.value.(pending := []))
  }

  /**
  What transaction `j` of the session becomes at its commit: its statements, nothing if the
  worker stops on it, or `None` if the worker stopped before it.
  */
  ghost function Becomes(cfg: Config, wf: Workflow, s: Session, j: nat): Option<Option<seq<Statement>>>
    requires ConfigOk(cfg) && SessionItems(cfg, wf, s) && j < |s.txns|
  {
    var r := RunnerBefore(cfg, wf, s, j);
    if r.Err? then None else Some(BuiltFrom(StreamAll(wf, r.value, MsgsOf(cfg, wf, s.txns[j]))))
  }

  ghost function BuiltFrom(out: Result<Runner, RunError>): Option<seq<Statement>> {
    if out.Err? || (exists o | o in out.value.relations :: !out.value.relations[o].Valid()) then None
    else
      var built := A.BuildAll(out.value.relations, out.value.pending);
      if built.Err? then None else Some(built.value)
  }

  lemma {:induction false} SessionTxn(cfg: Config, wf: Workflow, ds: seq<Delivery>, dbs: seq<Db>, s: Session, j: nat, r: Runner)
    requires ConfigOk(cfg) && History(cfg, ds, dbs) && SessionOk(cfg, wf, ds, s) && j < |s.txns|
    requires Faithful(cfg, r, ToldBefore(s, j)) && r.pending == []
    ensures BodyTaken(cfg, wf, ToldBefore(s, j), s.txns[j], StreamAll(wf, r, MsgsOf(cfg, wf, s.txns[j])))
  {
    hide BodyTaken, ItemOk, StreamAll, Faithful, TellsFirst, RowsOk, Steps, Sent, Told, ToldBefore;
    var items, i := s.txns[j], s.from + j;
    HistoryOk(cfg, ds, dbs, i);
    TxnMeans(cfg, wf, r, ToldBefore(s, j), items, ds[i].states, |items|);
    assert items[..|items|] == items && MsgsOf(cfg, wf, items)[..|items|] == MsgsOf(cfg, wf, items);
  }

  ghost predicate AcceptedBetween(cfg: Config, ds: seq<Delivery>, from: nat, to: nat)
    requires ConfigOk(cfg) && to <= |ds|
  {
    forall i | from <= i < to :: Takeable(cfg, ds[i])
  }

  /** The worker reached transaction `j` of its session, or stopped earlier. */
  ghost predicate Reaches(cfg: Config, ds: seq<Delivery>, s: Session, j: nat, r: Result<Runner, RunError>)
    requires ConfigOk(cfg) && s.from + j <= |ds| && j <= |s.txns|
  {
    && (r.Ok? <==> AcceptedBetween(cfg, ds, s.from, s.from + j))
    && (r.Ok? ==> Faithful(cfg, r.value, ToldBefore(s, j)) && r.value.pending == [])
  }

  /** A session reaches a transaction exactly when it accepted all before it, and then knows what it was told. */
  lemma {:induction false} SessionReaches(cfg: Config, wf: Workflow, ds: seq<Delivery>, dbs: seq<Db>, s: Session, j: nat)
    requires ConfigOk(cfg) && History(cfg, ds, dbs) && SessionOk(cfg, wf, ds, s) && j <= |s.txns|
    ensures Reaches(cfg, ds, s, j, RunnerBefore(cfg, wf, s, j))
  {
    hide AfterTxn, History, Reaches, TellsFirst, SessionItems, ConfigOk, Sent, ToldBefore;
    if j == 0 {
      FreshReaches(cfg, ds, s);
    } else {
      SessionReaches(cfg, wf, ds, dbs, s, j - 1);
      ReachesMore(cfg, wf, ds, dbs, s, j - 1, RunnerBefore(cfg, wf, s, j - 1));
    }
  }

  lemma ReachesMore(cfg: Config, wf: Workflow, ds: seq<Delivery>, dbs: seq<Db>, s: Session, j: nat, before: Result<Runner, RunError>)
    requires ConfigOk(cfg) && History(cfg, ds, dbs) && SessionOk(cfg, wf, ds, s) && j < |s.txns|
    requires Reaches(cfg, ds, s, j, before)
    ensures Reaches(cfg, ds, s, j + 1, AfterTxn(cfg, wf, s, j, before))
  {
    hide AllAccepted, ItemsOk, StreamAll, History, Faithful, TellsFirst;
    assert AcceptedBetween(cfg, ds, s.from, s.from + j + 1)
      <==> AcceptedBetween(cfg, ds, s.from, s.from + j) && Takeable(cfg, ds[s.from + j]);
    if before.Ok? {
      SessionTxn(cfg, wf, ds, dbs, s, j, before.value);
      var after := StreamAll(wf, before.value, MsgsOf(cfg, wf, s.txns[j]));
      assert Sent(s.txns[j]) == ds[s.from + j].changes;
      if after.Ok? { FaithfulSame(cfg, after.value, after.value.(pending := []), ToldBefore(s, j + 1)); }
    }
  }

  lemma FreshReaches(cfg: Config, ds: seq<Delivery>, s: Session)
    requires ConfigOk(cfg) && s.from <= |ds|
    ensures Reaches(cfg, ds, s, 0, Ok(FRESH))
  {
  }

  /**
  What a transaction becomes does not depend on the session: every worker that reaches it,
  wherever it started and whatever was announced when, gets the statements of its in-range
  changes, exactly when all its changes are accepted.
  */
  lemma BecomesIffAccepted(cfg: Config, wf: Workflow, ds: seq<Delivery>, dbs: seq<Db>, s: Session, j: nat)
    requires ConfigOk(cfg) && History(cfg, ds, dbs) && SessionOk(cfg, wf, ds, s) && j < |s.txns|
    ensures Becomes(cfg, wf, s, j) ==
      if AcceptedBetween(cfg, ds, s.from, s.from + j) then Some(Verdict(cfg, ds[s.from + j])) else None
  {
    hide ItemsOk, StreamAll, RunnerBefore, Faithful, TellsFirst, Verdict, BuiltFrom, BodyTaken, AcceptedBetween, History;
    SessionReaches(cfg, wf, ds, dbs, s, j);
    var r := RunnerBefore(cfg, wf, s, j);
    assert Sent(s.txns[j]) == ds[s.from + j].changes;
    if r.Ok? {
      SessionTxn(cfg, wf, ds, dbs, s, j, r.value);
      BuiltIsMeant(cfg, wf, ToldBefore(s, j), s.txns[j], StreamAll(wf, r.value, MsgsOf(cfg, wf, s.txns[j])), ds[s.from + j]);
    }
  }

  lemma {:induction false} BuiltIsMeant(cfg: Config, wf: Workflow, told: set<TableName>, items: seq<Item>, out: Result<Runner, RunError>, d: Delivery)
    requires ConfigOk(cfg) && BodyTaken(cfg, wf, told, items, out) && Sent(items) == d.changes && (Stops(items) <==> d.stops)
    ensures BuiltFrom(out) == Verdict(cfg, d)
  {
  }

  /** A transaction's log entry is what some worker's session made of it. */
  ghost predicate MadeBy(cfg: Config, wf: Workflow, ds: seq<Delivery>, s: Session, i: nat, t: EO.Txn)
    requires ConfigOk(cfg)
  {
    && SessionOk(cfg, wf, ds, s) && s.from <= i < s.from + |s.txns|
    && Becomes(cfg, wf, s, i - s.from) == Some(t.stmts)
  }

  /** The log a target's workers consume, from the source's history. */
  ghost predicate LogOf(cfg: Config, wf: Workflow, ss: seq<Session>, ds: seq<Delivery>, log: seq<EO.Txn>)
    requires ConfigOk(cfg)
  {
    && |ss| == |ds| == |log|
    && forall i {:trigger log[i]} | 0 <= i < |log| :: MadeBy(cfg, wf, ds, ss[i], i, log[i])
  }

  /** One way to send changes: each after an announcement of its table. */
  ghost function Spelled(tables: map<TableName, seq<M.RelationColumn>>, changes: seq<Change>): seq<Item>
    requires forall i | 0 <= i < |changes| :: changes[i].table in tables
  {
    if changes == [] then []
    else
      var c := changes[|changes| - 1];
      Spelled(tables, changes[..|changes| - 1]) + [Tell(c.table, tables[c.table]), Row(c)]
  }

  lemma {:induction false} TwoMore(init: seq<Item>, a: Item, b: Item)
    requires a.Tell? && b.Row?
    ensures Told(init + [a, b]) == Told(init) + {a.table} && Sent(init + [a, b]) == Sent(init) + [b.change]
  {
    var one, two := init + [a], init + [a, b];
    assert two[..|two| - 1] == one && one[..|one| - 1] == init;
  }

  lemma {:induction false} SpelledSent(tables: map<TableName, seq<M.RelationColumn>>, changes: seq<Change>)
    requires forall i | 0 <= i < |changes| :: changes[i].table in tables
    ensures Sent(Spelled(tables, changes)) == changes && TellsFirst({}, Spelled(tables, changes))
  {
    if changes != [] {
      hide TellsFirst, Told, Sent;
      var n := |changes| - 1;
      var c, init := changes[n], Spelled(tables, changes[..n]);
      SpelledSent(tables, changes[..n]);
      TwoMore(init, Tell(c.table, tables[c.table]), Row(c));
      TellsTwoMore(init, Tell(c.table, tables[c.table]), Row(c));
    }
  }

  /** Every change can be sent, and its table can be announced. */
  ghost predicate Sendable(cfg: Config, wf: Workflow, tables: map<TableName, seq<M.RelationColumn>>, changes: seq<Change>)
    requires ConfigOk(cfg)
  {
    forall i | 0 <= i < |changes| ::
      changes[i].table in tables && Describes(cfg, wf, changes[i].table, tables[changes[i].table]) && Encodable(cfg, changes[i])
  }

  lemma {:induction false} SpelledOk(cfg: Config, wf: Workflow, tables: map<TableName, seq<M.RelationColumn>>, changes: seq<Change>)
    requires ConfigOk(cfg) && Sendable(cfg, wf, tables, changes)
    ensures ItemsOk(cfg, wf, Spelled(tables, changes))
  {
    hide Describes, Encodable, ConfigOk;
    if changes != [] {
      var n := |changes| - 1;
      SpelledOk(cfg, wf, tables, changes[..n]);
      ItemsTwoMore(cfg, wf, Spelled(tables, changes[..n]), Tell(changes[n].table, tables[changes[n].table]), Row(changes[n]));
    }
  }

  lemma ItemsTwoMore(cfg: Config, wf: Workflow, init: seq<Item>, a: Item, b: Item)
    requires ConfigOk(cfg) && ItemsOk(cfg, wf, init) && ItemOk(cfg, wf, a) && ItemOk(cfg, wf, b)
    ensures ItemsOk(cfg, wf, init + [a, b])
  {
    hide ItemOk, ConfigOk;
  }

  lemma TellsTwoMore(init: seq<Item>, a: Item, b: Item)
    requires TellsFirst({}, init) && a.Tell? && b.Row? && b.change.table == a.table
    ensures TellsFirst({}, init + [a, b])
  {
    var items := init + [a, b];
    assert items[..|init| + 1] == init + [a] && (init + [a])[..|init|] == init;
    forall i | 0 <= i < |items| && items[i].Row? ensures items[i].change.table in {} + Told(items[..i]) {
      if i < |init| { assert items[..i] == init[..i]; }
    }
  }

  lemma {:induction false} SpelledGoesOn(tables: map<TableName, seq<M.RelationColumn>>, changes: seq<Change>)
    requires forall i | 0 <= i < |changes| :: changes[i].table in tables
    ensures !Stops(Spelled(tables, changes))
  {
    if changes != [] { SpelledGoesOn(tables, changes[..|changes| - 1]); }
  }

  /** A refused message may end any transaction. */
  lemma {:induction false} RefusedLast(cfg: Config, wf: Workflow, items: seq<Item>)
    requires ConfigOk(cfg) && ItemsOk(cfg, wf, items) && TellsFirst({}, items)
    ensures var all := items + [Refusal(M.Truncate(None, 0, []))];
      ItemsOk(cfg, wf, all) && TellsFirst({}, all) && Stops(all) && Sent(all) == Sent(items)
  {
    hide ConfigOk;
    var all := items + [Refusal(M.Truncate(None, 0, []))];
    assert all[..|items|] == items && all[|items|].Refusal?;
    forall i | 0 <= i < |all| && all[i].Row? ensures all[i].change.table in {} + Told(all[..i]) { assert all[..i] == items[..i]; }
  }

  lemma StepsEncodable(cfg: Config, d: Delivery, i: nat)
    requires ConfigOk(cfg) && Steps(cfg, d.changes, d.states) && RowsOk(cfg, d.states[0]) && i < |d.changes|
    ensures Encodable(cfg, d.changes[i])
  {
    hide RowsOk;
    StatesOk(cfg, d.changes, d.states, i);
    var c := d.changes[i];
    if !c.InsertRow? { StoredKey(cfg, d.states[i], RowId(c.table, c.key)); }
  }

  /**
  Every history has its log: a fresh worker that starts at any transaction is told what it
  needs and makes of it what the log says.
  */
  lemma FreshWorkerMakes(cfg: Config, wf: Workflow, tables: map<TableName, seq<M.RelationColumn>>, ds: seq<Delivery>, dbs: seq<Db>, i: nat, t: EO.Txn)
    returns (s: Session)
    requires ConfigOk(cfg) && Runs(cfg, wf) && History(cfg, ds, dbs) && i < |ds|
    requires tables.Keys == cfg.tables.Keys && forall n | n in tables :: Describes(cfg, wf, n, tables[n])
    requires t.stmts == Verdict(cfg, ds[i])
    ensures s.from == i && MadeBy(cfg, wf, ds, s, i, t)
  {
    hide Verdict, Becomes, Describes, RowsOk, ItemsOk, ConfigOk, TellsFirst;
    var d := ds[i];
    HistoryOk(cfg, ds, dbs, i);
    assert DeliveryOk(cfg, d, dbs[i], dbs[i + 1]);
    assert Sendable(cfg, wf, tables, d.changes) by {
      forall k | 0 <= k < |d.changes| ensures Encodable(cfg, d.changes[k]) && d.changes[k].table in tables { StepsEncodable(cfg, d, k); }
    }
    SpelledOk(cfg, wf, tables, d.changes);
    SpelledSent(tables, d.changes);
    s := Session(i, [if d.stops then Spelled(tables, d.changes) + [Refusal(M.Truncate(None, 0, []))] else Spelled(tables, d.changes)]);
    if d.stops { RefusedLast(cfg, wf, Spelled(tables, d.changes)); } else { SpelledGoesOn(tables, d.changes); }
    assert SessionOk(cfg, wf, ds, s);
    BecomesIffAccepted(cfg, wf, ds, dbs, s, 0);
  }

  /** Every session of every worker sees the log's transactions, however the log's entries were made. */
  lemma SessionsAgree(cfg: Config, wf: Workflow, ss: seq<Session>, ds: seq<Delivery>, dbs: seq<Db>, log: seq<EO.Txn>, s: Session, j: nat)
    requires ConfigOk(cfg) && History(cfg, ds, dbs) && LogOf(cfg, wf, ss, ds, log)
    requires SessionOk(cfg, wf, ds, s) && j < |s.txns|
    ensures s.from + j < |log|
    ensures Becomes(cfg, wf, s, j).Some? <==> AcceptedBetween(cfg, ds, s.from, s.from + j)
    ensures Becomes(cfg, wf, s, j).Some? ==> Becomes(cfg, wf, s, j).value == log[s.from + j].stmts
  {
    hide SessionOk, Becomes, Verdict, History;
    var i := s.from + j;
    assert i < |log| by { Within(cfg, wf, ds, s, j); }
    assert MadeBy(cfg, wf, ds, ss[i], i, log[i]);
    BecomesIffAccepted(cfg, wf, ds, dbs, s, j);
    BecomesIffAccepted(cfg, wf, ds, dbs, ss[i], i - ss[i].from);
  }

  lemma Within(cfg: Config, wf: Workflow, ds: seq<Delivery>, s: Session, j: nat)
    requires ConfigOk(cfg) && SessionOk(cfg, wf, ds, s) && j < |s.txns|
    ensures s.from + j < |ds|
  {
  }

  // ------------------------------------------------------------- whole histories

  /** Each transaction's statements, if it has any, take one state to the next. */
  ghost predicate Follows(log: seq<EO.Txn>, rows: seq<Db>) {
    && |rows| == |log| + 1
    && forall i {:trigger log[i]} | 0 <= i < |log| && log[i].stmts.Some? ::
         ExecuteAll(log[i].stmts.value, rows[i]) == Ok(rows[i + 1])
  }

  lemma {:induction false} FoldFollows(log: seq<EO.Txn>, rows: seq<Db>, k: nat)
    requires Follows(log, rows) && k <= |log|
    ensures EO.Fold(rows[0], log[..k]).Ok? <==> forall i | 0 <= i < k :: log[i].stmts.Some?
    ensures EO.Fold(rows[0], log[..k]).Ok? ==> EO.Fold(rows[0], log[..k]).value == rows[k]
  {
    hide ExecuteAll;
    if k > 0 {
      FoldFollows(log, rows, k - 1);
      assert log[..k][..k - 1] == log[..k - 1];
    }
  }

  ghost function Slices(cfg: Config, dbs: seq<Db>): (rows: seq<Db>)
    ensures |rows| == |dbs| && forall i | 0 <= i < |dbs| :: rows[i] == Restrict(cfg, dbs[i])
  {
    seq(|dbs|, i requires 0 <= i < |dbs| => Restrict(cfg, dbs[i]))
  }

  lemma LogFollows(cfg: Config, wf: Workflow, ss: seq<Session>, ds: seq<Delivery>, dbs: seq<Db>, log: seq<EO.Txn>)
    requires ConfigOk(cfg) && History(cfg, ds, dbs) && LogOf(cfg, wf, ss, ds, log)
    ensures Follows(log, Slices(cfg, dbs))
    ensures forall i | 0 <= i < |log| :: log[i].stmts.Some? <==> Takeable(cfg, ds[i])
  {
    var rows := Slices(cfg, dbs);
    forall i | 0 <= i < |log|
      ensures log[i].stmts.Some? <==> Takeable(cfg, ds[i])
      ensures log[i].stmts.Some? ==> ExecuteAll(log[i].stmts.value, rows[i]) == Ok(rows[i + 1])
    {
      EntryMoves(cfg, wf, ds, dbs, ss[i], i, log[i]);
    }
  }

  lemma EntryMoves(cfg: Config, wf: Workflow, ds: seq<Delivery>, dbs: seq<Db>, s: Session, i: nat, t: EO.Txn)
    requires ConfigOk(cfg) && History(cfg, ds, dbs) && i < |ds| && MadeBy(cfg, wf, ds, s, i, t)
    ensures t.stmts.Some? <==> Takeable(cfg, ds[i])
    ensures t.stmts.Some? ==> ExecuteAll(t.stmts.value, Restrict(cfg, dbs[i])) == Ok(Restrict(cfg, dbs[i + 1]))
  {
    hide SessionOk, Becomes, AcceptedBetween, AllAccepted, Meant, RowsOk, Restrict;
    BecomesIffAccepted(cfg, wf, ds, dbs, s, i - s.from);
    HistoryOk(cfg, ds, dbs, i);
    var d := ds[i];
    assert DeliveryOk(cfg, d, dbs[i], dbs[i + 1]);
    if t.stmts.Some? {
      MeantMoves(cfg, d.changes, d.states, |d.changes|);
      assert d.changes[..|d.changes|] == d.changes;
    }
  }

  /**
  Seeding is exact: in every run of any number of workers, crashes, redeliveries and
  in-doubt commits, a target seeded with the range's rows of the snapshot holds the
  range's rows of the source right after the last transaction at or below its progress.
  */
  lemma SeededTargetTracks(cfg: Config, wf: Workflow, ss: seq<Session>, ds: seq<Delivery>, dbs: seq<Db>,
                           run: seq<EO.World>, actions: seq<EO.Action>)
    requires ConfigOk(cfg) && History(cfg, ds, dbs)
    requires EO.IsRun(run, actions)
    requires run[|actions|].seed == Restrict(cfg, dbs[0]) && LogOf(cfg, wf, ss, ds, run[|actions|].log)
    ensures var w := run[|actions|];
      && EO.ProgressStored(w.progress)
      && |EO.UpTo(w.log, EO.ProgressLsn(w.progress))| <= |ds|
      && w.rows == Restrict(cfg, dbs[|EO.UpTo(w.log, EO.ProgressLsn(w.progress))|])
  {
    var w := run[|actions|];
    var k := EO.RunKeeps(run, actions);
    EO.DurableMeans(w, k);
    LogFollows(cfg, wf, ss, ds, dbs, w.log);
    FoldFollows(w.log, Slices(cfg, dbs), k);
  }

  lemma {:induction false} PrefixesRun(stmts: seq<Statement>, rows: Db, n: nat)
    requires ExecuteAll(stmts, rows).Ok? && n <= |stmts|
    ensures ExecuteAll(stmts[..n], rows).Ok?
  {
    if n == |stmts| {
      assert stmts[..n] == stmts;
    } else {
      assert stmts[..|stmts| - 1][..n] == stmts[..n];
      PrefixesRun(stmts[..|stmts| - 1], rows, n);
    }
  }

  lemma {:induction false} StatementRuns(stmts: seq<Statement>, rows: Db, n: nat, writes: Writes)
    requires n < |stmts| && ExecuteAll(stmts, rows).Ok?
    requires ExecuteAll(stmts[..n], rows) == Ok(Overlay(rows, writes))
    ensures Execute(stmts[n], Overlay(rows, writes)).Ok?
  {
    PrefixesRun(stmts, rows, n + 1);
    assert stmts[..n + 1][..n] == stmts[..n];
  }

  /**
  The one-row check on an undiverged target: in any run, a statement that fails is that of a
  worker another one overtook, whose transaction is already applied. No statement of the next
  unapplied transaction fails.
  */
  lemma OnlyOvertakenFail(cfg: Config, wf: Workflow, ss: seq<Session>, ds: seq<Delivery>, dbs: seq<Db>,
                          run: seq<EO.World>, actions: seq<EO.Action>, id: nat)
    requires ConfigOk(cfg) && History(cfg, ds, dbs)
    requires EO.IsRun(run, actions)
    requires run[|actions|].seed == Restrict(cfg, dbs[0]) && LogOf(cfg, wf, ss, ds, run[|actions|].log)
    requires EO.Enabled(run[|actions|], EO.RunStatement(id))
    ensures var w := run[|actions|];
      var x := w.workers[id];
      && EO.ProgressStored(w.progress)
      && (Execute(w.log[x.next].stmts.value[x.phase.done], Overlay(w.rows, x.phase.writes)).Err? ==>
            x.next < |EO.UpTo(w.log, EO.ProgressLsn(w.progress))|)
  {
    hide Execute, Overlay, LogOf, History, Restrict;
    var w := run[|actions|];
    var x := w.workers[id];
    var k := EO.RunKeeps(run, actions);
    EO.DurableMeans(w, k);
    EO.InvWorker(w, k, id);
    if x.next == k {
      LogFollows(cfg, wf, ss, ds, dbs, w.log);
      FoldFollows(w.log, Slices(cfg, dbs), k);
      StatementRuns(w.log[k].stmts.value, w.rows, x.phase.done, x.phase.writes);
    }
  }

  // ------------------------------------------------- all targets of a reshard

  function Narrow(cfg: Config, range: KeyRange): Config {
    cfg.(range := range)
  }

  /** No row is in two parts, and together the parts are exactly the whole. */
  ghost predicate Partitions(parts: seq<Db>, whole: Db) {
    && (forall i, j | 0 <= i < j < |parts| :: parts[i].Keys !! parts[j].Keys)
    && (forall id | id in whole :: exists j :: 0 <= j < |parts| && id in parts[j])
    && (forall j, id | 0 <= j < |parts| && id in parts[j] :: id in whole && parts[j][id] == whole[id])
  }

  ghost function Parts(cfg: Config, targets: seq<KeyRange>, db: Db): (parts: seq<Db>)
    ensures |parts| == |targets|
    ensures forall j | 0 <= j < |targets| :: parts[j] == Restrict(Narrow(cfg, targets[j]), db)
  {
    seq(|targets|, j requires 0 <= j < |targets| => Restrict(Narrow(cfg, targets[j]), db))
  }

  ghost function Slice(db: Db, hashes: map<RowId, U64>, range: KeyRange): Db {
    map id | id in db && id in hashes && range.Contains(hashes[id]) :: db[id]
  }

  ghost function Hashes(cfg: Config, db: Db): map<RowId, U64> {
    map id | id in db && KeyspaceIdOf(cfg, id).Ok? :: KeyspaceIdOf(cfg, id).value
  }

  lemma RestrictIsSlice(cfg: Config, range: KeyRange, db: Db)
    ensures Restrict(Narrow(cfg, range), db) == Slice(db, Hashes(cfg, db), range)
  {
    assert forall id :: KeyspaceIdOf(Narrow(cfg, range), id) == KeyspaceIdOf(cfg, id);
  }

  lemma SlicesPartition(db: Db, hashes: map<RowId, U64>, targets: seq<KeyRange>, range: KeyRange, parts: seq<Db>)
    requires R.ExactlyCovers(targets, range)
    requires |parts| == |targets| && forall j | 0 <= j < |parts| :: parts[j] == Slice(db, hashes, targets[j])
    ensures Partitions(parts, Slice(db, hashes, range))
  {
    var whole := Slice(db, hashes, range);
    forall i, j, id | 0 <= i < j < |parts| && id in parts[i] ensures id !in parts[j] {
      if targets[j].Contains(hashes[id]) { OwnersTwice(targets, i, j, hashes[id]); }
    }
    forall id | id in whole ensures exists j :: 0 <= j < |parts| && id in parts[j] {
      OwnersPositive(targets, hashes[id]);
      var j :| 0 <= j < |targets| && targets[j].Contains(hashes[id]);
      assert id in parts[j];
    }
    forall j, id | 0 <= j < |parts| && id in parts[j] ensures id in whole && parts[j][id] == whole[id] {
      OwnersPositive(targets, hashes[id]);
    }
  }

  /** Targets that split the source's range split its rows. */
  lemma TargetsPartitionSource(cfg: Config, targets: seq<KeyRange>, db: Db)
    requires R.ExactlyCovers(targets, cfg.range)
    ensures Partitions(Parts(cfg, targets, db), Restrict(cfg, db))
  {
    forall range { RestrictIsSlice(cfg, range, db); }
    assert cfg == Narrow(cfg, cfg.range);
    SlicesPartition(db, Hashes(cfg, db), targets, cfg.range, Parts(cfg, targets, db));
  }

  /** One target of a reshard: its workflow, sessions of its workers, and a run of them. */
  datatype TargetRun = TargetRun(wf: Workflow, sessions: seq<Session>, run: seq<EO.World>, actions: seq<EO.Action>)

  /** The target consumed the history and has applied `k` transactions. */
  ghost predicate AppliedThrough(cfg: Config, ds: seq<Delivery>, t: TargetRun, k: nat)
    requires ConfigOk(cfg)
  {
    && EO.IsRun(t.run, t.actions)
    && var w := t.run[|t.actions|];
       && LogOf(cfg, t.wf, t.sessions, ds, w.log)
       && (EO.ProgressStored(w.progress) ==> |EO.UpTo(w.log, EO.ProgressLsn(w.progress))| == k)
  }

  /** What the target was seeded with. */
  ghost function SeedOf(t: TargetRun): Db
    requires EO.IsRun(t.run, t.actions)
  {
    t.run[|t.actions|].seed
  }

  /** The target was seeded with its range's rows of the snapshot, and applied `k` transactions. */
  ghost predicate SeededThrough(cfg: Config, ds: seq<Delivery>, snapshot: Db, t: TargetRun, k: nat)
    requires ConfigOk(cfg)
  {
    AppliedThrough(cfg, ds, t, k) && SeedOf(t) == Restrict(cfg, snapshot)
  }

  ghost function RowsOf(ts: seq<TargetRun>): (all: seq<Db>)
    requires forall j | 0 <= j < |ts| :: |ts[j].run| > 0
    ensures |all| == |ts| && forall j | 0 <= j < |ts| :: all[j] == ts[j].run[|ts[j].run| - 1].rows
  {
    seq(|ts|, j requires 0 <= j < |ts| => ts[j].run[|ts[j].run| - 1].rows)
  }

  lemma NarrowHistory(cfg: Config, range: KeyRange, ds: seq<Delivery>, dbs: seq<Db>)
    requires ConfigOk(cfg) && History(cfg, ds, dbs)
    ensures ConfigOk(Narrow(cfg, range)) && History(Narrow(cfg, range), ds, dbs)
  {
    var c' := Narrow(cfg, range);
    assert RowsOk(c', dbs[0]);
    forall i | 0 <= i < |ds| ensures DeliveryOk(c', ds[i], dbs[i], dbs[i + 1]) {
      NarrowDelivery(cfg, range, ds[i], dbs[i], dbs[i + 1]);
    }
  }

  lemma NarrowDelivery(cfg: Config, range: KeyRange, d: Delivery, from: Db, to: Db)
    requires ConfigOk(cfg) && DeliveryOk(cfg, d, from, to)
    ensures ConfigOk(Narrow(cfg, range)) && DeliveryOk(Narrow(cfg, range), d, from, to)
  {
    var c' := Narrow(cfg, range);
    forall i | 0 <= i < |d.changes|
      ensures Happens(c', d.changes[i], d.states[i]) && d.states[i + 1] == After(c', d.changes[i], d.states[i])
    {
      assert Happens(cfg, d.changes[i], d.states[i]);
    }
  }

  /**
  The reshard is complete and exact: when every target has applied through the same
  commit, each holds the source's rows of its range at that commit, no row is on two
  targets, and together they hold exactly the source's rows in the source's range.
  */
  lemma ReshardIsExact(cfg: Config, targets: seq<KeyRange>, ds: seq<Delivery>, dbs: seq<Db>, ts: seq<TargetRun>, k: nat)
    requires ConfigOk(cfg) && History(cfg, ds, dbs) && R.ExactlyCovers(targets, cfg.range)
    requires |ts| == |targets| > 0
    requires forall j | 0 <= j < |ts| :: |ts[j].run| > 0 && SeededThrough(Narrow(cfg, targets[j]), ds, dbs[0], ts[j], k)
    ensures k <= |ds|
    ensures RowsOf(ts) == Parts(cfg, targets, dbs[k])
    ensures Partitions(RowsOf(ts), Restrict(cfg, dbs[k]))
  {
    TargetIsExact(cfg, targets[0], ds, dbs, ts[0], k);
    forall j | 0 <= j < |ts| ensures RowsOf(ts)[j] == Parts(cfg, targets, dbs[k])[j] {
      TargetIsExact(cfg, targets[j], ds, dbs, ts[j], k);
    }
    TargetsPartitionSource(cfg, targets, dbs[k]);
  }

  lemma TargetIsExact(cfg: Config, range: KeyRange, ds: seq<Delivery>, dbs: seq<Db>, t: TargetRun, k: nat)
    requires ConfigOk(cfg) && History(cfg, ds, dbs)
    requires SeededThrough(Narrow(cfg, range), ds, dbs[0], t, k)
    ensures k <= |ds| && t.run[|t.run| - 1].rows == Restrict(Narrow(cfg, range), dbs[k])
  {
    NarrowHistory(cfg, range, ds, dbs);
    SeededTargetTracks(Narrow(cfg, range), t.wf, t.sessions, ds, dbs, t.run, t.actions);
  }
}
