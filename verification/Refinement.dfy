/**
The applier's and the worker's commit are paths of the exactly-once protocol: every call of
`Applier::commit`, and the confirm and report that follow a successful one, is a sequence of
the protocol's actions (`crates/pgshard-repl/src/apply.rs`, `crates/pgshard-agent/src/workflow.rs`).
*/
module Refinement {
  import opened Wrappers
  import opened Keyspace
  import opened Rows
  import opened ExactlyOnce
  import A = Apply

  /** `ws` are the worlds along `actions`, each enabled. */
  ghost predicate Path(ws: seq<World>, actions: seq<Action>) {
    && |ws| == |actions| + 1
    && forall i {:trigger actions[i]} | 0 <= i < |actions| :: Enabled(ws[i], actions[i]) && ws[i + 1] == Next(ws[i], actions[i])
  }

  lemma PathMore(ws: seq<World>, actions: seq<Action>, a: Action)
    requires Path(ws, actions) && Enabled(ws[|actions|], a)
    ensures Path(ws + [Next(ws[|actions|], a)], actions + [a])
  {
    hide Next, Enabled;
    var all, as_ := ws + [Next(ws[|actions|], a)], actions + [a];
    forall i | 0 <= i < |as_| ensures Enabled(all[i], as_[i]) && all[i + 1] == Next(all[i], as_[i]) {
      if i < |actions| { assert as_[i] == actions[i]; }
    }
  }

  /** The applier as it is before a commit: worker `id` of `w`, about to receive transaction `t`. */
  ghost predicate Stands(w: World, id: nat, a: A.ApplierView, rows: Db, progress: map<string, Progress>, t: Txn) {
    && id in w.workers && w.workers[id].phase.Idle?
    && w.workers[id].checkpoint == a.checkpoint && w.workers[id].ack == a.ack
    && w.workers[id].next < |w.log| && w.log[w.workers[id].next] == t
    && w.rows == rows && w.progress == A.ProgressOf(progress, a.consumer)
    && (forall o | o in a.relations :: a.relations[o].Valid())
    && t.stmts == var built := A.BuildAll(a.relations, a.pending); if built.Ok? then Some(built.value) else None
  }

  /** The target is as given; only worker `id` and the target may differ from `w`. */
  ghost predicate Left(w: World, w': World, id: nat, rows: Db, progress: Option<Progress>) {
    && w' == w.(rows := w'.rows, progress := w'.progress, workers := w'.workers)
    && w'.rows == rows && w'.progress == progress
    && w'.workers - {id} == w.workers - {id}
  }

  /** The world with worker `id` inside its transaction, `n` statements done. */
  ghost function Inside(w: World, id: nat, n: nat, writes: Writes): World
    requires id in w.workers
  {
    With(w, id, w.workers[id].(phase := InTx(n, writes)))
  }

  lemma DeliverOpens(w: World, id: nat)
    requires Enabled(w, Deliver(id)) && w.log[w.workers[id].next].commit > w.workers[id].checkpoint
    requires w.log[w.workers[id].next].stmts.Some?
    ensures Path([w, Inside(w, id, 0, map[])], [Deliver(id)])
  {
  }

  lemma StatementRuns(w: World, id: nat, n: nat, writes: Writes)
    requires id in w.workers && w.workers[id].next < |w.log| && w.log[w.workers[id].next].stmts.Some?
    requires n < |w.log[w.workers[id].next].stmts.value|
    ensures var mid, stmts := Inside(w, id, n, writes), w.log[w.workers[id].next].stmts.value;
      && Enabled(mid, RunStatement(id))
      && var effect := Execute(stmts[n], Overlay(w.rows, writes));
         if effect.Ok? then Next(mid, RunStatement(id)) == Inside(w, id, n + 1, writes + effect.value)
         else Next(mid, RunStatement(id)) == Without(w, id)
  {
    hide Execute, Overlay;
    var mid := Inside(w, id, n, writes);
    var effect := Execute(w.log[w.workers[id].next].stmts.value[n], Overlay(w.rows, writes));
    if effect.Ok? {
      assert With(mid, id, mid.workers[id].(phase := InTx(n + 1, writes + effect.value))) == Inside(w, id, n + 1, writes + effect.value);
    } else {
      assert Without(mid, id) == Without(w, id);
    }
  }

  /** The statements that succeed are run one by one. */
  lemma {:induction false} StatementsRun(w: World, id: nat, n: nat) returns (ws: seq<World>, actions: seq<Action>, writes: Writes)
    requires Enabled(w, Deliver(id)) && w.log[w.workers[id].next].commit > w.workers[id].checkpoint
    requires var t := w.log[w.workers[id].next]; t.stmts.Some? && n <= |t.stmts.value| && ExecuteAll(t.stmts.value[..n], w.rows).Ok?
    ensures Path(ws, actions) && ws[0] == w && ws[|actions|] == Inside(w, id, n, writes)
    ensures ExecuteAll(w.log[w.workers[id].next].stmts.value[..n], w.rows) == Ok(Overlay(w.rows, writes))
  {
    var stmts := w.log[w.workers[id].next].stmts.value;
    if n == 0 {
      DeliverOpens(w, id);
      OverlayNothing(w.rows);
      ws, actions, writes := [w, Inside(w, id, 0, map[])], [Deliver(id)], map[];
      assert stmts[..0] == [];
    } else {
      hide Execute, Overlay, Next, Inside, Enabled;
      assert stmts[..n][..n - 1] == stmts[..n - 1];
      ws, actions, writes := StatementsRun(w, id, n - 1);
      StatementRuns(w, id, n - 1, writes);
      var effect := Execute(stmts[n - 1], Overlay(w.rows, writes)).value;
      PathMore(ws, actions, RunStatement(id));
      OverlayTwice(w.rows, writes, effect);
      ws, actions, writes := ws + [Next(ws[|actions|], RunStatement(id))], actions + [RunStatement(id)], writes + effect;
    }
  }

  /** The first statement that fails. */
  lemma {:induction false} FirstFailure(stmts: seq<Statement>, rows: Db) returns (n: nat)
    requires ExecuteAll(stmts, rows).Err?
    ensures n < |stmts| && ExecuteAll(stmts[..n], rows).Ok?
    ensures Execute(stmts[n], ExecuteAll(stmts[..n], rows).value).Err?
  {
    var init := stmts[..|stmts| - 1];
    if ExecuteAll(init, rows).Err? {
      n := FirstFailure(init, rows);
      assert init[..n] == stmts[..n];
    } else {
      n := |stmts| - 1;
    }
  }

  /** A worker that stops: its path ends with it gone and nothing else changed. */
  ghost predicate Stops(ws: seq<World>, actions: seq<Action>, w: World, id: nat) {
    Path(ws, actions) && ws[0] == w && ws[|actions|] == Without(w, id)
  }

  lemma FailurePath(w: World, id: nat) returns (ws: seq<World>, actions: seq<Action>)
    requires Enabled(w, Deliver(id)) && w.log[w.workers[id].next].commit > w.workers[id].checkpoint
    requires var t := w.log[w.workers[id].next]; t.stmts.None? || ExecuteAll(t.stmts.value, w.rows).Err?
    ensures Stops(ws, actions, w, id)
  {
    var t := w.log[w.workers[id].next];
    if t.stmts.None? {
      ws, actions := [w, Without(w, id)], [Deliver(id)];
    } else {
      hide Execute, ExecuteAll, Overlay, Next, Inside;
      var n := FirstFailure(t.stmts.value, w.rows);
      var writes;
      ws, actions, writes := StatementsRun(w, id, n);
      StatementRuns(w, id, n, writes);
      PathMore(ws, actions, RunStatement(id));
      ws, actions := ws + [Next(ws[|actions|], RunStatement(id))], actions + [RunStatement(id)];
    }
  }

  /** The statements all ran; then the connection is lost, or the progress row refuses, or the commit ends one way or another. */
  lemma EndPath(w: World, id: nat, fate: A.Fate) returns (ws: seq<World>, actions: seq<Action>)
    requires Enabled(w, Deliver(id)) && w.log[w.workers[id].next].commit > w.workers[id].checkpoint
    requires var t := w.log[w.workers[id].next]; t.stmts.Some? && ExecuteAll(t.stmts.value, w.rows).Ok?
    ensures Path(ws, actions) && ws[0] == w
    ensures var t := w.log[w.workers[id].next];
      var landed := w.(rows := ExecuteAll(t.stmts.value, w.rows).value, progress := Some(Progress(AsI64(t.commit), AsI64(t.end))));
      ws[|actions|] ==
        if fate.Lost? || !CasAdvances(w.progress, t.commit) || fate.fate == InDoubt(false) then Without(w, id)
        else if fate.fate.Succeeds? then With(landed, id, Finish(w.workers[id].(checkpoint := t.commit), t))
        else Without(landed, id)
  {
    hide Execute, ExecuteAll, Overlay;
    var t := w.log[w.workers[id].next];
    var n := |t.stmts.value|;
    assert t.stmts.value[..n] == t.stmts.value;
    var writes;
    ws, actions, writes := StatementsRun(w, id, n);
    var a := if fate.Lost? then Crash(id) else AdvanceAndCommit(id, fate.fate);
    EndStep(w, id, n, writes, fate);
    hide Next, Enabled;
    PathMore(ws, actions, a);
    ws, actions := ws + [Next(ws[|actions|], a)], actions + [a];
  }

  lemma EndStep(w: World, id: nat, n: nat, writes: Writes, fate: A.Fate)
    requires id in w.workers && w.workers[id].next < |w.log| && w.log[w.workers[id].next].stmts.Some?
    requires n == |w.log[w.workers[id].next].stmts.value|
    ensures var mid, t := Inside(w, id, n, writes), w.log[w.workers[id].next];
      var landed := w.(rows := Overlay(w.rows, writes), progress := Some(Progress(AsI64(t.commit), AsI64(t.end))));
      var a := if fate.Lost? then Crash(id) else AdvanceAndCommit(id, fate.fate);
      && Enabled(mid, a)
      && Next(mid, a) ==
           if fate.Lost? || !CasAdvances(w.progress, t.commit) || fate.fate == InDoubt(false) then Without(w, id)
           else if fate.fate.Succeeds? then With(landed, id, Finish(w.workers[id].(checkpoint := t.commit), t))
           else Without(landed, id)
  {
    hide Overlay;
    var mid, t := Inside(w, id, n, writes), w.log[w.workers[id].next];
    var landed := w.(rows := Overlay(w.rows, writes), progress := Some(Progress(AsI64(t.commit), AsI64(t.end))));
    assert Without(mid, id) == Without(w, id);
    var done := Finish(w.workers[id].(checkpoint := t.commit), t);
    assert With(mid.(rows := landed.rows, progress := landed.progress), id, done) == With(landed, id, done);
    assert Without(mid.(rows := landed.rows, progress := landed.progress), id) == Without(landed, id);
  }

  /** What a commit leaves of worker `id`: the applier's new view, past `t`, or nothing. */
  ghost predicate Finished(w: World, w': World, id: nat, r: Result<(), ApplyError>, a: A.ApplierView, t: Txn)
    requires id in w.workers
  {
    if r.Err? then id !in w'.workers
    else id in w'.workers && w'.workers[id] == w.workers[id].(next := w.workers[id].next + 1, checkpoint := a.checkpoint, ack := a.ack, phase := Committed(t.journal))
  }

  /**
  Every outcome of the applier's commit is a path of the protocol: the target ends as the path
  leaves it, a worker that succeeded has the applier's checkpoint and acknowledgement, and one
  that failed is gone.
  */
  lemma CommitIsAPath(w: World, id: nat, t: Txn, fate: A.Fate, r: Result<(), ApplyError>, a: A.ApplierView, a': A.ApplierView,
                      rows: Db, rows': Db, progress: map<string, Progress>, progress': map<string, Progress>)
    returns (ws: seq<World>, actions: seq<Action>)
    requires Stands(w, id, a, rows, progress, t)
    requires A.CommitOutcome(t.commit, t.end, fate, r, a, a', rows, rows', progress, progress')
    ensures Path(ws, actions) && ws[0] == w
    ensures Left(w, ws[|actions|], id, rows', A.ProgressOf(progress', a.consumer))
    ensures Finished(w, ws[|actions|], id, r, a', t)
  {
    hide ExecuteAll, A.BuildAll, Fold, Overlay;
    if t.commit <= a.checkpoint {
      ws, actions := [w, With(w, id, Finish(w.workers[id], t))], [Deliver(id)];
    } else if t.stmts.None? || ExecuteAll(t.stmts.value, rows).Err? {
      ws, actions := FailurePath(w, id);
    } else {
      ws, actions := EndPath(w, id, fate);
    }
  }

  /** The worker's client and journal beside its applier: what was confirmed, reported and decoded in the open transaction. */
  datatype ClientView = ClientView(confirmed: U64, reported: seq<U64>, journal: Option<U64>)

  /** What a successful commit does next: confirm the acknowledgement, report it, and publish the journal. */
  ghost predicate Reports(c: ClientView, c': ClientView, ack: U64) {
    c' == ClientView(Max(c.confirmed, ack), c.reported + [Max(c.confirmed, ack)], None)
  }

  lemma ReportStep(w: World, id: nat)
    requires id in w.workers && w.workers[id].phase.Committed?
    ensures Enabled(w, Report(id))
    ensures var w', x, flush := Next(w, Report(id)), w.workers[id], Max(w.workers[id].confirmed, w.workers[id].ack);
      && w' == w.(workers := w'.workers, reports := w.reports + {flush}, shown := w'.shown)
      && w'.workers == w.workers[id := x.(confirmed := flush, reported := x.reported + [flush], phase := Idle)]
      && w'.shown == (if x.phase.journal.Some? then w.shown + {x.phase.journal.value} else w.shown)
  {
  }

  /**
  The worker's commit as a whole is a path: after a successful one the protocol's worker is idle
  with the applier's and the client's new positions, its report is sent and its journal shown;
  after a failed one it is gone, and nothing was reported or shown.
  */
  lemma WorkerCommitIsAPath(w: World, id: nat, t: Txn, fate: A.Fate, r: Result<(), ApplyError>, a: A.ApplierView, a': A.ApplierView,
                            rows: Db, rows': Db, progress: map<string, Progress>, progress': map<string, Progress>, c: ClientView, c': ClientView)
    returns (ws: seq<World>, actions: seq<Action>)
    requires Stands(w, id, a, rows, progress, t)
    requires A.CommitOutcome(t.commit, t.end, fate, r, a, a', rows, rows', progress, progress')
    requires w.workers[id].confirmed == c.confirmed && w.workers[id].reported == c.reported && t.journal == c.journal
    requires r.Ok? ==> Reports(c, c', a'.ack)
    ensures Path(ws, actions) && ws[0] == w
    ensures var w' := ws[|actions|];
      && w'.rows == rows' && w'.progress == A.ProgressOf(progress', a.consumer) && w'.log == w.log && w'.slot == w.slot
      && (if r.Err? then id !in w'.workers && w'.reports == w.reports && w'.shown == w.shown
          else
            && w'.workers == w.workers[id := Worker(w.workers[id].next + 1, a'.checkpoint, a'.ack, c'.confirmed, c'.reported, Idle)]
            && w'.reports == w.reports + {c'.confirmed}
            && w'.shown == w.shown + (if c.journal.Some? then {c.journal.value} else {}))
  {
    ws, actions := CommitIsAPath(w, id, t, fate, r, a, a', rows, rows', progress, progress');
    hide A.CommitOutcome, Stands, Path, Next;
    if r.Ok? {
      var mid := ws[|actions|];
      ReportStep(mid, id);
      hide Enabled;
      PathMore(ws, actions, Report(id));
      ws, actions := ws + [Next(mid, Report(id))], actions + [Report(id)];
      OneWorker(w.workers, mid.workers, id, Next(mid, Report(id)).workers[id]);
    }
  }

  lemma OneWorker(before: map<nat, Worker>, after: map<nat, Worker>, id: nat, x: Worker)
    requires after - {id} == before - {id} && id in after && id in before
    ensures after[id := x] == before[id := x]
  {
    forall i | i in after || i in before ensures i != id ==> i in after && i in before && after[i] == before[i] {
      if i != id { assert i in after - {id} || i in before - {id}; }
    }
  }
}
