/**
What the exactly-once protocol can always still do: from every state it reaches, one more worker
applies, reports and publishes all that can be applied at all
(`crates/pgshard-repl/src/apply.rs`, `crates/pgshard-agent/src/workflow.rs`).
*/
module CatchUp {
  import opened Wrappers
  import opened Keyspace
  import opened Rows
  import opened ExactlyOnce
  import opened Refinement
  import A = Apply
  import S = Seeding
  import T = Stream
  import R = SeedingRuns

  /** The transactions can be applied: each is taken whole, their statements succeed, and no commit crosses the sign boundary. */
  ghost predicate Possible(seed: Db, log: seq<Txn>) {
    && (forall i | 0 <= i < |log| :: log[i].commit < SIGN <==> log[0].commit < SIGN)
    && Fold(seed, log).Ok?
  }

  lemma {:induction false} FoldPrefix(seed: Db, log: seq<Txn>, m: nat)
    requires m <= |log| && Fold(seed, log).Ok?
    ensures Fold(seed, log[..m]).Ok?
  {
    if m == |log| {
      assert log[..m] == log;
    } else {
      assert log[..|log| - 1][..m] == log[..m];
      FoldPrefix(seed, log[..|log| - 1], m);
    }
  }

  lemma PossiblePrefix(seed: Db, log: seq<Txn>, m: nat)
    requires m <= |log| && Possible(seed, log)
    ensures Possible(seed, log[..m])
  {
    FoldPrefix(seed, log, m);
  }

  /** The stored position is at or past the commit of the first `m` transactions. */
  ghost predicate Past(w: World, m: nat)
    requires m <= |w.log|
  {
    m > 0 ==> ProgressStored(w.progress) && w.progress.Some? && w.log[m - 1].commit <= AsU64OfI64(w.progress.value.lsn)
  }

  lemma PastIff(w: World, k: nat, m: nat)
    requires Inv(w, k) && m <= |w.log|
    ensures Past(w, m) <==> m <= k
  {
    hide Fold, WorkerOk, Carried;
    if k > 0 {
      CastRoundTrip(w.log[k - 1].commit);
      if 0 < m <= k { CommitsIncrease(w, m - 1, k - 1); }
      if k < m { CommitsIncrease(w, k - 1, m - 1); }
    }
  }

  // -------------------------------------------------------- along any path

  lemma {:induction false} PathKeeps(ws: seq<World>, actions: seq<Action>, k: nat, n: nat) returns (k': nat)
    requires Path(ws, actions) && Inv(ws[0], k) && n <= |actions|
    ensures Inv(ws[n], k') && ws[0].log <= ws[n].log && ws[n].seed == ws[0].seed
  {
    hide Inv, Enabled, Next;
    if n == 0 {
      k' := k;
    } else {
      k' := PathKeeps(ws, actions, k, n - 1);
      assert Enabled(ws[n - 1], actions[n - 1]) && ws[n] == Next(ws[n - 1], actions[n - 1]);
      k' := StepKeeps(ws[n - 1], k', actions[n - 1]);
      LogGrows(ws[n - 1], actions[n - 1]);
    }
  }

  lemma LogGrows(w: World, a: Action)
    requires Enabled(w, a)
    ensures w.log <= Next(w, a).log && Next(w, a).seed == w.seed
  {
    hide Execute, Overlay;
  }

  /** What is durable was possible. */
  lemma DurableIsPossible(w: World, k: nat, m: nat)
    requires Inv(w, k) && m <= k
    ensures m <= |w.log| && Possible(w.seed, w.log[..m])
  {
    hide WorkerOk, Carried;
    assert w.log[..k][..m] == w.log[..m];
    FoldPrefix(w.seed, w.log[..k], m);
    forall i | 0 <= i < m ensures w.log[i].commit < SIGN <==> w.log[0].commit < SIGN {
      CommitsIncrease(w, 0, i);
      CommitsIncrease(w, i, k - 1);
    }
  }

  // ------------------------------------------------------- one worker at work

  lemma Joined(ws: seq<World>, actions: seq<Action>, more: seq<World>, next: seq<Action>) returns (ws': seq<World>, actions': seq<Action>)
    requires Path(ws, actions) && Path(more, next) && more[0] == ws[|actions|]
    ensures Path(ws', actions') && ws'[0] == ws[0] && ws'[|actions'|] == more[|next|]
  {
    hide Enabled, Next;
    ws', actions' := ws + more[1..], actions + next;
    forall i | 0 <= i < |actions'| ensures Enabled(ws'[i], actions'[i]) && ws'[i + 1] == Next(ws'[i], actions'[i]) {
      if i < |actions| {
        assert actions'[i] == actions[i];
      } else {
        assert actions'[i] == next[i - |actions|];
        assert ws'[i] == more[i - |actions|] && ws'[i + 1] == more[i + 1 - |actions|];
      }
    }
  }

  /** Worker `id` is idle before transaction `n` and knows what is durable. */
  ghost predicate Going(w: World, k: nat, id: nat, n: nat) {
    && Inv(w, k) && k <= |w.log| && n <= k
    && id in w.workers && w.workers[id].phase.Idle? && w.workers[id].next == n && w.workers[id].checkpoint == DurableCommit(w, k)
  }

  /** From `w` to `w'` only the target, worker `id` and what it reports and shows may differ. */
  ghost predicate ByWorker(w: World, w': World, id: nat) {
    && w' == w.(rows := w'.rows, progress := w'.progress, workers := w'.workers, reports := w'.reports, shown := w'.shown)
    && w'.workers - {id} == w.workers - {id} && w.reports <= w'.reports && w.shown <= w'.shown
  }

  /** Transaction `n` is reported and its journal shown. */
  ghost predicate Told(w: World, id: nat, n: nat) {
    && n < |w.log| && id in w.workers
    && w.log[n].end <= w.workers[id].confirmed && w.workers[id].confirmed in w.reports
    && (w.log[n].journal.Some? ==> w.log[n].journal.value in w.shown)
  }

  lemma ByWorkerTwice(a: World, b: World, c: World, id: nat)
    requires ByWorker(a, b, id) && ByWorker(b, c, id)
    ensures ByWorker(a, c, id)
  {
  }

  /** Worker `id` has just finished transaction `n`. */
  ghost predicate JustDid(w: World, k: nat, id: nat, n: nat) {
    && Inv(w, k) && k <= |w.log| && n < k && id in w.workers
    && w.workers[id].phase == Committed(w.log[n].journal) && w.workers[id].next == n + 1
    && w.workers[id].checkpoint == DurableCommit(w, k) && w.log[n].end <= w.workers[id].ack
  }

  /** The report after a transaction. */
  lemma ReportsOne(w: World, k: nat, id: nat, n: nat)
    requires JustDid(w, k, id, n)
    ensures Enabled(w, Report(id))
    ensures var w' := Next(w, Report(id)); Going(w', k, id, n + 1) && ByWorker(w, w', id) && Told(w', id, n)
  {
    ReportStep(w, id);
    ReportKeeps(w, k, id);
    hide Inv, Next, Enabled;
    var w' := Next(w, Report(id));
    assert w'.workers - {id} == w.workers - {id};
  }

  /** A transaction that is durable already is skipped, and still reported. */
  lemma SkipOne(w: World, k: nat, id: nat, n: nat) returns (ws: seq<World>, actions: seq<Action>)
    requires Going(w, k, id, n) && n < k
    ensures Path(ws, actions) && ws[0] == w
    ensures var w' := ws[|actions|]; Going(w', k, id, n + 1) && ByWorker(w, w', id) && Told(w', id, n)
  {
    var x, t := w.workers[id], w.log[n];
    assert t.commit <= x.checkpoint by { CommitsIncreaseHere(w, k, n); }
    var mid := With(w, id, Finish(x, t));
    assert Enabled(w, Deliver(id)) && Next(w, Deliver(id)) == mid;
    DeliverKeeps(w, k, id);
    hide Inv;
    ReportsOne(mid, k, id, n);
    hide Next, Enabled, Going, Told;
    ws, actions := [w, mid, Next(mid, Report(id))], [Deliver(id), Report(id)];
    OnlyWith(w, id, Finish(x, t));
    ByWorkerTwice(w, mid, ws[2], id);
  }

  lemma OnlyWith(w: World, id: nat, x: Worker)
    ensures ByWorker(w, With(w, id, x), id)
  {
    assert With(w, id, x).workers - {id} == w.workers - {id};
  }

  lemma CommitsIncreaseHere(w: World, k: nat, n: nat)
    requires Inv(w, k) && n < k <= |w.log|
    ensures w.log[n].commit <= DurableCommit(w, k)
  {
    hide Fold, WorkerOk, Carried;
    CommitsIncrease(w, n, k - 1);
  }

  /** The next transaction's statements succeed, and the progress row lets it pass. */
  lemma NextIsClear(w: World, k: nat)
    requires Inv(w, k) && k < |w.log| && Possible(w.seed, w.log[..k + 1])
    ensures w.log[k].stmts.Some? && ExecuteAll(w.log[k].stmts.value, w.rows).Ok? && CasAdvances(w.progress, w.log[k].commit)
    ensures DurableCommit(w, k) < w.log[k].commit
  {
    hide WorkerOk, Carried, ExecuteAll;
    assert w.log[..k + 1][..k] == w.log[..k];
    if k > 0 {
      CommitsIncrease(w, k - 1, k);
      SignedOrder(w.log[k - 1].commit, w.log[k].commit);
      assert w.log[..k + 1][k - 1] == w.log[k - 1] && w.log[..k + 1][k] == w.log[k];
    }
  }

  /** After a commit of the next transaction one more is durable. */
  lemma LandedInv(ws: seq<World>, actions: seq<Action>, k: nat)
    requires Path(ws, actions) && Inv(ws[0], k) && k < |ws[0].log| && ws[|actions|].log == ws[0].log
    requires ws[|actions|].progress == Some(Progress(AsI64(ws[0].log[k].commit), AsI64(ws[0].log[k].end)))
    ensures Inv(ws[|actions|], k + 1)
  {
    hide Inv, Enabled, Next;
    var w := ws[|actions|];
    var k' := PathKeeps(ws, actions, k, |actions|);
    SameDurable(w, k', k + 1);
  }

  lemma SameDurable(w: World, k: nat, m: nat)
    requires Inv(w, k) && 0 < m <= |w.log|
    requires w.progress == Some(Progress(AsI64(w.log[m - 1].commit), AsI64(w.log[m - 1].end)))
    ensures k == m
  {
    hide Fold, WorkerOk, Carried;
    CastRoundTrip(w.log[m - 1].commit);
    CastRoundTrip(w.log[k - 1].commit);
    CommitsDistinct(w, k - 1, m - 1);
  }

  lemma CommitsDistinct(w: World, i: nat, j: nat)
    requires CommitOrder(w.log, w.start) && i < |w.log| && j < |w.log| && w.log[i].commit == w.log[j].commit
    ensures i == j
  {
    forall a, b | 0 <= a < b < |w.log| ensures w.log[a].commit != w.log[b].commit {
      assert w.log[a].end <= w.log[b].commit;
    }
  }

  /** The next transaction is applied and committed. */
  lemma Lands(w: World, k: nat, id: nat) returns (ws: seq<World>, actions: seq<Action>)
    requires Going(w, k, id, k) && k < |w.log| && Possible(w.seed, w.log[..k + 1])
    ensures Path(ws, actions) && ws[0] == w && JustDid(ws[|actions|], k + 1, id, k) && ByWorker(w, ws[|actions|], id)
  {
    NextIsClear(w, k);
    hide Inv, Possible, ExecuteAll;
    var x, t := w.workers[id], w.log[k];
    ws, actions := EndPath(w, id, A.Ends(Succeeds));
    LandedInv(ws, actions, k);
    hide Enabled, Next;
    OnlyWith(w, id, ws[|actions|].workers[id]);
    assert ws[|actions|].workers == With(w, id, ws[|actions|].workers[id]).workers;
  }

  /** The next transaction is applied, committed and reported. */
  lemma ApplyOne(w: World, k: nat, id: nat) returns (ws: seq<World>, actions: seq<Action>)
    requires Going(w, k, id, k) && k < |w.log| && Possible(w.seed, w.log[..k + 1])
    ensures Path(ws, actions) && ws[0] == w
    ensures var w' := ws[|actions|]; Going(w', k + 1, id, k + 1) && ByWorker(w, w', id) && Told(w', id, k)
  {
    hide Inv, Going, Told, Possible, Next, Enabled;
    ws, actions := Lands(w, k, id);
    var mid := ws[|actions|];
    ReportsOne(mid, k + 1, id, k);
    PathMore(ws, actions, Report(id));
    ws, actions := ws + [Next(mid, Report(id))], actions + [Report(id)];
    ByWorkerTwice(w, mid, Next(mid, Report(id)), id);
  }

  // ---------------------------------------------------------------- theorems

  lemma StartGoes(w: World, k: nat, id: nat)
    requires Inv(w, k) && id !in w.workers
    ensures Enabled(w, StartWorker(id, 0))
    ensures var w' := Next(w, StartWorker(id, 0)); Going(w', k, id, 0) && ByWorker(w, w', id)
  {
    hide Fold, WorkerOk, Carried, Inv;
    assert Durable(w, k) by { InvDurable(w, k); }
    DurableMeans(w, k);
    StartWorkerKeeps(w, k, id, 0);
    var w' := Next(w, StartWorker(id, 0));
    assert w'.workers - {id} == w.workers - {id};
  }

  lemma InvDurable(w: World, k: nat)
    requires Inv(w, k)
    ensures Durable(w, k)
  {
  }

  /** The worker goes on to transaction `n`, whatever is durable already. */
  lemma {:induction false} GoesOn(w: World, k: nat, id: nat, n: nat) returns (ws: seq<World>, actions: seq<Action>, k': nat)
    requires Inv(w, k) && id !in w.workers && n <= |w.log| && Possible(w.seed, w.log[..n])
    ensures Path(ws, actions) && ws[0] == w && k' == (if k < n then n else k)
    ensures var w' := ws[|actions|]; Going(w', k', id, n) && ByWorker(w, w', id) && forall i | 0 <= i < n :: Told(w', id, i)
  {
    hide Inv, Enabled, Next, Going, Possible;
    if n == 0 {
      StartGoes(w, k, id);
      ws, actions, k' := [w, Next(w, StartWorker(id, 0))], [StartWorker(id, 0)], k;
    } else {
      assert w.log[..n][..n - 1] == w.log[..n - 1];
      PossiblePrefix(w.seed, w.log[..n], n - 1);
      ws, actions, k' := GoesOn(w, k, id, n - 1);
      var mid, k1 := ws[|actions|], k';
      var more, next;
      if k' == n - 1 {
        more, next := ApplyOne(mid, k', id);
        k' := n;
      } else {
        assert n - 1 < k' by { GoingBelow(mid, k', id, n - 1); }
        more, next := SkipOne(mid, k', id, n - 1);
      }
      var last := more[|next|];
      ws, actions := Joined(ws, actions, more, next);
      ByWorkerTwice(w, mid, last, id);
      GoingOrder(mid, k1, id, n - 1);
      StillTold(mid, last, id, n - 1);
    }
  }

  lemma GoingBelow(w: World, k: nat, id: nat, n: nat)
    requires Going(w, k, id, n)
    ensures n <= k
  {
  }

  lemma GoingOrder(w: World, k: nat, id: nat, n: nat)
    requires Going(w, k, id, n)
    ensures CommitOrder(w.log, w.start)
  {
    hide Fold, WorkerOk, Carried;
  }

  lemma StillTold(w: World, w': World, id: nat, n: nat)
    requires ByWorker(w, w', id) && Told(w', id, n) && n < |w.log| && forall i | 0 <= i < n :: Told(w, id, i)
    requires CommitOrder(w.log, w.start)
    ensures forall i | 0 <= i < n :: Told(w', id, i)
  {
    forall i | 0 <= i < n ensures Told(w', id, i) {
      assert Told(w, id, i) && w.log[i].end <= w.log[n].commit;
    }
  }

  /** Some continuation of the run takes the target at or past the first `m` transactions. */
  ghost predicate CanPass(w: World, m: nat)
    requires m <= |w.log|
  {
    exists ws, actions :: PassesBy(w, m, ws, actions)
  }

  ghost predicate PassesBy(w: World, m: nat, ws: seq<World>, actions: seq<Action>) {
    && Path(ws, actions) && ws[0] == w
    && m <= |ws[|actions|].log| && Past(ws[|actions|], m)
  }

  /**
  Where the protocol stops for good, exactly: from every state of every run, the target can still
  be taken past the first `m` transactions if and only if each of them is taken whole, their
  statements succeed on the seed in order, and no commit crosses the sign boundary.
  */
  lemma PassesIffPossible(run: seq<World>, actions: seq<Action>, m: nat, id: nat)
    requires IsRun(run, actions) && m <= |run[|actions|].log| && id !in run[|actions|].workers
    ensures var w := run[|actions|]; CanPass(w, m) <==> Possible(w.seed, w.log[..m])
  {
    var w := run[|actions|];
    var k := RunKeeps(run, actions);
    hide Inv, Enabled, Next, Possible, IsRun;
    if Possible(w.seed, w.log[..m]) {
      var ws, after, k' := GoesOn(w, k, id, m);
      GoingPast(ws[|after|], k', id, m);
      assert PassesBy(w, m, ws, after);
    }
    if ws: seq<World>, after: seq<Action> :| PassesBy(w, m, ws, after) {
      var k' := PathKeeps(ws, after, k, |after|);
      PastIff(ws[|after|], k', m);
      DurableIsPossible(ws[|after|], k', m);
      assert ws[|after|].log[..m] == w.log[..m];
    }
  }

  lemma GoingPast(w: World, k: nat, id: nat, m: nat)
    requires Going(w, k, id, m)
    ensures m <= |w.log| && Past(w, m)
  {
    PastIff(w, k, m);
  }

  /** All of the log is at the target, reported to the server, released by the slot, and its journal shown. */
  ghost predicate CaughtUp(w: World) {
    && Fold(w.seed, w.log) == Ok(w.rows)
    && (w.log != [] ==> w.slot == w.log[|w.log| - 1].end)
    && forall i | 0 <= i < |w.log| && w.log[i].journal.Some? :: w.log[i].journal.value in w.shown
  }

  /**
  From every state of every run whose log can be applied, one more worker catches up: all
  transactions are applied, the slot can follow to the end of the log, and every journal position
  is shown.
  */
  lemma CatchesUp(run: seq<World>, actions: seq<Action>, id: nat) returns (ws: seq<World>, after: seq<Action>)
    requires IsRun(run, actions) && id !in run[|actions|].workers && Possible(run[|actions|].seed, run[|actions|].log)
    ensures Path(ws, after) && ws[0] == run[|actions|]
    ensures var w' := ws[|after|]; w'.log == ws[0].log && w'.seed == ws[0].seed && CaughtUp(w')
  {
    var w := run[|actions|];
    var k := RunKeeps(run, actions);
    hide Inv, Enabled, Next, Possible, IsRun;
    assert w.log[..|w.log|] == w.log;
    var k';
    ws, after, k' := GoesOn(w, k, id, |w.log|);
    hide ByWorker, Told, Going;
    assert ws[|after|].log == w.log && ws[|after|].seed == w.seed by { WorkerKeepsLog(w, ws[|after|], id); }
    ws, after := SlotLast(ws, after, k', id);
  }

  lemma WorkerKeepsLog(w: World, w': World, id: nat)
    requires ByWorker(w, w', id)
    ensures w'.log == w.log && w'.seed == w.seed
  {
  }

  lemma SlotLast(ws: seq<World>, actions: seq<Action>, k: nat, id: nat) returns (ws': seq<World>, actions': seq<Action>)
    requires Path(ws, actions)
    requires var w := ws[|actions|]; Going(w, k, id, |w.log|) && forall i | 0 <= i < |w.log| :: Told(w, id, i)
    ensures Path(ws', actions') && ws'[0] == ws[0]
    ensures var w, w' := ws[|actions|], ws'[|actions'|]; w'.log == w.log && w'.seed == w.seed && CaughtUp(w')
  {
    hide Enabled, Next, Fold;
    var w := ws[|actions|];
    GoingAll(w, k, id);
    hide Going, Told;
    ws', actions' := ws, actions;
    if w.log != [] {
      var end := w.log[|w.log| - 1].end;
      SlotFollows(w, end);
      PathMore(ws, actions, SlotAdvance(end));
      ws', actions' := ws + [Next(w, SlotAdvance(end))], actions + [SlotAdvance(end)];
    }
  }

  lemma SlotFollows(w: World, end: U64)
    requires end in w.reports
    ensures Enabled(w, SlotAdvance(end)) && Next(w, SlotAdvance(end)) == w.(slot := end)
  {
  }

  lemma GoingAll(w: World, k: nat, id: nat)
    requires Going(w, k, id, |w.log|) && forall i | 0 <= i < |w.log| :: Told(w, id, i)
    ensures Fold(w.seed, w.log) == Ok(w.rows)
    ensures w.log != [] ==> w.log[|w.log| - 1].end in w.reports
    ensures forall i | 0 <= i < |w.log| && w.log[i].journal.Some? :: w.log[i].journal.value in w.shown
  {
    hide Carried, TxOk;
    assert k == |w.log| && w.log[..k] == w.log;
    if w.log != [] {
      InvWorker(w, k, id);
      assert Told(w, id, k - 1);
      assert w.workers[id].confirmed == w.log[k - 1].end;
    }
    forall i | 0 <= i < |w.log| && w.log[i].journal.Some? ensures w.log[i].journal.value in w.shown { assert Told(w, id, i); }
  }

  /**
  The reshard's target catches up with the source: when every transaction of the history can be
  taken whole, then from every state of every run the target can still come to hold exactly the
  source's rows of its range.
  */
  lemma SeededTargetCatchesUp(cfg: S.Config, wf: T.Workflow, ss: seq<R.Session>, ds: seq<R.Delivery>, dbs: seq<Db>,
                              run: seq<World>, actions: seq<Action>, id: nat) returns (ws: seq<World>, after: seq<Action>)
    requires S.ConfigOk(cfg) && R.History(cfg, ds, dbs)
    requires IsRun(run, actions) && id !in run[|actions|].workers
    requires run[|actions|].seed == S.Restrict(cfg, dbs[0]) && R.LogOf(cfg, wf, ss, ds, run[|actions|].log)
    requires forall i | 0 <= i < |ds| :: R.Takeable(cfg, ds[i])
    requires var log := run[|actions|].log; forall i | 0 <= i < |log| :: log[i].commit < SIGN <==> log[0].commit < SIGN
    ensures Path(ws, after) && ws[0] == run[|actions|]
    ensures var w' := ws[|after|]; CaughtUp(w') && w'.log == ws[0].log && w'.rows == S.Restrict(cfg, dbs[|ds|])
  {
    hide R.History, R.Takeable, S.Restrict, S.ConfigOk, Enabled, Next, CaughtUp;
    var w := run[|actions|];
    R.LogFollows(cfg, wf, ss, ds, dbs, w.log);
    R.FoldFollows(w.log, R.Slices(cfg, dbs), |w.log|);
    assert w.log[..|w.log|] == w.log;
    ws, after := CatchesUp(run, actions, id);
    assert Fold(ws[|after|].seed, ws[|after|].log) == Ok(ws[|after|].rows) by { CaughtUpRows(ws[|after|]); }
  }

  lemma CaughtUpRows(w: World)
    requires CaughtUp(w)
    ensures Fold(w.seed, w.log) == Ok(w.rows)
  {
  }
}
