/**
The stream lease: an applier's first statement takes an advisory lock that its target session
holds for as long as it lives, so that only the lease's holder can run a statement or commit
(`crates/pgshard-repl/src/apply.rs`, `Applier::new`).

The results of `ExactlyOnce` hold without the lease. These say what it adds.
*/
module StreamLease {
  import opened Wrappers
  import opened Keyspace
  import opened Rows
  import opened ExactlyOnce
  import S = Seeding
  import T = Stream
  import R = SeedingRuns

  /**
  Who holds the lease before and after an action. A new applier waits until it is free, then
  reads the progress row. Every statement and commit runs on the holder's session. The session
  may end at any time, and with it the lease: a worker left without it can do neither.
  */
  ghost predicate LeaseStep(held: Option<nat>, a: Action, held': Option<nat>) {
    match a
    case StartWorker(id, _) => held.None? && held' == Some(id)
    case RunStatement(id) => held == Some(id) && (held' == held || held'.None?)
    case AdvanceAndCommit(id, _) => held == Some(id) && (held' == held || held'.None?)
    case _ => held' == held || held'.None?
  }

  /** A run in which `lease[i]` holds the lease before action `i`. */
  ghost predicate Leased(run: seq<World>, actions: seq<Action>, lease: seq<Option<nat>>) {
    && IsRun(run, actions) && |lease| == |run| && lease[0].None?
    && forall i {:trigger actions[i]} | 0 <= i < |actions| :: LeaseStep(lease[i], actions[i], lease[i + 1])
  }

  /** The holder knows exactly what is durable, and is inside no transaction but the next. */
  ghost predicate Current(w: World, k: nat, id: nat)
    requires k <= |w.log|
  {
    id in w.workers ==> w.workers[id].checkpoint == DurableCommit(w, k) && (w.workers[id].phase.InTx? ==> w.workers[id].next == k)
  }

  ghost predicate HolderOk(w: World, k: nat, held: Option<nat>)
    requires k <= |w.log|
  {
    held.Some? ==> Current(w, k, held.value)
  }

  // ------------------------------------------------- each step keeps it current

  lemma DeliverCurrent(w: World, k: nat, id: nat)
    requires Inv(w, k) && Current(w, k, id) && Enabled(w, Deliver(id))
    ensures Current(Next(w, Deliver(id)), k, id)
  {
    hide Fold, Execute, ExecuteAll;
    var x := w.workers[id];
    InvWorker(w, k, id);
    if w.log[x.next].commit > x.checkpoint && x.next < k { CommitsIncrease(w, x.next, k - 1); }
  }

  lemma StartCurrent(w: World, k: nat, id: nat, from: nat)
    requires Inv(w, k) && Enabled(w, StartWorker(id, from))
    ensures Current(Next(w, StartWorker(id, from)), k, id)
  {
    hide Fold, WorkerOk;
    if k > 0 { CastRoundTrip(w.log[k - 1].commit); }
  }

  /** The holder's own commit makes its transaction the last durable one. */
  lemma CommitCurrent(w: World, k: nat, id: nat, fate: Fate) returns (k': nat)
    requires Inv(w, k) && Current(w, k, id) && Enabled(w, AdvanceAndCommit(id, fate))
    ensures Inv(Next(w, AdvanceAndCommit(id, fate)), k') && Current(Next(w, AdvanceAndCommit(id, fate)), k', id)
  {
    hide Inv, Durable, WorkerOk, Overlay;
    InvLength(w, k);
    if !CasAdvances(w.progress, w.log[k].commit) || fate == InDoubt(false) {
      k' := k;
      InvWorker(w, k, id);
      WorkerStepKeeps(w, k, Next(w, AdvanceAndCommit(id, fate)), id);
    } else {
      k' := k + 1;
      LandedKeeps(w, k, id, fate);
    }
  }

  lemma InvLength(w: World, k: nat)
    requires Inv(w, k)
    ensures k <= |w.log|
  {
  }

  /** An action on no other worker and no target leaves the holder as it was. */
  lemma OthersCurrent(w: World, k: nat, a: Action, id: nat)
    requires Inv(w, k) && Current(w, k, id) && Enabled(w, a)
    requires a.SourceCommit? || a.SlotAdvance? || a.Report? || a.KeepAlive? || a.Crash? || (a.Deliver? && a.id != id)
    ensures k <= |Next(w, a).log| && Current(Next(w, a), k, id)
  {
    hide Fold, WorkerOk, Carried;
  }

  lemma StepKeepsHolder(w: World, k: nat, a: Action, held: Option<nat>, held': Option<nat>) returns (k': nat)
    requires Inv(w, k) && HolderOk(w, k, held) && Enabled(w, a) && LeaseStep(held, a, held')
    ensures Inv(Next(w, a), k') && HolderOk(Next(w, a), k', held')
  {
    hide Inv, Enabled, Next, Current;
    if a.AdvanceAndCommit? {
      InvLength(w, k);
      k' := CommitCurrent(w, k, a.id, a.fate);
      InvLength(Next(w, a), k');
    } else {
      k' := SameTargetStep(w, k, a);
      InvLength(w, k);
      InvLength(Next(w, a), k);
      match a
      case StartWorker(id, from) => StartCurrent(w, k, id, from);
      case RunStatement(id) => StatementCurrent(w, k, id);
      case Deliver(id) =>
        if held.Some? { if held.value == id { DeliverCurrent(w, k, id); } else { OthersCurrent(w, k, a, held.value); } }
      case SourceCommit(_) => if held.Some? { OthersCurrent(w, k, a, held.value); }
      case Report(_) => if held.Some? { OthersCurrent(w, k, a, held.value); }
      case KeepAlive(_) => if held.Some? { OthersCurrent(w, k, a, held.value); }
      case SlotAdvance(_) => if held.Some? { OthersCurrent(w, k, a, held.value); }
      case Crash(_) => if held.Some? { OthersCurrent(w, k, a, held.value); }
    }
  }

  lemma StatementCurrent(w: World, k: nat, id: nat)
    requires Inv(w, k) && Current(w, k, id) && Enabled(w, RunStatement(id))
    ensures Current(Next(w, RunStatement(id)), k, id)
  {
    hide Fold, WorkerOk, Execute, Overlay, Carried;
  }

  /** Only a commit moves the durable prefix. */
  lemma SameTargetStep(w: World, k: nat, a: Action) returns (k': nat)
    requires Inv(w, k) && Enabled(w, a) && !a.AdvanceAndCommit?
    ensures k' == k && Inv(Next(w, a), k)
  {
    hide Inv, Enabled, Next;
    k' := k;
    match a
    case SourceCommit(t) => SourceCommitKeeps(w, k, t);
    case StartWorker(id, from) => StartWorkerKeeps(w, k, id, from);
    case Deliver(id) => DeliverKeeps(w, k, id);
    case RunStatement(id) => RunStatementKeeps(w, k, id);
    case Report(id) => ReportKeeps(w, k, id);
    case KeepAlive(id) => KeepAliveKeeps(w, k, id);
    case SlotAdvance(lsn) => SlotAdvanceKeeps(w, k, lsn);
    case Crash(id) => CrashKeeps(w, k, id);
  }

  lemma CrashKeeps(w: World, k: nat, id: nat)
    requires Inv(w, k) && Enabled(w, Crash(id))
    ensures Inv(Next(w, Crash(id)), k)
  {
    hide Inv;
    WorkerStepKeeps(w, k, Next(w, Crash(id)), id);
  }

  // ---------------------------------------------------------------- theorems

  /** In every leased run the holder's checkpoint is the durable position, and its open transaction the next one. */
  lemma {:induction false} HolderIsCurrent(run: seq<World>, actions: seq<Action>, lease: seq<Option<nat>>, n: nat) returns (k: nat)
    requires Leased(run, actions, lease) && n <= |actions|
    ensures Inv(run[n], k) && k <= |run[n].log| && HolderOk(run[n], k, lease[n])
  {
    hide Inv, Enabled, Next, Current;
    if n == 0 {
      k := 0;
      InitInv(run[0]);
    } else {
      k := HolderIsCurrent(run, actions, lease, n - 1);
      k := StepKeepsHolder(run[n - 1], k, actions[n - 1], lease[n - 1], lease[n]);
      InvLength(run[n], k);
    }
  }

  /**
  An undiverged target never trips the one-row check: in every leased run of a target seeded
  with the range's rows, every statement that is run succeeds.
  */
  lemma UndivergedNeverTrips(cfg: S.Config, wf: T.Workflow, ss: seq<R.Session>, ds: seq<R.Delivery>, dbs: seq<Db>,
                             run: seq<World>, actions: seq<Action>, lease: seq<Option<nat>>, n: nat)
    requires S.ConfigOk(cfg) && R.History(cfg, ds, dbs)
    requires Leased(run, actions, lease) && n < |actions| && actions[n].RunStatement?
    requires run[n].seed == S.Restrict(cfg, dbs[0]) && R.LogOf(cfg, wf, ss, ds, run[n].log)
    ensures var w, x := run[n], run[n].workers[actions[n].id];
      Execute(w.log[x.next].stmts.value[x.phase.done], Overlay(w.rows, x.phase.writes)).Ok?
    ensures actions[n].id in run[n + 1].workers
  {
    hide S.ConfigOk, R.History, R.LogOf, S.Restrict, Execute, Overlay, Inv, Durable;
    var k := HolderIsCurrent(run, actions, lease, n);
    var id := actions[n].id;
    assert IsRun(run[..n + 1], actions[..n]);
    assert LeaseStep(lease[n], actions[n], lease[n + 1]);
    InvWorker(run[n], k, id);
    DurableMeans(run[n], k);
    InvLength(run[n], k);
    R.OnlyOvertakenFail(cfg, wf, ss, ds, dbs, run[..n + 1], actions[..n], id);
  }

  /**
  Nor is a leased worker ever fenced off by the progress row, as long as positions stay on one
  side of the sign boundary of the stored integer: the compare-and-set passes exactly then.
  */
  lemma LeasedPassesIff(run: seq<World>, actions: seq<Action>, lease: seq<Option<nat>>, n: nat)
    requires Leased(run, actions, lease) && n < |actions| && actions[n].AdvanceAndCommit?
    ensures var w := run[n];
      var next := w.workers[actions[n].id].next;
      CasAdvances(w.progress, w.log[next].commit) <==> next == 0 || (w.log[next - 1].commit < SIGN <==> w.log[next].commit < SIGN)
  {
    hide Fold, WorkerOk;
    var k := HolderIsCurrent(run, actions, lease, n);
    assert LeaseStep(lease[n], actions[n], lease[n + 1]);
    if k > 0 {
      CommitsIncrease(run[n], k - 1, k);
      SignedOrder(run[n].log[k - 1].commit, run[n].log[k].commit);
    }
  }

  /** What the lease prevents: the overtaking of one open transaction by another. */
  lemma OvertakingNeedsNoLease(run: seq<World>, lease: seq<Option<nat>>)
    ensures !Leased(run, OVERTAKEN, lease)
  {
    hide IsRun;
    assert OVERTAKEN[1] == StartWorker(0, 0) && OVERTAKEN[2] == StartWorker(1, 0);
  }
}
