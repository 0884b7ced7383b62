/**
Exactly-once apply as a protocol: any number of appliers of one consumer over one
target database and one replication slot, with crashes, in-doubt commits, stale
checkpoints and redelivery (`crates/pgshard-repl/src/apply.rs`,
`crates/pgshard-repl/src/client.rs`, the streaming loop of
`crates/pgshard-agent/src/workflow.rs`).

An applier's target transaction is not one step: its statements run one by one
against the rows committed at that moment seen through its own writes, and other
appliers may commit in between. The stream lease that keeps other appliers away is not
assumed here, so every property holds even when it fails; `StreamLease` adds it.
*/
module ExactlyOnce {
  import opened Wrappers
  import opened Keyspace
  import opened Rows

  // ------------------------------------------------------------------- LSNs

  const SIGN: int := 0x8000_0000_0000_0000

  /** `lsn.0 as i64`: positions are stored in a signed `bigint` column. */
  function AsI64(n: U64): (i: int)
    ensures -SIGN <= i < SIGN
  {
    if n < SIGN then n else n - TOP
  }

  /** `value as u64`. */
  function AsU64OfI64(i: int): (n: U64)
    requires -SIGN <= i < SIGN
  {
    if i < 0 then i + TOP else i
  }

  lemma CastRoundTrip(n: U64)
    ensures AsU64OfI64(AsI64(n)) == n
  {
  }

  /** The stored order is the order of positions exactly when both lie on one side of 2^63. */
  lemma SignedOrder(a: U64, b: U64)
    ensures (AsI64(a) < AsI64(b) <==> a < b) <==> (a < SIGN <==> b < SIGN)
  {
  }

  function Max(a: U64, b: U64): U64 {
    if a < b then b else a
  }

  // -------------------------------------------------------------- the world

  /**
  A source transaction as one worker receives it: the statements its changes turn
  into, or `None` when the runner refuses it, and the position of a `pgshard`
  journal message it carries.
  */
  datatype Txn = Txn(commit: U64, end: U64, stmts: Option<seq<Statement>>, journal: Option<U64>)

  datatype Progress = Progress(lsn: int, end: int)

  datatype Phase =
    | Idle
    | InTx(done: nat, writes: Writes)
    | Committed(journal: Option<U64>)

  /**
  One applier with its replication client. `next` indexes the transaction the
  stream delivers next; `reported` are the flush positions it has sent, in order.
  */
  datatype Worker = Worker(
    next: nat, checkpoint: U64, ack: U64, confirmed: U64, reported: seq<U64>, phase: Phase)

  datatype World = World(
    log: seq<Txn>,              // committed at the source, in commit order
    start: U64,                 // the slot's consistent point
    seed: Db,                   // the rows copied under the slot's snapshot
    rows: Db,                   // committed rows of the target
    progress: Option<Progress>, // the consumer's row of pgshard.repl_progress
    slot: U64,                  // the slot's confirmed flush position
    reports: set<U64>,          // every flush position any worker has sent
    shown: set<U64>,            // every journal_lsn any worker has published
    workers: map<nat, Worker>)

  ghost predicate CommitOrder(log: seq<Txn>, start: U64) {
    && (forall i | 0 <= i < |log| :: 0 < log[i].commit < log[i].end && start <= log[i].commit)
    && (forall i, j | 0 <= i < j < |log| :: log[i].end <= log[j].commit)
    && (forall i, j | 0 <= i < j < |log| :: log[i].journal.Some? ==> log[i].journal != log[j].journal)
  }

  ghost predicate Init(w: World) {
    && w.log == []
    && w.rows == w.seed
    && w.progress == None
    && w.slot == w.start
    && w.reports == {} && w.shown == {} && w.workers == map[]
  }

  // ------------------------------------------------------------------ steps

  datatype Fate = Succeeds | InDoubt(landed: bool)

  datatype Action =
    | SourceCommit(txn: Txn)
    | StartWorker(id: nat, from: nat)
    | Deliver(id: nat)
    | RunStatement(id: nat)
    | AdvanceAndCommit(id: nat, fate: Fate)
    | Report(id: nat)
    | KeepAlive(id: nat)
    | SlotAdvance(lsn: U64)
    | Crash(id: nat)

  /** `Applier::new`: the checkpoint and the acknowledgement of the stored row. */
  function LoadWorker(p: Option<Progress>, from: nat): Worker
    requires p.Some? ==> -SIGN <= p.value.lsn < SIGN && -SIGN <= p.value.end < SIGN
  {
    match p
    case None => Worker(from, 0, 0, 0, [], Idle)
    case Some(row) =>
      var lsn := AsU64OfI64(row.lsn);
      Worker(from, lsn, Max(AsU64OfI64(row.end), lsn), 0, [], Idle)
  }

  /** The conflict clause of the progress upsert: absent, or strictly behind in the stored order. */
  predicate CasAdvances(p: Option<Progress>, commit: U64) {
    p.None? || p.value.lsn < AsI64(commit)
  }

  function Without(w: World, id: nat): World {
    w.(workers := w.workers - {id})
  }

  function With(w: World, id: nat, worker: Worker): World {
    w.(workers := w.workers[id := worker])
  }

  function Finish(k: Worker, t: Txn): Worker {
    k.(next := k.next + 1, ack := Max(k.ack, t.end), phase := Committed(t.journal))
  }

  ghost predicate ProgressStored(p: Option<Progress>) {
    p.Some? ==> -SIGN <= p.value.lsn < SIGN && -SIGN <= p.value.end < SIGN
  }

  /** Whether an action can happen in `w`. */
  ghost predicate Enabled(w: World, a: Action) {
    match a
    case SourceCommit(t) => CommitOrder(w.log + [t], w.start)
    // The server skips only transactions whose commit lies strictly below the
    // slot's confirmed position; it may resend anything later.
    case StartWorker(id, from) =>
      && id !in w.workers && from <= |w.log| && ProgressStored(w.progress)
      && forall i | 0 <= i < from :: w.log[i].commit < w.slot
    case Deliver(id) => id in w.workers && w.workers[id].phase.Idle? && w.workers[id].next < |w.log|
    case RunStatement(id) =>
      && id in w.workers && w.workers[id].phase.InTx? && w.workers[id].next < |w.log|
      && w.log[w.workers[id].next].stmts.Some?
      && w.workers[id].phase.done < |w.log[w.workers[id].next].stmts.value|
    case AdvanceAndCommit(id, _) =>
      && id in w.workers && w.workers[id].phase.InTx? && w.workers[id].next < |w.log|
      && w.log[w.workers[id].next].stmts.Some?
      && w.workers[id].phase.done == |w.log[w.workers[id].next].stmts.value|
    case Report(id) => id in w.workers && w.workers[id].phase.Committed?
    case KeepAlive(id) => id in w.workers && w.workers[id].phase.Idle?
    case SlotAdvance(lsn) => lsn in w.reports
    case Crash(id) => id in w.workers
  }

  /** The world after an enabled action. A worker that meets an error ends. */
  function Next(w: World, a: Action): World
    requires Enabled(w, a)
  {
    match a
    case SourceCommit(t) => w.(log := w.log + [t])
    case StartWorker(id, from) => With(w, id, LoadWorker(w.progress, from))
    case Deliver(id) =>
      var k := w.workers[id];
      var t := w.log[k.next];
      if t.commit <= k.checkpoint then With(w, id, Finish(k, t))
      else if t.stmts.None? then Without(w, id)
      else With(w, id, k.(phase := InTx(0, map[])))
    case RunStatement(id) =>
      var k := w.workers[id];
      var stmt := w.log[k.next].stmts.value[k.phase.done];
      var effect := Execute(stmt, Overlay(w.rows, k.phase.writes));
      if effect.Err? then Without(w, id)
      else With(w, id, k.(phase := InTx(k.phase.done + 1, k.phase.writes + effect.value)))
    case AdvanceAndCommit(id, fate) =>
      var k := w.workers[id];
      var t := w.log[k.next];
      if !CasAdvances(w.progress, t.commit) then Without(w, id)
      else
        var landed := w.(rows := Overlay(w.rows, k.phase.writes),
                         progress := Some(Progress(AsI64(t.commit), AsI64(t.end))));
        if fate.Succeeds? then With(landed, id, Finish(k.(checkpoint := t.commit), t))
        else if fate.landed then Without(landed, id)
        else Without(w, id)
    case Report(id) =>
      var k := w.workers[id];
      var flush := Max(k.confirmed, k.ack);
      var shown := if k.phase.journal.Some? then w.shown + {k.phase.journal.value} else w.shown;
      With(w, id, k.(confirmed := flush, reported := k.reported + [flush], phase := Idle))
        .(reports := w.reports + {flush}, shown := shown)
    case KeepAlive(id) =>
      var k := w.workers[id];
      With(w, id, k.(reported := k.reported + [k.confirmed])).(reports := w.reports + {k.confirmed})
    case SlotAdvance(lsn) => w.(slot := lsn)
    case Crash(id) => Without(w, id)
  }

  /** `run` is a run: it starts initially and every step is an enabled action. */
  ghost predicate IsRun(run: seq<World>, actions: seq<Action>) {
    && |run| == |actions| + 1
    && Init(run[0])
    && forall i | 0 <= i < |actions| :: Enabled(run[i], actions[i]) && run[i + 1] == Next(run[i], actions[i])
  }

  // ------------------------------------------------------------- reference

  /** The target rows after transactions, in order, starting from `seed`. */
  ghost function Fold(seed: Db, txns: seq<Txn>): Result<Db, ApplyError> {
    if txns == [] then Ok(seed)
    else
      var before := Fold(seed, txns[..|txns| - 1]);
      var t := txns[|txns| - 1];
      if before.Err? then before
      else if t.stmts.None? then Err(Unsupported)
      else ExecuteAll(t.stmts.value, before.value)
  }

  /** The transactions with commit position at or below `lsn`. */
  ghost function UpTo(log: seq<Txn>, lsn: int): seq<Txn> {
    if log == [] then []
    else
      var init := UpTo(log[..|log| - 1], lsn);
      if log[|log| - 1].commit <= lsn then init + [log[|log| - 1]] else init
  }

  lemma {:induction false} UpToIsPrefix(log: seq<Txn>, k: nat, lsn: int)
    requires k <= |log|
    requires forall i | 0 <= i < k :: log[i].commit <= lsn
    requires forall i | k <= i < |log| :: log[i].commit > lsn
    ensures UpTo(log, lsn) == log[..k]
    decreases |log|
  {
    if log != [] {
      var last := |log| - 1;
      var init := log[..last];
      assert forall i | 0 <= i < last :: init[i] == log[i];
      if k == |log| {
        UpToIsPrefix(init, last, lsn);
        assert log[..k] == init[..last] + [log[last]];
      } else {
        UpToIsPrefix(init, k, lsn);
        assert init[..k] == log[..k];
      }
    }
  }

  // ------------------------------------------------------------- invariant

  /** The end of the last of the first `k` transactions, or the consistent point. */
  ghost function DurableEnd(w: World, k: nat): U64
    requires k <= |w.log|
  {
    if k == 0 then w.start else w.log[k - 1].end
  }

  ghost function DurableCommit(w: World, k: nat): U64
    requires k <= |w.log|
  {
    if k == 0 then 0 else w.log[k - 1].commit
  }

  /** The first `k` transactions are exactly what the target holds durably. */
  ghost predicate Durable(w: World, k: nat) {
    && k <= |w.log|
    && CommitOrder(w.log, w.start)
    && Fold(w.seed, w.log[..k]) == Ok(w.rows)
    && w.progress == (if k == 0 then None
                      else Some(Progress(AsI64(w.log[k - 1].commit), AsI64(w.log[k - 1].end))))
    && (k > 0 && w.log[0].commit < SIGN ==> w.log[k - 1].commit < SIGN)
  }

  /** What a worker knows is true of the durable state, and its open writes fit the rows they were made for. */
  ghost predicate WorkerOk(w: World, k: nat, x: Worker)
    requires k <= |w.log|
  {
    && x.next <= k
    && x.ack <= DurableEnd(w, k)
    && x.confirmed <= DurableEnd(w, k)
    && (forall i | 0 <= i < |x.reported| :: x.reported[i] <= x.confirmed)
    && NonDecreasing(x.reported)
    && (x.phase.InTx? ==> TxOk(w, k, x))
    && (x.phase.Committed? && x.phase.journal.Some? ==> Carried(w, k, x.phase.journal.value))
    && x.checkpoint <= DurableCommit(w, k)
  }

  ghost predicate TxOk(w: World, k: nat, x: Worker)
    requires k <= |w.log| && x.phase.InTx?
  {
    && x.next < |w.log|
    && w.log[x.next].stmts.Some?
    && x.phase.done <= |w.log[x.next].stmts.value|
    && (x.next == k ==>
          ExecuteAll(w.log[k].stmts.value[..x.phase.done], w.rows) == Ok(Overlay(w.rows, x.phase.writes)))
  }

  /** Some durably applied transaction carries journal position `j`. */
  ghost predicate Carried(w: World, k: nat, j: U64)
    requires k <= |w.log|
  {
    exists i :: 0 <= i < k && w.log[i].journal == Some(j)
  }

  ghost predicate Inv(w: World, k: nat) {
    && Durable(w, k)
    && w.slot <= DurableEnd(w, k)
    && (forall r | r in w.reports :: r <= DurableEnd(w, k))
    && (forall j | j in w.shown :: Carried(w, k, j))
    && (forall id | id in w.workers :: WorkerOk(w, k, w.workers[id]))
  }

  lemma InitInv(w: World)
    requires Init(w)
    ensures Inv(w, 0)
  {
    assert w.log[..0] == [];
  }

  // ------------------------------------------- each action keeps the invariant

  lemma SourceCommitKeeps(w: World, k: nat, t: Txn)
    requires Inv(w, k) && Enabled(w, SourceCommit(t))
    ensures Inv(Next(w, SourceCommit(t)), k)
  {
    var w' := Next(w, SourceCommit(t));
    assert w'.log[..k] == w.log[..k];
    CarriedKept(w, k, w', k);
    forall id | id in w'.workers ensures WorkerOk(w', k, w'.workers[id]) {
      assert WorkerOk(w, k, w.workers[id]);
    }
  }

  lemma CarriedKept(w: World, k: nat, w': World, k': nat)
    requires k <= |w.log| && k <= k' <= |w'.log| && w.log[..k] == w'.log[..k]
    ensures forall j: U64 | Carried(w, k, j) :: Carried(w', k', j)
  {
    forall j: U64 | Carried(w, k, j) ensures Carried(w', k', j) {
      var i :| 0 <= i < k && w.log[i].journal == Some(j);
      assert w.log[..k][i] == w'.log[..k][i];
      assert w'.log[i].journal == Some(j);
    }
  }

  /** `w'` differs from `w` at most in worker `id`, the slot, the reports and the journals shown. */
  ghost predicate SameTarget(w: World, w': World, id: nat) {
    && w'.log == w.log && w'.start == w.start && w'.seed == w.seed
    && w'.rows == w.rows && w'.progress == w.progress
    && forall i | i in w'.workers && i != id :: i in w.workers && w'.workers[i] == w.workers[i]
  }

  /** With the target untouched, only what changed has to be looked at. */
  lemma SameTargetKeeps(w: World, k: nat, w': World, id: nat)
    requires Inv(w, k) && SameTarget(w, w', id)
    requires id in w'.workers ==> WorkerOk(w, k, w'.workers[id])
    requires w'.slot <= DurableEnd(w, k)
    requires forall r | r in w'.reports :: r <= DurableEnd(w, k)
    requires forall j | j in w'.shown :: Carried(w, k, j)
    ensures Inv(w', k)
  {
    CarriedKept(w, k, w', k);
    forall i | i in w'.workers ensures WorkerOk(w', k, w'.workers[i]) {
      assert WorkerOk(w, k, w'.workers[i]);
    }
  }

  /** A step that changes only a worker. */
  lemma WorkerStepKeeps(w: World, k: nat, w': World, id: nat)
    requires Inv(w, k) && SameTarget(w, w', id) && w'.slot == w.slot && w'.reports == w.reports && w'.shown == w.shown
    requires id in w'.workers ==> WorkerOk(w, k, w'.workers[id])
    ensures Inv(w', k)
  {
    SameTargetKeeps(w, k, w', id);
  }

  lemma InvWorker(w: World, k: nat, id: nat)
    requires Inv(w, k) && id in w.workers
    ensures Durable(w, k) && WorkerOk(w, k, w.workers[id])
  {
  }

  lemma CommitsIncrease(w: World, i: nat, j: nat)
    requires CommitOrder(w.log, w.start) && i <= j < |w.log|
    ensures w.log[i].commit <= w.log[j].commit && w.log[i].end <= w.log[j].end
    ensures i < j ==> w.log[i].commit < w.log[j].commit
  {
  }

  lemma StartWorkerKeeps(w: World, k: nat, id: nat, from: nat)
    requires Inv(w, k) && Enabled(w, StartWorker(id, from))
    ensures Inv(Next(w, StartWorker(id, from)), k)
  {
    hide TxOk, Carried, Fold;
    if k > 0 {
      CastRoundTrip(w.log[k - 1].commit);
      CastRoundTrip(w.log[k - 1].end);
    }
    assert k < |w.log| ==> w.log[k].commit >= w.slot;
    SameTargetKeeps(w, k, Next(w, StartWorker(id, from)), id);
  }

  lemma DeliverKeeps(w: World, k: nat, id: nat)
    requires Inv(w, k) && Enabled(w, Deliver(id))
    ensures Inv(Next(w, Deliver(id)), k)
  {
    hide Inv, WorkerOk, Durable;
    var x := w.workers[id];
    var t := w.log[x.next];
    InvWorker(w, k, id);
    if t.commit <= x.checkpoint {
      SkipKeepsWorker(w, k, x);
    } else if t.stmts.Some? {
      BeginKeepsWorker(w, k, x);
    }
    WorkerStepKeeps(w, k, Next(w, Deliver(id)), id);
  }

  lemma BeginKeepsWorker(w: World, k: nat, x: Worker)
    requires Durable(w, k) && WorkerOk(w, k, x) && x.next < |w.log| && w.log[x.next].stmts.Some?
    ensures WorkerOk(w, k, x.(phase := InTx(0, map[])))
  {
    OverlayNothing(w.rows);
    assert w.log[x.next].stmts.value[..0] == [];
  }

  lemma SkipKeepsWorker(w: World, k: nat, x: Worker)
    requires Durable(w, k) && WorkerOk(w, k, x) && x.next < |w.log| && w.log[x.next].commit <= x.checkpoint
    ensures WorkerOk(w, k, Finish(x, w.log[x.next]))
  {
    CommitsIncrease(w, if x.next < k then x.next else k - 1, if x.next < k then k - 1 else x.next);
    var t := w.log[x.next];
    assert t.journal.Some? ==> w.log[x.next].journal == Some(t.journal.value);
  }

  /** The worker after its next statement, if that statement succeeds. */
  ghost function AfterStatement(x: Worker, effect: Writes): Worker
    requires x.phase.InTx?
  {
    x.(phase := InTx(x.phase.done + 1, x.phase.writes + effect))
  }

  lemma StatementKeepsWorker(w: World, k: nat, x: Worker)
    requires Durable(w, k) && WorkerOk(w, k, x) && x.phase.InTx?
    requires x.phase.done < |w.log[x.next].stmts.value|
    requires Execute(w.log[x.next].stmts.value[x.phase.done], Overlay(w.rows, x.phase.writes)).Ok?
    ensures WorkerOk(w, k,
      AfterStatement(x, Execute(w.log[x.next].stmts.value[x.phase.done], Overlay(w.rows, x.phase.writes)).value))
  {
    var stmts := w.log[x.next].stmts.value;
    var n := x.phase.done;
    var effect := Execute(stmts[n], Overlay(w.rows, x.phase.writes));
    if x.next == k {
      assert stmts[..n + 1][..n] == stmts[..n];
      OverlayTwice(w.rows, x.phase.writes, effect.value);
    }
  }

  lemma RunStatementKeeps(w: World, k: nat, id: nat)
    requires Inv(w, k) && Enabled(w, RunStatement(id))
    ensures Inv(Next(w, RunStatement(id)), k)
  {
    hide Inv, WorkerOk, Durable, Execute, Overlay;
    var x := w.workers[id];
    InvWorker(w, k, id);
    if Execute(w.log[x.next].stmts.value[x.phase.done], Overlay(w.rows, x.phase.writes)).Ok? {
      StatementKeepsWorker(w, k, x);
    }
    WorkerStepKeeps(w, k, Next(w, RunStatement(id)), id);
  }

  /** A commit that passes the compare-and-set is the next transaction, whatever the sign of the stored position. */
  lemma CasMeansNext(w: World, k: nat, id: nat)
    requires Inv(w, k) && Enabled(w, AdvanceAndCommit(id, Succeeds))
    requires CasAdvances(w.progress, w.log[w.workers[id].next].commit)
    ensures w.workers[id].next == k
    ensures w.log[0].commit < SIGN ==> w.log[k].commit < SIGN
  {
    var x := w.workers[id];
    assert WorkerOk(w, k, x);
    CommitsIncrease(w, 0, x.next);
    if k > 0 {
      CommitsIncrease(w, 0, k - 1);
      if x.next < k {
        CommitsIncrease(w, x.next, k - 1);
      }
    }
  }

  lemma LandedIsDurable(w: World, k: nat, id: nat, fate: Fate)
    requires Inv(w, k) && Enabled(w, AdvanceAndCommit(id, fate))
    requires CasAdvances(w.progress, w.log[w.workers[id].next].commit) && fate != InDoubt(false)
    ensures w.workers[id].next == k
    ensures Durable(Next(w, AdvanceAndCommit(id, fate)), k + 1)
  {
    CasMeansNext(w, k, id);
    var x := w.workers[id];
    assert WorkerOk(w, k, x);
    assert w.log[..k + 1][..k] == w.log[..k];
    var stmts := w.log[k].stmts.value;
    assert stmts[..|stmts|] == stmts;
  }

  /** A worker that was fine with `k` durable transactions is fine with `k + 1`. */
  lemma WorkerOkLater(w: World, k: nat, w': World, x: Worker)
    requires Durable(w, k) && WorkerOk(w, k, x)
    requires w'.log == w.log && w'.start == w.start && k + 1 <= |w.log|
    ensures WorkerOk(w', k + 1, x)
  {
    CarriedKept(w, k, w', k + 1);
    EndsIncrease(w, k);
  }

  lemma EndsIncrease(w: World, k: nat)
    requires CommitOrder(w.log, w.start) && k + 1 <= |w.log|
    ensures DurableEnd(w, k) <= DurableEnd(w, k + 1) && DurableCommit(w, k) <= DurableCommit(w, k + 1)
  {
  }

  /** The committing worker itself, once its transaction has landed. */
  lemma CommitterOk(w: World, k: nat, w': World, x: Worker)
    requires Durable(w, k) && WorkerOk(w, k, x) && x.next == k < |w.log|
    requires w'.log == w.log && w'.start == w.start
    ensures WorkerOk(w', k + 1, Finish(x.(checkpoint := w.log[k].commit), w.log[k]))
  {
    WorkerOkLater(w, k, w', x);
    var j := w.log[k].journal;
    assert j.Some? ==> w'.log[k].journal == Some(j.value);
  }

  lemma LandedKeeps(w: World, k: nat, id: nat, fate: Fate)
    requires Inv(w, k) && Enabled(w, AdvanceAndCommit(id, fate))
    requires CasAdvances(w.progress, w.log[w.workers[id].next].commit) && fate != InDoubt(false)
    ensures Inv(Next(w, AdvanceAndCommit(id, fate)), k + 1)
  {
    var w' := Next(w, AdvanceAndCommit(id, fate));
    LandedIsDurable(w, k, id, fate);
    LandedElsewhere(w, k, id, fate);
    forall i | i in w'.workers ensures WorkerOk(w', k + 1, w'.workers[i]) {
      LandedWorkerOk(w, k, id, fate, i);
    }
  }

  lemma LandedElsewhere(w: World, k: nat, id: nat, fate: Fate)
    requires Inv(w, k) && Enabled(w, AdvanceAndCommit(id, fate)) && k < |w.log|
    ensures var w' := Next(w, AdvanceAndCommit(id, fate));
      && w'.slot <= DurableEnd(w', k + 1)
      && (forall r | r in w'.reports :: r <= DurableEnd(w', k + 1))
      && (forall j | j in w'.shown :: Carried(w', k + 1, j))
  {
    CarriedKept(w, k, Next(w, AdvanceAndCommit(id, fate)), k + 1);
    EndsIncrease(w, k);
  }

  lemma LandedWorkerOk(w: World, k: nat, id: nat, fate: Fate, i: nat)
    requires Inv(w, k) && Enabled(w, AdvanceAndCommit(id, fate)) && w.workers[id].next == k
    requires CasAdvances(w.progress, w.log[w.workers[id].next].commit) && fate != InDoubt(false)
    requires i in Next(w, AdvanceAndCommit(id, fate)).workers
    ensures WorkerOk(Next(w, AdvanceAndCommit(id, fate)), k + 1, Next(w, AdvanceAndCommit(id, fate)).workers[i])
  {
    var w' := Next(w, AdvanceAndCommit(id, fate));
    assert WorkerOk(w, k, w.workers[i]);
    if i == id {
      CommitterOk(w, k, w', w.workers[id]);
    } else {
      WorkerOkLater(w, k, w', w.workers[i]);
    }
  }

  lemma AdvanceKeeps(w: World, k: nat, id: nat, fate: Fate) returns (k': nat)
    requires Inv(w, k) && Enabled(w, AdvanceAndCommit(id, fate))
    ensures k <= k' && Inv(Next(w, AdvanceAndCommit(id, fate)), k')
  {
    hide Inv, WorkerOk, Durable;
    if !CasAdvances(w.progress, w.log[w.workers[id].next].commit) || fate == InDoubt(false) {
      k' := k;
      WorkerStepKeeps(w, k, Next(w, AdvanceAndCommit(id, fate)), id);
    } else {
      k' := k + 1;
      LandedKeeps(w, k, id, fate);
    }
  }

  lemma ReportKeeps(w: World, k: nat, id: nat)
    requires Inv(w, k) && Enabled(w, Report(id))
    ensures Inv(Next(w, Report(id)), k)
  {
    hide TxOk, Carried, Fold;
    assert WorkerOk(w, k, w.workers[id]);
    SameTargetKeeps(w, k, Next(w, Report(id)), id);
  }

  lemma KeepAliveKeeps(w: World, k: nat, id: nat)
    requires Inv(w, k) && Enabled(w, KeepAlive(id))
    ensures Inv(Next(w, KeepAlive(id)), k)
  {
    hide TxOk, Carried, Fold;
    assert WorkerOk(w, k, w.workers[id]);
    SameTargetKeeps(w, k, Next(w, KeepAlive(id)), id);
  }

  lemma SlotAdvanceKeeps(w: World, k: nat, lsn: U64)
    requires Inv(w, k) && Enabled(w, SlotAdvance(lsn))
    ensures Inv(Next(w, SlotAdvance(lsn)), k)
  {
    assert 0 in w.workers ==> WorkerOk(w, k, w.workers[0]);
    SameTargetKeeps(w, k, Next(w, SlotAdvance(lsn)), 0);
  }

  /** Every action keeps the invariant, and the durable prefix never shrinks. */
  lemma StepKeeps(w: World, k: nat, a: Action) returns (k': nat)
    requires Inv(w, k) && Enabled(w, a)
    ensures k <= k' && Inv(Next(w, a), k')
  {
    k' := k;
    match a
    case SourceCommit(t) => SourceCommitKeeps(w, k, t);
    case StartWorker(id, from) => StartWorkerKeeps(w, k, id, from);
    case Deliver(id) => DeliverKeeps(w, k, id);
    case RunStatement(id) => RunStatementKeeps(w, k, id);
    case AdvanceAndCommit(id, fate) => k' := AdvanceKeeps(w, k, id, fate);
    case Report(id) => ReportKeeps(w, k, id);
    case KeepAlive(id) => KeepAliveKeeps(w, k, id);
    case SlotAdvance(lsn) => SlotAdvanceKeeps(w, k, lsn);
    case Crash(id) => SameTargetKeeps(w, k, Next(w, a), id);
  }

  // ------------------------------------------------------------ main results

  /** The state after any run satisfies the invariant, and the durable prefix grew along the way. */
  lemma {:induction false} RunKeeps(run: seq<World>, actions: seq<Action>) returns (k: nat)
    requires IsRun(run, actions)
    ensures Inv(run[|actions|], k)
  {
    if actions == [] {
      InitInv(run[0]);
      k := 0;
    } else {
      var n := |actions| - 1;
      var before := RunKeeps(run[..n + 1], actions[..n]);
      k := StepKeeps(run[n], before, actions[n]);
    }
  }

  /** The durable progress as a position; 0 before the first commit. */
  ghost function ProgressLsn(p: Option<Progress>): int
    requires ProgressStored(p)
  {
    if p.None? then 0 else AsU64OfI64(p.value.lsn)
  }

  lemma DurableMeans(w: World, k: nat)
    requires Durable(w, k)
    ensures ProgressStored(w.progress)
    ensures ProgressLsn(w.progress) == DurableCommit(w, k)
    ensures UpTo(w.log, ProgressLsn(w.progress)) == w.log[..k]
  {
    if k > 0 { CastRoundTrip(w.log[k - 1].commit); }
    var lsn := DurableCommit(w, k);
    forall i | 0 <= i < k ensures w.log[i].commit <= lsn {
      CommitsIncrease(w, i, k - 1);
    }
    forall i | k <= i < |w.log| ensures w.log[i].commit > lsn {
      if k > 0 { CommitsIncrease(w, k - 1, i); }
    }
    UpToIsPrefix(w.log, k, lsn);
  }

  /**
  Exactly once: after every run the target's rows are the seed with exactly the
  transactions at or below the durable progress row applied, each once and in order.
  */
  lemma ExactlyOnceAlways(run: seq<World>, actions: seq<Action>)
    requires IsRun(run, actions)
    ensures var w := run[|actions|];
      && ProgressStored(w.progress)
      && Fold(w.seed, UpTo(w.log, ProgressLsn(w.progress))) == Ok(w.rows)
  {
    var k := RunKeeps(run, actions);
    DurableMeans(run[|actions|], k);
  }

  /** The progress row never moves back, in any step of any run. */
  lemma ProgressNeverFalls(run: seq<World>, actions: seq<Action>, a: Action)
    requires IsRun(run, actions) && Enabled(run[|actions|], a)
    ensures var w, w' := run[|actions|], Next(run[|actions|], a);
      && ProgressStored(w.progress) && ProgressStored(w'.progress)
      && ProgressLsn(w.progress) <= ProgressLsn(w'.progress)
  {
    var w := run[|actions|];
    var w' := Next(w, a);
    var k := RunKeeps(run, actions);
    var k' := StepKeeps(w, k, a);
    DurableMeans(w, k);
    DurableMeans(w', k');
    LogOnlyGrows(w, a);
    if k > 0 {
      assert w'.log[k - 1] == w.log[k - 1];
      CommitsIncrease(w', k - 1, k' - 1);
    }
  }

  lemma LogOnlyGrows(w: World, a: Action)
    requires Enabled(w, a)
    ensures w.log <= Next(w, a).log
  {
  }

  /** The end of the last transaction at or below the progress row, or the slot's consistent point. */
  ghost function LastDurableEnd(w: World): U64
    requires ProgressStored(w.progress)
  {
    var done := UpTo(w.log, ProgressLsn(w.progress));
    if done == [] then w.start else done[|done| - 1].end
  }

  /**
  Slot safety: no flush position ever sent, and no slot position, passes the end
  of the last durable transaction, so the server still sends every transaction
  that is not durable. One client's reports never decrease.
  */
  lemma SlotNeverPassesDurable(run: seq<World>, actions: seq<Action>)
    requires IsRun(run, actions)
    ensures var w := run[|actions|];
      && ProgressStored(w.progress)
      && (forall r | r in w.reports + {w.slot} :: r <= LastDurableEnd(w))
      && (forall i | 0 <= i < |w.log| && w.log[i].commit > ProgressLsn(w.progress) :: w.slot <= w.log[i].commit)
      && (forall id | id in w.workers :: NonDecreasing(w.workers[id].reported))
  {
    var w := run[|actions|];
    var k := RunKeeps(run, actions);
    DurableMeans(w, k);
    assert LastDurableEnd(w) == DurableEnd(w, k);
    forall i | 0 <= i < |w.log| && w.log[i].commit > ProgressLsn(w.progress)
      ensures DurableEnd(w, k) <= w.log[i].commit
    {
      UndurableBeyond(w, k, i);
    }
    forall id | id in w.workers ensures NonDecreasing(w.workers[id].reported) {
      assert WorkerOk(w, k, w.workers[id]);
    }
  }

  ghost predicate NonDecreasing(s: seq<U64>) {
    forall i, j | 0 <= i < j < |s| :: s[i] <= s[j]
  }

  lemma UndurableBeyond(w: World, k: nat, i: nat)
    requires Durable(w, k) && i < |w.log| && w.log[i].commit > DurableCommit(w, k)
    ensures DurableEnd(w, k) <= w.log[i].commit
  {
    if k > 0 {
      CommitsIncrease(w, if i < k then i else k - 1, if i < k then k - 1 else i);
    }
  }

  /**
  The barrier: once a worker shows journal position `j`, the transaction carrying
  it and every transaction committed before that one are durable.
  */
  lemma JournalBarrier(run: seq<World>, actions: seq<Action>, j: U64, i: nat)
    requires IsRun(run, actions)
    requires j in run[|actions|].shown
    requires i < |run[|actions|].log| && run[|actions|].log[i].journal == Some(j)
    ensures var w := run[|actions|];
      && ProgressStored(w.progress)
      && forall e | 0 <= e <= i :: w.log[e].commit <= ProgressLsn(w.progress)
  {
    var w := run[|actions|];
    var k := RunKeeps(run, actions);
    DurableMeans(w, k);
    assert Carried(w, k, j);
    var c :| 0 <= c < k && w.log[c].journal == Some(j);
    assert c == i;
    forall e | 0 <= e <= i ensures w.log[e].commit <= ProgressLsn(w.progress) {
      CommitsIncrease(w, e, k - 1);
    }
  }

  // ------------------------------------------------------- a worker left behind

  const ONE_COLUMN: Relation := Relation(TableName([], []), 1, IDENTITY_DEFAULT, [0])
  const ONE_KEY: seq<Value> := [Text([])]
  const DELETES_ONE: Txn := Txn(1, 2, Some([Delete(ONE_COLUMN, ONE_KEY)]), None)
  const OVERTAKEN: seq<Action> :=
    [SourceCommit(DELETES_ONE), StartWorker(0, 0), StartWorker(1, 0), Deliver(0), Deliver(1), RunStatement(0), AdvanceAndCommit(0, Succeeds)]

  const ONE_ROW: RowId := RowId(ONE_COLUMN.table, ONE_KEY)
  const WAITING: Worker := Worker(0, 0, 0, 0, [], Idle)
  const OPEN: Worker := WAITING.(phase := InTx(0, map[]))
  const RAN: Worker := WAITING.(phase := InTx(1, map[ONE_ROW := None]))
  const DONE: Worker := Worker(1, 1, 2, 0, [], Committed(None))

  function OneRow(log: seq<Txn>, workers: map<nat, Worker>): World {
    World(log, 0, map[ONE_ROW := ONE_KEY], map[ONE_ROW := ONE_KEY], None, 0, {}, {}, workers)
  }

  function Overtaking(): seq<World> {
    var log := [DELETES_ONE];
    [ OneRow([], map[]), OneRow(log, map[]), OneRow(log, map[0 := WAITING]), OneRow(log, map[0 := WAITING, 1 := WAITING]),
      OneRow(log, map[0 := OPEN, 1 := WAITING]), OneRow(log, map[0 := OPEN, 1 := OPEN]), OneRow(log, map[0 := RAN, 1 := OPEN]),
      OneRow(log, map[0 := DONE, 1 := OPEN]).(rows := map[], progress := Some(Progress(1, 2))) ]
  }

  ghost predicate Leads(w: World, a: Action, w': World) {
    Enabled(w, a) && w' == Next(w, a)
  }

  lemma OvertakingStarts()
    ensures Init(Overtaking()[0])
    ensures forall i | 0 <= i < 3 :: Leads(Overtaking()[i], OVERTAKEN[i], Overtaking()[i + 1])
  {
    assert CommitOrder([] + [DELETES_ONE], 0);
  }

  lemma OvertakingDelivers()
    ensures forall i | 3 <= i < 5 :: Leads(Overtaking()[i], OVERTAKEN[i], Overtaking()[i + 1])
  {
    var ws := Overtaking();
    assert With(ws[3], 0, OPEN) == ws[4] && With(ws[4], 1, OPEN) == ws[5];
  }

  lemma DeleteRuns(rows: Db)
    requires rows == map[ONE_ROW := ONE_KEY]
    ensures Execute(Delete(ONE_COLUMN, ONE_KEY), Overlay(rows, map[])) == Ok(map[ONE_ROW := None])
    ensures Overlay(rows, map[ONE_ROW := None]) == map[]
    ensures Execute(Delete(ONE_COLUMN, ONE_KEY), Overlay(map[], map[])) == Err(RowCountMismatch(0))
  {
    OverlayNothing(rows);
    OverlayNothing(map[]);
  }

  /** The only statement of a transaction, run. */
  lemma RunsOnly(w: World, id: nat, stmt: Statement, writes: Writes)
    requires id in w.workers && w.workers[id].phase == InTx(0, map[]) && w.workers[id].next < |w.log|
    requires w.log[w.workers[id].next].stmts == Some([stmt]) && Execute(stmt, Overlay(w.rows, map[])) == Ok(writes)
    ensures Leads(w, RunStatement(id), With(w, id, w.workers[id].(phase := InTx(1, writes))))
  {
    hide Execute, Overlay;
    var none: Writes := map[];
    assert none + writes == writes;
  }

  lemma OvertakingRuns()
    ensures Leads(Overtaking()[5], OVERTAKEN[5], Overtaking()[6])
  {
    hide Execute, Overlay, Leads;
    var ws := Overtaking();
    DeleteRuns(ws[5].rows);
    RunsOnly(ws[5], 0, Delete(ONE_COLUMN, ONE_KEY), map[ONE_ROW := None]);
    assert With(ws[5], 0, RAN) == ws[6];
  }

  lemma OvertakingCommits()
    ensures Leads(Overtaking()[6], OVERTAKEN[6], Overtaking()[7])
  {
    var ws := Overtaking();
    DeleteRuns(ws[6].rows);
    hide Execute, Overlay;
    assert With(ws[6].(rows := map[], progress := Some(Progress(1, 2))), 0, DONE) == ws[7];
  }

  /**
  What the stream lease is for: without it, a worker that another one overtook while its
  transaction was open meets the other's rows. Here both deliver the same delete, one commits,
  and the other's delete finds no row on a target that has not diverged.
  */
  lemma OvertakenWorkerTrips() returns (run: seq<World>)
    ensures IsRun(run, OVERTAKEN) && Enabled(run[|OVERTAKEN|], RunStatement(1))
    ensures var w := run[|OVERTAKEN|];
      && w.workers[1].next == 0 && w.progress == Some(Progress(AsI64(w.log[0].commit), AsI64(w.log[0].end)))
      && Execute(w.log[0].stmts.value[w.workers[1].phase.done], Overlay(w.rows, w.workers[1].phase.writes)) == Err(RowCountMismatch(0))
  {
    hide Execute, Overlay, Next;
    run := Overtaking();
    OvertakingStarts();
    OvertakingDelivers();
    OvertakingRuns();
    OvertakingCommits();
    DeleteRuns(map[ONE_ROW := ONE_KEY]);
    forall i | 0 <= i < |OVERTAKEN| ensures Enabled(run[i], OVERTAKEN[i]) && run[i + 1] == Next(run[i], OVERTAKEN[i]) {
      assert Leads(run[i], OVERTAKEN[i], run[i + 1]);
    }
  }
}
