/**
The write fence as an admission barrier: the agent's steps interleaved with PostgreSQL
backends that start, are admitted, write, prepare and exit
(`crates/pgshard-agent/src/pg.rs`; the trust placed in `pgshard_` sessions is that of
`crates/pgshard-agent/src/instance.rs`).
*/
module Fence {
  type Pid = nat

  /**
  A client backend of the database. It is visible without a database name until it
  publishes, and with it afterwards.

  Starting: not yet past the admission check. Passed: past it, settings not loaded.
  Loaded: has taken the database's default. Admitted: published, with its application name.
  */
  datatype Backend =
    | Starting
    | Passed
    | Loaded(readOnly: bool)
    | Admitted(readOnly: bool, spared: bool)
  {
    predicate PastCheck() {
      !Starting?
    }

    /** The drain's query selects it: still starting, or of the database and not spared. */
    predicate Selected() {
      !(Admitted? && spared)
    }

    predicate CanWrite() {
      Admitted? && !readOnly && !spared
    }
  }

  /** Where the fencing agent is. A scan reads one backend at a time. */
  datatype Agent =
    | Idle
    | Closed
    | CheckedOnce
    | Scanning(begun: set<Pid>, done: set<Pid>, found: set<Pid>)
    | Terminating(found: set<Pid>)
    | Drained
    | CheckedTwice
    | ReadOnly
    | Fenced
    | Failed

  datatype World = World(
    backends: map<Pid, Backend>,
    next: Pid,
    prepared: map<nat, bool>,  // prepared transactions, and whether each has written
    signalled: set<Pid>,       // backends the agent has told to terminate
    allow: bool,
    defaultReadOnly: bool,
    agent: Agent)

  datatype Action =
    // PostgreSQL
    | Connect
    | PassCheck(pid: Pid)
    | Refuse(pid: Pid)
    | LoadSettings(pid: Pid)
    | Publish(pid: Pid, spared: bool)
    | Exit(pid: Pid)
    | Write(pid: Pid)
    | Prepare(pid: Pid, txn: nat)
    | Finish(txn: nat)
    // the agent
    | CloseAdmissions
    | CheckPrepared
    | BeginScan
    | ScanOne(pid: Pid)
    | EndScan
    | Terminate(pid: Pid)
    | SetReadOnly
    | OpenAdmissions
    | GiveUp

  ghost predicate Enabled(w: World, a: Action) {
    match a
    case Connect => true
    case PassCheck(p) => p in w.backends && w.backends[p].Starting? && w.allow
    case Refuse(p) => p in w.backends && w.backends[p].Starting? && !w.allow
    case LoadSettings(p) => p in w.backends && w.backends[p].Passed?
    case Publish(p, _) => p in w.backends && w.backends[p].Loaded?
    case Exit(p) => p in w.backends
    // Trusted components neither ask for a read-write transaction nor claim the spared prefix to write.
    case Write(p) => p in w.backends && w.backends[p].CanWrite()
    // A read-only session may prepare too: a transaction that has written nothing.
    case Prepare(p, t) => p in w.backends && w.backends[p].Admitted? && !w.backends[p].spared && t !in w.prepared
    case Finish(t) => t in w.prepared
    case CloseAdmissions => w.agent.Idle?
    case CheckPrepared => w.agent.Closed? || w.agent.Drained?
    case BeginScan => w.agent.CheckedOnce? || w.agent.Terminating?
    case ScanOne(p) => w.agent.Scanning?
    case EndScan => w.agent.Scanning? && forall p | p in w.agent.begun && p in w.backends :: p in w.agent.done
    case Terminate(p) => w.agent.Terminating? && p in w.agent.found
    case SetReadOnly => w.agent.CheckedTwice?
    case OpenAdmissions => w.agent.ReadOnly?
    case GiveUp => !w.agent.Idle? && !w.agent.Fenced?
  }

  function Next(w: World, a: Action): World
    requires Enabled(w, a)
  {
    match a
    case Connect => w.(backends := w.backends[w.next := Starting], next := w.next + 1)
    case PassCheck(p) => w.(backends := w.backends[p := Passed])
    case Refuse(p) => w.(backends := w.backends - {p})
    case LoadSettings(p) => w.(backends := w.backends[p := Loaded(w.defaultReadOnly)])
    case Publish(p, spared) => w.(backends := w.backends[p := Admitted(w.backends[p].readOnly, spared)])
    case Exit(p) => w.(backends := w.backends - {p})
    case Write(p) => w
    case Prepare(p, t) => w.(prepared := w.prepared[t := w.backends[p].CanWrite()])
    case Finish(t) => w.(prepared := w.prepared - {t})
    case CloseAdmissions => w.(allow := false, agent := Closed)
    case CheckPrepared =>
      if w.prepared != map[] then w.(agent := Failed)
      else w.(agent := if w.agent.Closed? then CheckedOnce else CheckedTwice)
    case BeginScan => w.(agent := Scanning(w.backends.Keys, {}, {}))
    case ScanOne(p) =>
      var found := if p in w.backends && w.backends[p].Selected() then w.agent.found + {p} else w.agent.found;
      w.(agent := Scanning(w.agent.begun, w.agent.done + {p}, found))
    case EndScan => w.(agent := if w.agent.found == {} then Drained else Terminating(w.agent.found))
    // The backend exits when it gets to it, if it is still there.
    case Terminate(p) => w.(signalled := w.signalled + {p})
    case SetReadOnly => w.(defaultReadOnly := true, agent := ReadOnly)
    case OpenAdmissions => w.(allow := true, agent := Fenced)
    case GiveUp => w.(agent := Failed)
  }

  /** Any number of sessions, read-write by default, before the fence begins. */
  ghost predicate Init(w: World) {
    && w.agent.Idle? && w.signalled == {}
    && forall p | p in w.backends :: p < w.next
  }

  ghost predicate IsRun(run: seq<World>, actions: seq<Action>) {
    && |run| == |actions| + 1
    && Init(run[0])
    && forall i {:trigger actions[i]} | 0 <= i < |actions| :: Enabled(run[i], actions[i]) && run[i + 1] == Next(run[i], actions[i])
  }

  // -------------------------------------------------------------- invariant

  /** While admissions are closed, everyone past the check was there when the scan began, and a scanned one was found. */
  ghost predicate ScanOk(w: World)
    requires w.agent.Scanning?
  {
    && (forall p | p in w.backends && w.backends[p].PastCheck() :: p in w.agent.begun)
    && (forall p | p in w.backends && w.backends[p].PastCheck() && w.backends[p].Selected() && p in w.agent.done :: p in w.agent.found)
  }

  /** No session that could write is left, or can come. */
  ghost predicate Quiet(w: World) {
    forall p | p in w.backends && w.backends[p].PastCheck() :: !w.backends[p].Selected()
  }

  /** No prepared transaction has written. */
  ghost predicate NoneWrote(w: World) {
    forall t | t in w.prepared :: !w.prepared[t]
  }

  /** Every session past the check is spared, read-only, or about to load a read-only default. */
  ghost predicate Barred(w: World) {
    && w.defaultReadOnly
    && forall p | p in w.backends ::
         match w.backends[p]
         case Loaded(readOnly) => readOnly
         case Admitted(readOnly, spared) => readOnly || spared
         case _ => true
  }

  ghost predicate Inv(w: World) {
    && (forall p | p in w.backends :: p < w.next)
    && match w.agent
       case Closed => !w.allow
       case CheckedOnce => !w.allow
       case Scanning(begun, _, _) => !w.allow && ScanOk(w) && (forall p | p in begun :: p < w.next)
       case Terminating(_) => !w.allow
       case Drained => !w.allow && Quiet(w)
       case CheckedTwice => !w.allow && Quiet(w) && w.prepared == map[]
       case ReadOnly => !w.allow && Quiet(w) && w.prepared == map[] && w.defaultReadOnly
       case Fenced => Barred(w) && NoneWrote(w)
       case _ => true
  }

  lemma StepKeeps(w: World, a: Action)
    requires Inv(w) && Enabled(w, a)
    ensures Inv(Next(w, a))
  {
  }

  lemma {:induction false} RunKeeps(run: seq<World>, actions: seq<Action>, n: nat)
    requires IsRun(run, actions) && n <= |actions|
    ensures Inv(run[n])
  {
    if n > 0 {
      RunKeeps(run, actions, n - 1);
      assert run[n] == Next(run[n - 1], actions[n - 1]);
      StepKeeps(run[n - 1], actions[n - 1]);
    }
  }

  lemma {:induction false} StaysFenced(run: seq<World>, actions: seq<Action>, n: nat, m: nat)
    requires IsRun(run, actions) && n <= m <= |actions| && run[n].agent.Fenced?
    ensures run[m].agent.Fenced?
    decreases m
  {
    if n < m {
      StaysFenced(run, actions, n, m - 1);
      assert run[m] == Next(run[m - 1], actions[m - 1]);
    }
  }

  /**
  The fence is a barrier: once it reports success, at every later point of every run no
  session outside the spared prefix is read-write, no prepared transaction has written, and no
  step writes, prepares what was written, or finishes such a transaction.
  */
  lemma FenceIsABarrier(run: seq<World>, actions: seq<Action>, n: nat, m: nat)
    requires IsRun(run, actions) && n <= m <= |actions| && run[n].agent.Fenced?
    ensures forall p | p in run[m].backends && run[m].backends[p].Admitted? && !run[m].backends[p].spared :: run[m].backends[p].readOnly
    ensures forall t | t in run[m].prepared :: !run[m].prepared[t]
    ensures m < |actions| ==> !actions[m].Write?
    ensures m < |actions| && actions[m].Prepare? ==> run[m].backends[actions[m].pid].readOnly
  {
    RunKeeps(run, actions, m);
    StaysFenced(run, actions, n, m);
    if m < |actions| {
      assert Enabled(run[m], actions[m]);
    }
  }

  /**
  When the fence succeeds, at that moment no prepared transaction exists at all, and every
  session past the admission check is a spared one.
  */
  lemma FencedWithNonePrepared(run: seq<World>, actions: seq<Action>, n: nat)
    requires IsRun(run, actions) && n < |actions| && !run[n].agent.Fenced? && run[n + 1].agent.Fenced?
    ensures run[n + 1].prepared == map[]
    ensures var w := run[n + 1];
      forall p | p in w.backends && w.backends[p].PastCheck() :: w.backends[p].Admitted? && w.backends[p].spared
  {
    RunKeeps(run, actions, n);
    assert run[n + 1] == Next(run[n], actions[n]);
  }

  /** A session that had been admitted read-write before the fence does not survive it. */
  lemma OldWritersAreGone(run: seq<World>, actions: seq<Action>, i: nat, n: nat, pid: Pid)
    requires IsRun(run, actions) && i <= n <= |actions| && run[n].agent.Fenced?
    requires pid in run[i].backends && run[i].backends[pid].CanWrite()
    ensures pid !in run[n].backends
  {
    RunKeeps(run, actions, n);
    if pid in run[n].backends {
      RoleIsFixed(run, actions, i, n, pid);
    }
  }

  /** An admitted backend keeps its default and its name for as long as it lives; pids are not reused. */
  lemma {:induction false} RoleIsFixed(run: seq<World>, actions: seq<Action>, i: nat, n: nat, pid: Pid)
    requires IsRun(run, actions) && i <= n <= |actions|
    requires pid in run[i].backends && run[i].backends[pid].Admitted? && pid in run[n].backends
    ensures run[n].backends[pid] == run[i].backends[pid]
    decreases n
  {
    if i < n {
      RunKeeps(run, actions, n - 1);
      assert run[n] == Next(run[n - 1], actions[n - 1]);
      PidsOnlyGrow(run, actions, i, n - 1);
      RunKeeps(run, actions, i);
      assert pid in run[n - 1].backends;
      RoleIsFixed(run, actions, i, n - 1, pid);
    }
  }

  lemma {:induction false} PidsOnlyGrow(run: seq<World>, actions: seq<Action>, i: nat, n: nat)
    requires IsRun(run, actions) && i <= n <= |actions|
    ensures run[i].next <= run[n].next
    decreases n
  {
    if i < n {
      PidsOnlyGrow(run, actions, i, n - 1);
      assert run[n] == Next(run[n - 1], actions[n - 1]);
    }
  }

  // ------------------------------------------------ whom the drain may reach

  ghost function Found(a: Agent): set<Pid> {
    match a
    case Scanning(_, _, found) => found
    case Terminating(found) => found
    case _ => {}
  }

  /** A session of the database with the spared prefix, whom the drain has not selected. */
  ghost predicate Spared(w: World, pid: Pid) {
    && pid in w.backends && w.backends[pid].Admitted? && w.backends[pid].spared
    && pid !in Found(w.agent) && pid !in w.signalled
  }

  /** It is as it was, or it has left and its pid is not used again. */
  ghost predicate Untouched(w: World, pid: Pid) {
    && pid < w.next && pid !in Found(w.agent) && pid !in w.signalled
    && (pid in w.backends ==> w.backends[pid].Admitted? && w.backends[pid].spared)
  }

  /**
  The reshard's own readers survive the fence: in every run, a session that was once admitted
  with the spared prefix is from then on never selected and never told to terminate, and leaves
  only by itself.
  */
  lemma {:induction false} SparedIsUntouched(run: seq<World>, actions: seq<Action>, i: nat, n: nat, pid: Pid)
    requires IsRun(run, actions) && i <= n <= |actions| && Spared(run[i], pid)
    ensures Untouched(run[n], pid)
    ensures n < |actions| ==> actions[n] != Terminate(pid)
    ensures i < n && pid in run[n - 1].backends && pid !in run[n].backends ==> actions[n - 1] == Exit(pid)
    decreases n
  {
    hide Enabled, Next, Inv;
    if i == n {
      RunKeeps(run, actions, i);
      SparedStart(run[i], pid);
    } else {
      SparedIsUntouched(run, actions, i, n - 1, pid);
      assert Enabled(run[n - 1], actions[n - 1]) && run[n] == Next(run[n - 1], actions[n - 1]);
      UntouchedStep(run[n - 1], actions[n - 1], pid);
    }
    if n < |actions| {
      assert Enabled(run[n], actions[n]);
      UntouchedStep(run[n], actions[n], pid);
    }
  }

  lemma SparedStart(w: World, pid: Pid)
    requires Inv(w) && Spared(w, pid)
    ensures Untouched(w, pid)
  {
  }

  lemma UntouchedStep(w: World, a: Action, pid: Pid)
    requires Enabled(w, a) && Untouched(w, pid)
    ensures Untouched(Next(w, a), pid) && a != Terminate(pid)
    ensures pid in w.backends && pid !in Next(w, a).backends ==> a == Exit(pid)
  {
  }

  /**
  And only sessions the fence is for are told to terminate: whoever is signalled was, when the
  scan read it, still starting, or a session of the database without the spared prefix.
  */
  lemma {:induction false} SignalledWasScanned(run: seq<World>, actions: seq<Action>, n: nat, pid: Pid) returns (m: nat)
    requires IsRun(run, actions) && n <= |actions| && (pid in run[n].signalled || pid in Found(run[n].agent))
    ensures m < n && actions[m] == ScanOne(pid) && pid in run[m].backends
    ensures run[m].backends[pid].Admitted? ==> !run[m].backends[pid].spared
  {
    assert n > 0;
    var w, a := run[n - 1], actions[n - 1];
    assert Enabled(w, a) && run[n] == Next(w, a);
    if pid in w.signalled || pid in Found(w.agent) {
      m := SignalledWasScanned(run, actions, n - 1, pid);
    } else {
      m := n - 1;
    }
  }

  /** A prepared transaction that either check sees ends the attempt: it never becomes a fence. */
  lemma {:induction false} PreparedIsRefused(run: seq<World>, actions: seq<Action>, i: nat, n: nat)
    requires IsRun(run, actions) && i < n <= |actions| && actions[i].CheckPrepared? && run[i].prepared != map[]
    ensures run[n].agent.Failed?
    decreases n
  {
    if n > i + 1 { PreparedIsRefused(run, actions, i, n - 1); }
    assert Enabled(run[n - 1], actions[n - 1]) && run[n] == Next(run[n - 1], actions[n - 1]);
  }

  // --------------------------------------------------------- it can succeed

  /** A step of the fencing agent itself, or a backend it told to terminate that exits. */
  ghost predicate Ours(w: World, a: Action) {
    match a
    case Exit(p) => p in w.signalled
    case CloseAdmissions => true
    case CheckPrepared => true
    case BeginScan => true
    case ScanOne(_) => true
    case EndScan => true
    case Terminate(_) => true
    case SetReadOnly => true
    case OpenAdmissions => true
    case _ => false
  }

  /** The agent and the backends it stops, undisturbed. */
  ghost predicate Driven(ws: seq<World>, actions: seq<Action>) {
    && |ws| == |actions| + 1
    && forall i {:trigger actions[i]} | 0 <= i < |actions| ::
         Enabled(ws[i], actions[i]) && Ours(ws[i], actions[i]) && ws[i + 1] == Next(ws[i], actions[i])
  }

  lemma Extend(ws: seq<World>, actions: seq<Action>, a: Action) returns (ws': seq<World>, actions': seq<Action>)
    requires Driven(ws, actions) && Enabled(ws[|actions|], a) && Ours(ws[|actions|], a)
    ensures Driven(ws', actions') && |ws'| == |actions'| + 1 && ws'[0] == ws[0] && ws'[|actions'|] == Next(ws[|actions|], a)
  {
    hide Next, Enabled, Ours;
    ws', actions' := ws + [Next(ws[|actions|], a)], actions + [a];
    forall i | 0 <= i < |actions'|
      ensures Enabled(ws'[i], actions'[i]) && Ours(ws'[i], actions'[i]) && ws'[i + 1] == Next(ws'[i], actions'[i])
    {
      if i < |actions| { assert actions'[i] == actions[i]; }
    }
  }

  /** The sessions the drain is for. */
  ghost function Unspared(w: World): set<Pid> {
    set p | p in w.backends && !(w.backends[p].Admitted? && w.backends[p].spared)
  }

  lemma SameUnspared(w: World, w': World)
    requires w'.backends == w.backends
    ensures Unspared(w') == Unspared(w)
  {
  }

  lemma OnlyStart(w: World)
    ensures Driven([w], [])
  {
  }

  /** The rest of a scan, one backend after the other. */
  lemma {:induction false} ScanAll(ws: seq<World>, actions: seq<Action>, todo: set<Pid>) returns (ws': seq<World>, actions': seq<Action>)
    requires Driven(ws, actions)
    requires var w := ws[|actions|];
      w.agent.Scanning? && todo == w.backends.Keys - w.agent.done && w.agent.found == Unspared(w) - todo
    ensures Driven(ws', actions') && ws'[0] == ws[0]
    ensures var w, w' := ws[|actions|], ws'[|actions'|];
      && w' == w.(agent := w'.agent) && w'.agent.Scanning? && w'.agent.begun == w.agent.begun
      && w'.agent.found == Unspared(w) && w.backends.Keys <= w'.agent.done
    decreases todo
  {
    var w := ws[|actions|];
    if todo == {} {
      ws', actions' := ws, actions;
      assert w.agent.found == Unspared(w);
      assert forall p | p in w.backends.Keys :: p !in todo;
    } else {
      var p :| p in todo;
      var ws1, actions1 := Extend(ws, actions, ScanOne(p));
      var w1 := ws1[|actions1|];
      assert w1.agent.found == Unspared(w1) - (todo - {p});
      assert w1.backends.Keys - w1.agent.done == todo - {p};
      ws', actions' := ScanAll(ws1, actions1, todo - {p});
    }
  }

  /** One whole query of the drain. */
  lemma ScanOnce(ws: seq<World>, actions: seq<Action>) returns (ws': seq<World>, actions': seq<Action>)
    requires Driven(ws, actions) && (ws[|actions|].agent.CheckedOnce? || ws[|actions|].agent.Terminating?)
    ensures Driven(ws', actions') && ws'[0] == ws[0]
    ensures var w := ws[|actions|];
      ws'[|actions'|] == w.(agent := if Unspared(w) == {} then Drained else Terminating(Unspared(w)))
  {
    ws', actions' := Extend(ws, actions, BeginScan);
    ws', actions' := ScanAll(ws', actions', ws'[|actions'|].backends.Keys);
    ws', actions' := Extend(ws', actions', EndScan);
  }

  /** Whoever is left of the found is told to terminate, and exits. */
  lemma {:induction false} StopAll(ws: seq<World>, actions: seq<Action>, todo: set<Pid>) returns (ws': seq<World>, actions': seq<Action>)
    requires Driven(ws, actions)
    requires var w := ws[|actions|]; w.agent.Terminating? && todo == Unspared(w) && todo <= w.agent.found
    ensures Driven(ws', actions') && ws'[0] == ws[0]
    ensures var w, w' := ws[|actions|], ws'[|actions'|];
      w' == w.(backends := w.backends - todo, signalled := w.signalled + todo)
    decreases todo
  {
    var w := ws[|actions|];
    if todo == {} {
      ws', actions' := ws, actions;
      assert w.backends - todo == w.backends && w.signalled + todo == w.signalled;
    } else {
      var p :| p in todo;
      ws', actions' := Extend(ws, actions, Terminate(p));
      ws', actions' := Extend(ws', actions', Exit(p));
      var w1 := ws'[|actions'|];
      assert Unspared(w1) == todo - {p};
      ws', actions' := StopAll(ws', actions', todo - {p});
      assert w1.backends - (todo - {p}) == w.backends - todo;
      assert w1.signalled + (todo - {p}) == w.signalled + todo;
    }
  }

  /** From closed admissions to an empty scan. */
  lemma DrainEnds(ws: seq<World>, actions: seq<Action>) returns (ws': seq<World>, actions': seq<Action>)
    requires Driven(ws, actions) && ws[|actions|].agent.CheckedOnce?
    ensures Driven(ws', actions') && |ws'| == |actions'| + 1 && ws'[0] == ws[0]
    ensures var w := ws[|actions|];
      ws'[|actions'|] == w.(agent := Drained, backends := w.backends - Unspared(w), signalled := w.signalled + Unspared(w))
  {
    var w := ws[|actions|];
    ws', actions' := ScanOnce(ws, actions);
    if Unspared(w) == {} {
      assert w.backends - Unspared(w) == w.backends && w.signalled + Unspared(w) == w.signalled;
    } else {
      assert Unspared(ws'[|actions'|]) == Unspared(w);
      ws', actions' := StopAll(ws', actions', Unspared(w));
      assert Unspared(ws'[|actions'|]) == {};
      ws', actions' := ScanOnce(ws', actions');
    }
  }

  /**
  The fence can always be put up: from every world without a prepared transaction there is a
  way for the agent, helped by nobody but the backends it stops, to report success, and then
  exactly the sessions with the spared prefix are left, as they were.
  */
  lemma FenceSucceeds(w: World) returns (ws: seq<World>, actions: seq<Action>)
    requires w.agent.Idle? && w.prepared == map[]
    ensures Driven(ws, actions) && ws[0] == w
    ensures ws[|actions|] == w.(agent := Fenced, backends := w.backends - Unspared(w), signalled := w.signalled + Unspared(w),
                                allow := true, defaultReadOnly := true)
  {
    hide Driven, Unspared;
    OnlyStart(w);
    ws, actions := Extend([w], [], CloseAdmissions);
    ws, actions := Extend(ws, actions, CheckPrepared);
    SameUnspared(w, ws[|actions|]);
    ws, actions := DrainEnds(ws, actions);
    ws, actions := Extend(ws, actions, CheckPrepared);
    ws, actions := Extend(ws, actions, SetReadOnly);
    ws, actions := Extend(ws, actions, OpenAdmissions);
  }
}
