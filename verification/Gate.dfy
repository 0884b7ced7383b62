/**
The buffering gate as a transition system: what each operation of the engine may do
to the set of gates, their queues and the released sessions
(`crates/pgshard-gate/src/lib.rs`).

The engine keeps its gates in a vector whose order changes as gates are removed.
Here they are a map by id, and a check may park behind any matching gate.
*/
module Gate {
  import opened Keyspace

  type Time = nat
  type GateId = string
  type Sid = nat

  datatype Mode = WritesOnly | AllStatements

  datatype Scope = Scope(tables: seq<string>, keyspaceIds: seq<U64>, isWrite: bool)

  datatype Matcher = Matcher(all: bool, tables: seq<string>, keyRanges: seq<KeyRange>) {
    predicate Matches(scope: Scope) {
      || all
      || (exists t | t in scope.tables :: t in tables)
      || (exists id | id in scope.keyspaceIds :: exists r | r in keyRanges :: r.Contains(id))
    }
  }

  datatype Spec = Spec(id: GateId, mode: Mode, matcher: Matcher, deadline: Time, minGeneration: U64)

  datatype Release = Replan(generation: U64) | Expired | Rejected

  datatype Limits = Limits(maxSessions: nat, maxTotal: nat, maxWait: nat)

  /** A waiting session: the identity of its one-shot channel and when it was parked. */
  datatype Parked = Parked(sid: Sid, enqueued: Time)

  datatype GateState = GateState(spec: Spec, parked: seq<Parked>, openRequested: bool) {
    predicate Applies(scope: Scope) {
      (spec.mode == AllStatements || scope.isWrite) && spec.matcher.Matches(scope)
    }

    ghost predicate Holds(sid: Sid) {
      exists i :: 0 <= i < |parked| && parked[i].sid == sid
    }
  }

  /**
  A closed gate stops a statement: it is a write, or the gate is for all statements, and the gate
  is for everything, or shares a table with it, or has a key range that one of its ids lies in.
  */
  ghost predicate Stops(spec: Spec, scope: Scope) {
    && (spec.mode.AllStatements? || scope.isWrite)
    && (|| spec.matcher.all
        || (exists i, j :: 0 <= i < |scope.tables| && 0 <= j < |spec.matcher.tables| && scope.tables[i] == spec.matcher.tables[j])
        || (exists i, j :: 0 <= i < |scope.keyspaceIds| && 0 <= j < |spec.matcher.keyRanges|
                           && LiesIn(scope.keyspaceIds[i], spec.matcher.keyRanges[j])))
  }

  ghost predicate LiesIn(id: U64, r: KeyRange) {
    r.start <= id && (r.end.Some? ==> id < r.end.value)
  }

  lemma TableShared(a: seq<string>, b: seq<string>)
    ensures (exists t | t in a :: t in b) <==> exists i, j :: 0 <= i < |a| && 0 <= j < |b| && a[i] == b[j]
  {
    if t :| t in a && t in b {
      var i, j :| 0 <= i < |a| && a[i] == t && 0 <= j < |b| && b[j] == t;
    }
    if i, j :| 0 <= i < |a| && 0 <= j < |b| && a[i] == b[j] {
      assert a[i] in a && a[i] in b;
    }
  }

  lemma RangeHit(ids: seq<U64>, ranges: seq<KeyRange>)
    ensures (exists id | id in ids :: exists r | r in ranges :: r.Contains(id))
       <==> exists i, j :: 0 <= i < |ids| && 0 <= j < |ranges| && LiesIn(ids[i], ranges[j])
  {
    if id :| id in ids && exists r | r in ranges :: r.Contains(id) {
      var r :| r in ranges && r.Contains(id);
      var i, j :| 0 <= i < |ids| && ids[i] == id && 0 <= j < |ranges| && ranges[j] == r;
      assert LiesIn(ids[i], ranges[j]);
    }
    if i, j :| 0 <= i < |ids| && 0 <= j < |ranges| && LiesIn(ids[i], ranges[j]) {
      assert ids[i] in ids && ranges[j] in ranges && ranges[j].Contains(ids[i]);
    }
  }

  lemma AppliesIffStops(g: GateState, scope: Scope)
    ensures g.Applies(scope) <==> Stops(g.spec, scope)
  {
    TableShared(scope.tables, g.spec.matcher.tables);
    RangeHit(scope.keyspaceIds, g.spec.matcher.keyRanges);
  }

  /** The engine as its clients see it: gates, applied generation, what was sent to whom, and the next channel. */
  datatype View = View(gates: map<GateId, GateState>, applied: U64, released: map<Sid, Release>, next: Sid)

  datatype Action =
    | Close(spec: Spec)
    | Open(id: GateId)
    | TopologyApplied(generation: U64)
    | ExpireDue(now: Time)
    | Check(scope: Scope, dead: set<Sid>)
    | RejectOverdue(now: Time, dead: set<Sid>)

  // ----------------------------------------------------------------- steps

  /** The sessions of `dead` clients are dropped. */
  function Prune(parked: seq<Parked>, dead: set<Sid>): (kept: seq<Parked>)
    ensures |kept| <= |parked|
  {
    if parked == [] then []
    else
      var init := Prune(parked[..|parked| - 1], dead);
      if parked[|parked| - 1].sid in dead then init else init + [parked[|parked| - 1]]
  }

  /** How many sessions at the front have waited too long. */
  function Overdue(parked: seq<Parked>, now: Time, maxWait: nat): (n: nat)
    ensures n <= |parked|
    ensures forall i | 0 <= i < n :: now - parked[i].enqueued > maxWait
    ensures n < |parked| ==> now - parked[n].enqueued <= maxWait
  {
    if parked == [] || now - parked[0].enqueued <= maxWait then 0 else 1 + Overdue(parked[1..], now, maxWait)
  }

  /** How an open gate's sessions leave: after the deadline the cutover is aborted. */
  function Outcome(g: GateState, applied: U64, now: Time): Release {
    if g.spec.deadline <= now then Expired else Replan(applied)
  }

  /** Exactly the gates `gone` are removed, and each of their sessions gets its gate's outcome. */
  ghost predicate Drains(v: View, gone: set<GateId>, applied: U64, now: Time, v': View) {
    && v'.next == v.next
    && v'.gates == (map id | id in v.gates && id !in gone :: v.gates[id])
    && (forall sid | sid in v.released :: sid in v'.released && v'.released[sid] == v.released[sid])
    && (forall id, sid | id in v.gates && id in gone && v.gates[id].Holds(sid) ::
          sid in v'.released && v'.released[sid] == Outcome(v.gates[id], applied, now))
    && (forall sid | sid in v'.released ::
          sid in v.released || exists id :: id in v.gates && id in gone && v.gates[id].Holds(sid))
  }

  ghost function AllPruned(v: View, dead: set<Sid>): (p: View)
    ensures p.gates.Keys == v.gates.Keys && p.released == v.released && p.next == v.next && p.applied == v.applied
  {
    v.(gates := map id | id in v.gates :: v.gates[id].(parked := Prune(v.gates[id].parked, dead)))
  }

  ghost predicate IsParked(v: View, sid: Sid) {
    exists id :: id in v.gates && v.gates[id].Holds(sid)
  }

  ghost function ParkedSids(v: View): set<Sid> {
    set id, i | id in v.gates && 0 <= i < |v.gates[id].parked| :: v.gates[id].parked[i].sid
  }

  ghost function Due(v: View, applied: U64): set<GateId> {
    set id | id in v.gates && v.gates[id].openRequested && v.gates[id].spec.minGeneration <= applied
  }

  ghost function PastDeadline(v: View, now: Time): set<GateId> {
    set id | id in v.gates && v.gates[id].spec.deadline <= now
  }

  ghost predicate CloseStep(v: View, spec: Spec, v': View) {
    v' == v.(gates := v.gates[spec.id :=
      if spec.id in v.gates then v.gates[spec.id].(spec := spec) else GateState(spec, [], false)])
  }

  ghost predicate OpenStep(v: View, id: GateId, clock: Time, v': View) {
    if id !in v.gates then v' == v
    else
      var g := v.gates[id];
      if clock < g.spec.deadline && v.applied < g.spec.minGeneration then
        v' == v.(gates := v.gates[id := g.(openRequested := true)])
      else v'.applied == v.applied && Drains(v, {id}, v.applied, clock, v')
  }

  ghost predicate TopologyStep(v: View, generation: U64, clock: Time, v': View) {
    var applied := if generation > v.applied then generation else v.applied;
    v'.applied == applied && Drains(v, Due(v, applied), applied, clock, v')
  }

  ghost predicate ExpireStep(v: View, now: Time, v': View) {
    v'.applied == v.applied && Drains(v, PastDeadline(v, now), v.applied, now, v')
  }

  ghost predicate Full(v: View, id: GateId, limits: Limits)
    requires id in v.gates
  {
    |ParkedSids(v)| >= limits.maxTotal || |v.gates[id].parked| >= limits.maxSessions
  }

  /** A statement behind gate `id`: dead sessions are pruned, then it is parked, or rejected for want of room. */
  ghost predicate ParkStep(v: View, id: GateId, dead: set<Sid>, limits: Limits, clock: Time, v': View)
    requires id in v.gates
  {
    var p := AllPruned(v, dead);
    if Full(p, id, limits) then v' == p.(released := p.released[p.next := Rejected], next := p.next + 1)
    else
      var g := p.gates[id];
      v' == p.(gates := p.gates[id := g.(parked := g.parked + [Parked(p.next, clock)])], next := p.next + 1)
  }

  ghost predicate CheckStep(v: View, scope: Scope, dead: set<Sid>, limits: Limits, clock: Time, v': View) {
    if forall id | id in v.gates :: !v.gates[id].Applies(scope) then v' == v
    else exists id :: id in v.gates && v.gates[id].Applies(scope) && ParkStep(v, id, dead, limits, clock, v')
  }

  /** The queue left behind: pruned, and without its overdue front. */
  ghost function Kept(g: GateState, now: Time, dead: set<Sid>, maxWait: nat): seq<Parked> {
    var live := Prune(g.parked, dead);
    live[Overdue(live, now, maxWait)..]
  }

  ghost predicate Popped(g: GateState, now: Time, dead: set<Sid>, maxWait: nat, sid: Sid) {
    var live := Prune(g.parked, dead);
    exists i :: 0 <= i < Overdue(live, now, maxWait) && live[i].sid == sid
  }

  ghost predicate RejectStep(v: View, now: Time, dead: set<Sid>, limits: Limits, v': View) {
    && v'.applied == v.applied && v'.next == v.next
    && v'.gates == (map id | id in v.gates :: v.gates[id].(parked := Kept(v.gates[id], now, dead, limits.maxWait)))
    && (forall sid | sid in v.released :: sid in v'.released && v'.released[sid] == v.released[sid])
    && (forall id, sid | id in v.gates && Popped(v.gates[id], now, dead, limits.maxWait, sid) ::
          sid in v'.released && v'.released[sid] == Rejected)
    && (forall sid | sid in v'.released ::
          sid in v.released || exists id :: id in v.gates && Popped(v.gates[id], now, dead, limits.maxWait, sid))
  }

  /** One operation at clock time `clock`. A tick's `now` was read from the clock before it. */
  ghost predicate Step(v: View, a: Action, limits: Limits, clock: Time, v': View) {
    match a
    case Close(spec) => CloseStep(v, spec, v')
    case Open(id) => OpenStep(v, id, clock, v')
    case TopologyApplied(generation) => TopologyStep(v, generation, clock, v')
    case ExpireDue(now) => now <= clock && ExpireStep(v, now, v')
    case Check(scope, dead) => CheckStep(v, scope, dead, limits, clock, v')
    case RejectOverdue(now, dead) => now <= clock && RejectStep(v, now, dead, limits, v')
  }

  ghost predicate Init(v: View) {
    v == View(map[], 0, map[], 0)
  }

  /** A run of operations, serialized by the engine's lock, under a clock that never goes back. */
  ghost predicate IsRun(run: seq<View>, actions: seq<Action>, clocks: seq<Time>, limits: Limits) {
    && |run| == |actions| + 1 && |clocks| == |actions|
    && Init(run[0])
    && (forall i {:trigger actions[i]} | 0 <= i < |actions| :: Step(run[i], actions[i], limits, clocks[i], run[i + 1]))
    && (forall i, j | 0 <= i < j < |clocks| :: clocks[i] <= clocks[j])
  }

  // ------------------------------------------------------------- invariant

  /** One queue: its sessions are distinct, unreleased, in the order they came. */
  ghost predicate QueueOk(v: View, q: seq<Parked>, clock: Time) {
    && (forall i, j | 0 <= i < j < |q| :: q[i].sid != q[j].sid && q[i].enqueued <= q[j].enqueued)
    && (forall i | 0 <= i < |q| :: q[i].sid < v.next && q[i].sid !in v.released && q[i].enqueued <= clock)
  }

  ghost predicate Apart(a: seq<Parked>, b: seq<Parked>) {
    forall i, j | 0 <= i < |a| && 0 <= j < |b| :: a[i].sid != b[j].sid
  }

  ghost predicate QueuesOk(v: View, clock: Time) {
    forall id | id in v.gates :: v.gates[id].spec.id == id && QueueOk(v, v.gates[id].parked, clock)
  }

  ghost predicate AllApart(v: View) {
    forall a, b | a in v.gates && b in v.gates && a != b :: Apart(v.gates[a].parked, v.gates[b].parked)
  }

  ghost predicate WithinLimits(v: View, limits: Limits) {
    && (forall id | id in v.gates :: |v.gates[id].parked| <= limits.maxSessions)
    && |ParkedSids(v)| <= limits.maxTotal
  }

  ghost predicate Inv(v: View, limits: Limits, clock: Time) {
    && QueuesOk(v, clock)
    && AllApart(v)
    && WithinLimits(v, limits)
    && (forall sid | sid in v.released :: sid < v.next)
  }

  lemma ApartHolds(v: View, a: GateId, b: GateId, sid: Sid)
    requires AllApart(v) && a in v.gates && b in v.gates && v.gates[a].Holds(sid) && v.gates[b].Holds(sid)
    ensures a == b
  {
    assert a != b ==> Apart(v.gates[a].parked, v.gates[b].parked);
  }

  ghost predicate InOrder(q: seq<Parked>, a: Parked, b: Parked) {
    exists x, y :: 0 <= x < y < |q| && q[x] == a && q[y] == b
  }

  /** The sessions of `q'` are sessions of `q`, in the same order. */
  ghost predicate SubQueue(q': seq<Parked>, q: seq<Parked>) {
    && |q'| <= |q|
    && (forall i | 0 <= i < |q'| :: q'[i] in q)
    && (forall i, j | 0 <= i < j < |q'| :: InOrder(q, q'[i], q'[j]))
  }

  lemma {:induction false} PruneSub(q: seq<Parked>, dead: set<Sid>)
    ensures SubQueue(Prune(q, dead), q)
  {
    if q != [] {
      var n := |q| - 1;
      PruneSub(q[..n], dead);
      PrefixSub(q, n, Prune(q[..n], dead));
    }
  }

  /** Appending the next session to a sub-queue of a prefix. */
  lemma PrefixSub(q: seq<Parked>, n: nat, q': seq<Parked>)
    requires n < |q| && SubQueue(q', q[..n])
    ensures SubQueue(q', q) && SubQueue(q' + [q[n]], q)
  {
    var longer := q' + [q[n]];
    forall i | 0 <= i < |q'| ensures InOrder(q, q'[i], q[n]) && q'[i] in q {
      var x :| 0 <= x < n && q[..n][x] == q'[i];
      assert q[x] == q'[i];
    }
    forall i, j | 0 <= i < j < |q'| ensures InOrder(q, q'[i], q'[j]) {
      assert InOrder(q[..n], q'[i], q'[j]);
      var x, y :| 0 <= x < y < n && q[..n][x] == q'[i] && q[..n][y] == q'[j];
      assert q[x] == q'[i] && q[y] == q'[j];
    }
  }

  lemma {:induction false} PruneKeeps(q: seq<Parked>, dead: set<Sid>, p: Parked)
    ensures p in Prune(q, dead) <==> p in q && p.sid !in dead
  {
    if q != [] {
      PruneKeeps(q[..|q| - 1], dead, p);
      assert q == q[..|q| - 1] + [q[|q| - 1]];
    }
  }

  lemma {:induction false} SubsetCard<T>(a: set<T>, b: set<T>)
    requires a <= b
    ensures |a| <= |b|
  {
    if a != {} {
      var x :| x in a;
      SubsetCard(a - {x}, b - {x});
    }
  }

  lemma SubQueueOk(v: View, q: seq<Parked>, v': View, q': seq<Parked>, clock: Time, clock': Time)
    requires QueueOk(v, q, clock) && SubQueue(q', q) && v.next <= v'.next && clock <= clock'
    requires forall i | 0 <= i < |q'| :: q'[i].sid !in v'.released
    ensures QueueOk(v', q', clock')
  {
  }

  lemma SubQueueApart(a: seq<Parked>, b: seq<Parked>, a': seq<Parked>, b': seq<Parked>)
    requires Apart(a, b) && SubQueue(a', a) && SubQueue(b', b)
    ensures Apart(a', b')
  {
  }

  lemma SuffixSub(q: seq<Parked>, n: nat)
    requires n <= |q|
    ensures SubQueue(q[n..], q)
  {
    forall i, j | 0 <= i < j < |q[n..]| ensures InOrder(q, q[n..][i], q[n..][j]) {
      assert q[n + i] == q[n..][i] && q[n + j] == q[n..][j];
    }
  }

  lemma SubQueueTrans(a: seq<Parked>, b: seq<Parked>, c: seq<Parked>)
    requires SubQueue(a, b) && SubQueue(b, c)
    ensures SubQueue(a, c)
  {
    forall i, j | 0 <= i < j < |a| ensures InOrder(c, a[i], a[j]) {
      assert InOrder(b, a[i], a[j]);
      var x, y :| 0 <= x < y < |b| && b[x] == a[i] && b[y] == a[j];
      assert InOrder(c, b[x], b[y]);
    }
  }

  // --------------------------------------- each operation keeps the invariant

  /** Every queue of `v'` is what is left of the queue of the same gate in `v`. */
  ghost predicate Shrinks(v: View, v': View) {
    && v'.next == v.next
    && forall id | id in v'.gates ::
         && id in v.gates && v'.gates[id].spec.id == v.gates[id].spec.id
         && SubQueue(v'.gates[id].parked, v.gates[id].parked)
  }

  lemma ShrinkingCounts(v: View, v': View)
    requires Shrinks(v, v')
    ensures |ParkedSids(v')| <= |ParkedSids(v)|
  {
    forall sid | sid in ParkedSids(v') ensures sid in ParkedSids(v) {
      var id, i :| id in v'.gates && 0 <= i < |v'.gates[id].parked| && v'.gates[id].parked[i].sid == sid;
      var j :| 0 <= j < |v.gates[id].parked| && v.gates[id].parked[j] == v'.gates[id].parked[i];
    }
    SubsetCard(ParkedSids(v'), ParkedSids(v));
  }

  lemma ShrinkKeeps(v: View, v': View, limits: Limits, clock: Time, clock': Time)
    requires Inv(v, limits, clock) && clock <= clock' && Shrinks(v, v')
    requires forall sid | sid in v'.released :: sid < v'.next
    requires forall id, i | id in v'.gates && 0 <= i < |v'.gates[id].parked| :: v'.gates[id].parked[i].sid !in v'.released
    ensures Inv(v', limits, clock')
  {
    ShrinkingCounts(v, v');
    forall id | id in v'.gates ensures QueueOk(v', v'.gates[id].parked, clock') {
      SubQueueOk(v, v.gates[id].parked, v', v'.gates[id].parked, clock, clock');
    }
    forall a, b | a in v'.gates && b in v'.gates && a != b ensures Apart(v'.gates[a].parked, v'.gates[b].parked) {
      SubQueueApart(v.gates[a].parked, v.gates[b].parked, v'.gates[a].parked, v'.gates[b].parked);
    }
  }

  lemma DrainsKeeps(v: View, gone: set<GateId>, applied: U64, now: Time, v': View, limits: Limits, clock: Time, clock': Time)
    requires Inv(v, limits, clock) && clock <= clock' && Drains(v, gone, applied, now, v')
    ensures Inv(v', limits, clock')
  {
    forall id | id in v'.gates ensures SubQueue(v'.gates[id].parked, v.gates[id].parked) {
      SuffixSub(v.gates[id].parked, 0);
      assert v.gates[id].parked[0..] == v.gates[id].parked;
    }
    forall id, i | id in v'.gates && 0 <= i < |v'.gates[id].parked| ensures v'.gates[id].parked[i].sid !in v'.released {
      StaysParked(v, gone, applied, now, v', limits, clock, id, i);
    }
    forall sid | sid in v'.released ensures sid < v'.next {
      if sid !in v.released {
        var id :| id in v.gates && id in gone && v.gates[id].Holds(sid);
      }
    }
    ShrinkKeeps(v, v', limits, clock, clock');
  }

  lemma StaysParked(v: View, gone: set<GateId>, applied: U64, now: Time, v': View, limits: Limits, clock: Time, id: GateId, i: nat)
    requires Inv(v, limits, clock) && Drains(v, gone, applied, now, v')
    requires id in v.gates && id !in gone && i < |v.gates[id].parked|
    ensures v.gates[id].parked[i].sid !in v'.released
  {
    var sid := v.gates[id].parked[i].sid;
    if sid in v'.released && sid !in v.released {
      var other :| other in v.gates && other in gone && v.gates[other].Holds(sid);
      ApartHolds(v, id, other, sid);
    }
  }

  lemma PrunedKeeps(v: View, dead: set<Sid>, limits: Limits, clock: Time, clock': Time)
    requires Inv(v, limits, clock) && clock <= clock'
    ensures Inv(AllPruned(v, dead), limits, clock')
  {
    var p := AllPruned(v, dead);
    forall id | id in p.gates
      ensures SubQueue(p.gates[id].parked, v.gates[id].parked)
      ensures forall i | 0 <= i < |p.gates[id].parked| :: p.gates[id].parked[i].sid !in p.released
    {
      PruneSub(v.gates[id].parked, dead);
    }
    ShrinkKeeps(v, p, limits, clock, clock');
  }

  /** The queues are as before, except for new empty ones; nothing parked was released. */
  ghost predicate SameQueues(v: View, v': View) {
    && v.next <= v'.next
    && (forall id | id in v.gates :: id in v'.gates && v'.gates[id].parked == v.gates[id].parked)
    && (forall id | id in v'.gates && id !in v.gates :: v'.gates[id].parked == [])
    && (forall id | id in v'.gates :: v'.gates[id].spec.id == id)
    && (forall sid | sid in v'.released :: sid < v'.next && (sid in v.released || v.next <= sid))
  }

  lemma QueueStill(v: View, v': View, q: seq<Parked>, clock: Time, clock': Time)
    requires QueueOk(v, q, clock) && clock <= clock' && SameQueues(v, v')
    ensures QueueOk(v', q, clock')
  {
  }

  lemma SameQueuesKeeps(v: View, v': View, limits: Limits, clock: Time, clock': Time)
    requires Inv(v, limits, clock) && clock <= clock' && SameQueues(v, v')
    ensures Inv(v', limits, clock')
  {
    assert QueuesOk(v', clock') by {
      hide QueueOk;
      forall id | id in v'.gates ensures QueueOk(v', v'.gates[id].parked, clock') {
        if id in v.gates { QueueStill(v, v', v.gates[id].parked, clock, clock'); } else { EmptyOk(v', clock'); }
      }
    }
    assert AllApart(v') by {
      forall a, b | a in v'.gates && b in v'.gates && a != b ensures Apart(v'.gates[a].parked, v'.gates[b].parked) {
        if a in v.gates && b in v.gates { assert Apart(v.gates[a].parked, v.gates[b].parked); }
      }
    }
    SameSids(v, v');
  }

  lemma EmptyOk(v: View, clock: Time)
    ensures QueueOk(v, [], clock)
  {
  }

  lemma SameSids(v: View, v': View)
    requires forall id | id in v.gates :: id in v'.gates && v'.gates[id].parked == v.gates[id].parked
    requires forall id | id in v'.gates && id !in v.gates :: v'.gates[id].parked == []
    ensures ParkedSids(v') == ParkedSids(v)
  {
    forall sid | sid in ParkedSids(v') ensures sid in ParkedSids(v) {
      var id, i :| id in v'.gates && 0 <= i < |v'.gates[id].parked| && v'.gates[id].parked[i].sid == sid;
      assert v.gates[id].parked[i].sid == sid;
    }
    forall sid | sid in ParkedSids(v) ensures sid in ParkedSids(v') {
      var id, i :| id in v.gates && 0 <= i < |v.gates[id].parked| && v.gates[id].parked[i].sid == sid;
      assert v'.gates[id].parked[i].sid == sid;
    }
  }

  lemma CloseKeeps(v: View, spec: Spec, v': View, limits: Limits, clock: Time, clock': Time)
    requires Inv(v, limits, clock) && clock <= clock' && CloseStep(v, spec, v')
    ensures Inv(v', limits, clock')
  {
    hide QueueOk, ParkedSids, AllApart;
    SameQueuesKeeps(v, v', limits, clock, clock');
  }

  lemma OpenKeeps(v: View, id: GateId, v': View, limits: Limits, clock: Time, clock': Time)
    requires Inv(v, limits, clock) && clock <= clock' && OpenStep(v, id, clock', v')
    ensures Inv(v', limits, clock')
  {
    hide Inv, Drains;
    if id !in v.gates {
      ArmKeeps(v, v', limits, clock, clock');
    } else if clock' < v.gates[id].spec.deadline && v.applied < v.gates[id].spec.minGeneration {
      ArmKeeps(v, v', limits, clock, clock');
    } else {
      DrainsKeeps(v, {id}, v.applied, clock', v', limits, clock, clock');
    }
  }

  lemma ArmKeeps(v: View, v': View, limits: Limits, clock: Time, clock': Time)
    requires Inv(v, limits, clock) && clock <= clock' && v' == v.(gates := v'.gates) && v'.gates.Keys == v.gates.Keys
    requires forall id | id in v.gates :: v'.gates[id] == v.gates[id].(openRequested := v'.gates[id].openRequested)
    ensures Inv(v', limits, clock')
  {
    hide QueueOk, ParkedSids, AllApart;
    SameQueuesKeeps(v, v', limits, clock, clock');
  }

  lemma AppendOk(v: View, q: seq<Parked>, v': View, clock: Time)
    requires QueueOk(v, q, clock) && v'.next == v.next + 1 && v'.released == v.released
    requires v.next !in v.released
    ensures QueueOk(v', q, clock) && QueueOk(v', q + [Parked(v.next, clock)], clock)
  {
  }

  lemma ParkKeeps(v: View, id: GateId, dead: set<Sid>, v': View, limits: Limits, clock: Time, clock': Time)
    requires Inv(v, limits, clock) && clock <= clock'
    requires id in v.gates && ParkStep(v, id, dead, limits, clock', v')
    ensures Inv(v', limits, clock')
  {
    hide Inv, AllPruned, Full;
    var p := AllPruned(v, dead);
    PrunedKeeps(v, dead, limits, clock, clock');
    if Full(p, id, limits) {
      RejectedKeeps(p, v', limits, clock');
    } else {
      AppendKeeps(p, id, v', limits, clock');
    }
  }

  lemma RejectedKeeps(p: View, v': View, limits: Limits, clock: Time)
    requires Inv(p, limits, clock) && v' == p.(released := p.released[p.next := Rejected], next := p.next + 1)
    ensures Inv(v', limits, clock)
  {
    hide QueueOk, ParkedSids, AllApart;
    SameQueuesKeeps(p, v', limits, clock, clock);
  }

  lemma AppendKeeps(p: View, id: GateId, v': View, limits: Limits, clock: Time)
    requires Inv(p, limits, clock) && id in p.gates && !Full(p, id, limits)
    requires v' == p.(gates := p.gates[id := p.gates[id].(parked := p.gates[id].parked + [Parked(p.next, clock)])], next := p.next + 1)
    ensures Inv(v', limits, clock)
  {
    hide QueueOk, Apart, ParkedSids;
    assert QueuesOk(v', clock) by {
      forall other | other in v'.gates ensures QueueOk(v', v'.gates[other].parked, clock) {
        AppendOk(p, p.gates[other].parked, v', clock);
      }
    }
    assert AllApart(v') by {
      forall a, b | a in v'.gates && b in v'.gates && a != b ensures Apart(v'.gates[a].parked, v'.gates[b].parked) {
        AppendApart(p, a, b, clock);
      }
    }
    AppendedSids(p, id, v', clock);
  }

  lemma AppendApart(p: View, a: GateId, b: GateId, clock: Time)
    requires QueuesOk(p, clock) && AllApart(p) && a in p.gates && b in p.gates && a != b
    ensures var last := [Parked(p.next, clock)];
      && Apart(p.gates[a].parked, p.gates[b].parked)
      && Apart(p.gates[a].parked + last, p.gates[b].parked) && Apart(p.gates[a].parked, p.gates[b].parked + last)
  {
    assert Apart(p.gates[a].parked, p.gates[b].parked);
    assert QueueOk(p, p.gates[a].parked, clock) && QueueOk(p, p.gates[b].parked, clock);
  }

  lemma AppendedSids(p: View, id: GateId, v': View, clock: Time)
    requires id in p.gates
    requires v'.gates == p.gates[id := p.gates[id].(parked := p.gates[id].parked + [Parked(p.next, clock)])]
    ensures |ParkedSids(v')| <= |ParkedSids(p)| + 1
  {
    forall sid | sid in ParkedSids(v') ensures sid in ParkedSids(p) + {p.next} {
      var other, i :| other in v'.gates && 0 <= i < |v'.gates[other].parked| && v'.gates[other].parked[i].sid == sid;
      if other == id && i == |p.gates[id].parked| {
      } else {
        assert p.gates[other].parked[i].sid == sid;
      }
    }
    SubsetCard(ParkedSids(v'), ParkedSids(p) + {p.next});
  }

  lemma KeptSub(g: GateState, now: Time, dead: set<Sid>, maxWait: nat)
    ensures SubQueue(Kept(g, now, dead, maxWait), g.parked)
  {
    var live := Prune(g.parked, dead);
    PruneSub(g.parked, dead);
    SuffixSub(live, Overdue(live, now, maxWait));
    SubQueueTrans(Kept(g, now, dead, maxWait), live, g.parked);
  }

  lemma {:induction false} PrunedInOrder(v: View, q: seq<Parked>, dead: set<Sid>, clock: Time, a: nat, b: nat)
    requires QueueOk(v, q, clock) && a <= b < |Prune(q, dead)|
    ensures Prune(q, dead)[a].enqueued <= Prune(q, dead)[b].enqueued
    ensures a < b ==> Prune(q, dead)[a].sid != Prune(q, dead)[b].sid
    ensures Prune(q, dead)[a] in q
  {
    PruneSub(q, dead);
    assert a < b ==> InOrder(q, Prune(q, dead)[a], Prune(q, dead)[b]);
  }

  /** A popped session is a session of the queue, and no longer in it. */
  lemma PoppedLeaves(v: View, g: GateState, now: Time, dead: set<Sid>, maxWait: nat, sid: Sid, clock: Time)
    requires QueueOk(v, g.parked, clock) && Popped(g, now, dead, maxWait, sid)
    ensures g.Holds(sid)
    ensures forall i | 0 <= i < |Kept(g, now, dead, maxWait)| :: Kept(g, now, dead, maxWait)[i].sid != sid
  {
    hide QueueOk, Prune, Overdue;
    var live := Prune(g.parked, dead);
    var n := Overdue(live, now, maxWait);
    var k :| 0 <= k < n && live[k].sid == sid;
    PrunedInOrder(v, g.parked, dead, clock, k, k);
    forall i | 0 <= i < |live[n..]| ensures live[n..][i].sid != sid {
      PrunedInOrder(v, g.parked, dead, clock, k, n + i);
    }
  }

  lemma PoppedIsOld(v: View, id: GateId, now: Time, dead: set<Sid>, maxWait: nat, sid: Sid, clock: Time)
    requires QueuesOk(v, clock) && id in v.gates && Popped(v.gates[id], now, dead, maxWait, sid)
    ensures sid < v.next
  {
    PoppedLeaves(v, v.gates[id], now, dead, maxWait, sid, clock);
  }

  lemma RejectKeeps(v: View, now: Time, dead: set<Sid>, v': View, limits: Limits, clock: Time, clock': Time)
    requires Inv(v, limits, clock) && clock <= clock' && RejectStep(v, now, dead, limits, v')
    ensures Inv(v', limits, clock')
  {
    hide SubQueue, QueueOk, ParkedSids, Popped, Kept, AllApart;
    forall id | id in v'.gates ensures SubQueue(v'.gates[id].parked, v.gates[id].parked) {
      KeptSub(v.gates[id], now, dead, limits.maxWait);
    }
    forall sid | sid in v'.released ensures sid < v'.next {
      if sid !in v.released {
        var id :| id in v.gates && Popped(v.gates[id], now, dead, limits.maxWait, sid);
        PoppedIsOld(v, id, now, dead, limits.maxWait, sid, clock);
      }
    }
    forall id, i | id in v'.gates && 0 <= i < |v'.gates[id].parked| ensures v'.gates[id].parked[i].sid !in v'.released {
      KeptStays(v, now, dead, v', limits, clock, id, i);
    }
    ShrinkKeeps(v, v', limits, clock, clock');
  }

  lemma KeptStays(v: View, now: Time, dead: set<Sid>, v': View, limits: Limits, clock: Time, id: GateId, i: nat)
    requires Inv(v, limits, clock) && RejectStep(v, now, dead, limits, v')
    requires id in v'.gates && i < |v'.gates[id].parked|
    ensures v'.gates[id].parked[i].sid !in v'.released
  {
    var q := v'.gates[id].parked;
    KeptSub(v.gates[id], now, dead, limits.maxWait);
    assert q[i] in v.gates[id].parked;
    var sid := q[i].sid;
    if sid in v'.released && sid !in v.released {
      var other :| other in v.gates && Popped(v.gates[other], now, dead, limits.maxWait, sid);
      PoppedLeaves(v, v.gates[other], now, dead, limits.maxWait, sid, clock);
      ApartHolds(v, id, other, sid);
    }
  }

  lemma StepKeeps(v: View, a: Action, v': View, limits: Limits, clock: Time, clock': Time)
    requires Inv(v, limits, clock) && clock <= clock' && Step(v, a, limits, clock', v')
    ensures Inv(v', limits, clock')
  {
    hide Inv, ParkStep, OpenStep, CloseStep, RejectStep, Drains;
    match a
    case Close(spec) => CloseKeeps(v, spec, v', limits, clock, clock');
    case Open(id) => OpenKeeps(v, id, v', limits, clock, clock');
    case TopologyApplied(generation) =>
      DrainsKeeps(v, Due(v, v'.applied), v'.applied, clock', v', limits, clock, clock');
    case ExpireDue(now) => DrainsKeeps(v, PastDeadline(v, now), v.applied, now, v', limits, clock, clock');
    case Check(scope, dead) => CheckKeeps(v, scope, dead, v', limits, clock, clock');
    case RejectOverdue(now, dead) => RejectKeeps(v, now, dead, v', limits, clock, clock');
  }

  lemma CheckKeeps(v: View, scope: Scope, dead: set<Sid>, v': View, limits: Limits, clock: Time, clock': Time)
    requires Inv(v, limits, clock) && clock <= clock' && CheckStep(v, scope, dead, limits, clock', v')
    ensures Inv(v', limits, clock')
  {
    hide ParkStep;
    if id :| id in v.gates && v.gates[id].Applies(scope) && ParkStep(v, id, dead, limits, clock', v') {
      ParkKeeps(v, id, dead, v', limits, clock, clock');
    }
  }

  // ------------------------------------------------------------- whole runs

  ghost function ClockBefore(clocks: seq<Time>, n: nat): Time
    requires n <= |clocks|
  {
    if n == 0 then 0 else clocks[n - 1]
  }

  /**
  Accounting over every run: each parked session sits in one queue and is not yet
  released, queues are in arrival order, and neither limit is ever exceeded.
  */
  lemma {:induction false} AccountingAlways(run: seq<View>, actions: seq<Action>, clocks: seq<Time>, limits: Limits, n: nat)
    requires IsRun(run, actions, clocks, limits) && n <= |actions|
    ensures Inv(run[n], limits, ClockBefore(clocks, n))
  {
    hide Step;
    if n == 0 {
      assert ParkedSids(run[0]) == {};
    } else {
      hide Inv;
      AccountingAlways(run, actions, clocks, limits, n - 1);
      assert Step(run[n - 1], actions[n - 1], limits, clocks[n - 1], run[n]);
      StepKeeps(run[n - 1], actions[n - 1], run[n], limits, ClockBefore(clocks, n - 1), clocks[n - 1]);
    }
  }

  /** In every run each parked session sits in exactly one queue. */
  lemma HoldsOnce(run: seq<View>, actions: seq<Action>, clocks: seq<Time>, limits: Limits, n: nat, a: GateId, b: GateId, sid: Sid)
    requires IsRun(run, actions, clocks, limits) && n <= |actions|
    requires a in run[n].gates && b in run[n].gates && run[n].gates[a].Holds(sid) && run[n].gates[b].Holds(sid)
    ensures a == b && sid !in run[n].released
  {
    AccountingAlways(run, actions, clocks, limits, n);
    ApartHolds(run[n], a, b, sid);
  }

  lemma StepReleases(v: View, a: Action, v': View, limits: Limits, clock: Time, sid: Sid)
    requires Inv(v, limits, clock) && Step(v, a, limits, clock, v') && sid in v.released
    ensures sid in v'.released && v'.released[sid] == v.released[sid]
  {
    hide QueueOk, ParkedSids, AllApart, WithinLimits, Prune, Kept, Popped;
  }

  lemma InvLater(v: View, limits: Limits, clock: Time, clock': Time)
    requires Inv(v, limits, clock) && clock <= clock'
    ensures Inv(v, limits, clock')
  {
    hide ParkedSids, AllApart;
  }

  /** A release is final: in no run is one taken back or changed. */
  lemma {:induction false} ReleasedForever(run: seq<View>, actions: seq<Action>, clocks: seq<Time>, limits: Limits, i: nat, j: nat, sid: Sid)
    requires IsRun(run, actions, clocks, limits) && i <= j <= |actions| && sid in run[i].released
    ensures sid in run[j].released && run[j].released[sid] == run[i].released[sid]
    decreases j
  {
    if i < j {
      assert |run| == |actions| + 1;
      hide IsRun;
      ReleasedForever(run, actions, clocks, limits, i, j - 1, sid);
      ReleasedNext(run, actions, clocks, limits, j - 1, sid);
    }
  }

  lemma ReleasedNext(run: seq<View>, actions: seq<Action>, clocks: seq<Time>, limits: Limits, i: nat, sid: Sid)
    requires IsRun(run, actions, clocks, limits) && i < |actions| && sid in run[i].released
    ensures sid in run[i + 1].released && run[i + 1].released[sid] == run[i].released[sid]
  {
    hide Step, Inv;
    AccountingAlways(run, actions, clocks, limits, i);
    InvLater(run[i], limits, ClockBefore(clocks, i), clocks[i]);
    assert Step(run[i], actions[i], limits, clocks[i], run[i + 1]);
    StepReleases(run[i], actions[i], run[i + 1], limits, clocks[i], sid);
  }

  // ------------------------------------------------------------ conservation

  /** The action saw that the session's client was gone. */
  ghost predicate FoundDead(a: Action, sid: Sid) {
    (a.Check? || a.RejectOverdue?) && sid in a.dead
  }

  /** Where a parked session is after a step: still parked, released, or dropped because its client was gone. */
  ghost predicate StaysOrLeaves(v: View, a: Action, v': View, sid: Sid) {
    IsParked(v', sid) || sid in v'.released || FoundDead(a, sid)
  }

  lemma DrainConserves(v: View, gone: set<GateId>, applied: U64, now: Time, v': View, sid: Sid)
    requires Drains(v, gone, applied, now, v') && IsParked(v, sid)
    ensures IsParked(v', sid) || sid in v'.released
  {
    var id :| id in v.gates && v.gates[id].Holds(sid);
    if id !in gone { assert id in v'.gates && v'.gates[id].Holds(sid); }
  }

  lemma PruneConserves(q: seq<Parked>, dead: set<Sid>, i: nat) returns (k: nat)
    requires i < |q| && q[i].sid !in dead
    ensures k < |Prune(q, dead)| && Prune(q, dead)[k] == q[i]
  {
    PruneKeeps(q, dead, q[i]);
    k :| 0 <= k < |Prune(q, dead)| && Prune(q, dead)[k] == q[i];
  }

  lemma ParkConserves(v: View, id: GateId, dead: set<Sid>, limits: Limits, clock: Time, v': View, sid: Sid)
    requires id in v.gates && ParkStep(v, id, dead, limits, clock, v') && IsParked(v, sid) && sid !in dead
    ensures IsParked(v', sid)
  {
    hide Full, Prune;
    var g :| g in v.gates && v.gates[g].Holds(sid);
    var i :| 0 <= i < |v.gates[g].parked| && v.gates[g].parked[i].sid == sid;
    var k := PruneConserves(v.gates[g].parked, dead, i);
    assert g in v'.gates && v'.gates[g].parked[k].sid == sid;
    assert v'.gates[g].Holds(sid);
  }

  lemma RejectConserves(v: View, now: Time, dead: set<Sid>, limits: Limits, v': View, sid: Sid)
    requires RejectStep(v, now, dead, limits, v') && IsParked(v, sid) && sid !in dead
    ensures IsParked(v', sid) || sid in v'.released
  {
    hide Prune, Overdue;
    var g :| g in v.gates && v.gates[g].Holds(sid);
    var i :| 0 <= i < |v.gates[g].parked| && v.gates[g].parked[i].sid == sid;
    var live := Prune(v.gates[g].parked, dead);
    var k := PruneConserves(v.gates[g].parked, dead, i);
    var n := Overdue(live, now, limits.maxWait);
    if k < n {
      assert Popped(v.gates[g], now, dead, limits.maxWait, sid);
    } else {
      assert v'.gates[g].parked[k - n].sid == sid;
      assert v'.gates[g].Holds(sid);
    }
  }

  /** No step loses a session: one that leaves its queue was released or its client was gone. */
  lemma StepConserves(v: View, a: Action, v': View, limits: Limits, clock: Time, sid: Sid)
    requires Step(v, a, limits, clock, v') && IsParked(v, sid)
    ensures StaysOrLeaves(v, a, v', sid)
  {
    hide Drains, RejectStep, ParkStep;
    match a
    case Close(spec) => CloseConserves(v, spec, v', sid);
    case Open(id) => OpenConserves(v, id, clock, v', sid);
    case TopologyApplied(_) => DrainConserves(v, Due(v, v'.applied), v'.applied, clock, v', sid);
    case ExpireDue(now) => DrainConserves(v, PastDeadline(v, now), v.applied, now, v', sid);
    case Check(scope, dead) =>
      if sid !in dead && exists id | id in v.gates :: v.gates[id].Applies(scope) {
        var id :| id in v.gates && v.gates[id].Applies(scope) && ParkStep(v, id, dead, limits, clock, v');
        ParkConserves(v, id, dead, limits, clock, v', sid);
      }
    case RejectOverdue(now, dead) => if sid !in dead { RejectConserves(v, now, dead, limits, v', sid); }
  }

  lemma CloseConserves(v: View, spec: Spec, v': View, sid: Sid)
    requires CloseStep(v, spec, v') && IsParked(v, sid)
    ensures IsParked(v', sid)
  {
    var g :| g in v.gates && v.gates[g].Holds(sid);
    assert v'.gates[g].parked == v.gates[g].parked && v'.gates[g].Holds(sid);
  }

  lemma OpenConserves(v: View, id: GateId, clock: Time, v': View, sid: Sid)
    requires OpenStep(v, id, clock, v') && IsParked(v, sid)
    ensures IsParked(v', sid) || sid in v'.released
  {
    hide Drains;
    var g :| g in v.gates && v.gates[g].Holds(sid);
    if id in v.gates && (v.gates[id].spec.deadline <= clock || v.gates[id].spec.minGeneration <= v.applied) {
      DrainConserves(v, {id}, v.applied, clock, v', sid);
    } else {
      assert v'.gates[g].parked == v.gates[g].parked && v'.gates[g].Holds(sid);
    }
  }

  /** A session that a step numbers is parked or released by that step. */
  lemma StepNumbers(v: View, a: Action, v': View, limits: Limits, clock: Time, sid: Sid)
    requires Step(v, a, limits, clock, v') && v.next <= sid < v'.next
    ensures IsParked(v', sid) || sid in v'.released
  {
    hide Prune, Full, ParkedSids, Kept, Popped;
    if a.Check? {
      var id :| id in v.gates && v.gates[id].Applies(a.scope) && ParkStep(v, id, a.dead, limits, clock, v');
      if sid !in v'.released {
        var q := v'.gates[id].parked;
        assert q[|q| - 1].sid == sid;
        assert v'.gates[id].Holds(sid);
      }
    }
  }

  /**
  Conservation over every run: every session ever numbered is parked, was released, or was
  dropped by a step that saw its client gone.
  */
  lemma {:induction false} EverySessionAccounted(run: seq<View>, actions: seq<Action>, clocks: seq<Time>, limits: Limits, n: nat, sid: Sid)
    requires IsRun(run, actions, clocks, limits) && n <= |actions| && sid < run[n].next
    ensures IsParked(run[n], sid) || sid in run[n].released || exists j :: 0 <= j < n && FoundDead(actions[j], sid)
  {
    if n > 0 {
      hide Step;
      var v, v' := run[n - 1], run[n];
      assert Step(v, actions[n - 1], limits, clocks[n - 1], v');
      if v.next <= sid {
        StepNumbers(v, actions[n - 1], v', limits, clocks[n - 1], sid);
      } else {
        EverySessionAccounted(run, actions, clocks, limits, n - 1, sid);
        if sid in v.released {
          ReleasedNext(run, actions, clocks, limits, n - 1, sid);
        } else if IsParked(v, sid) {
          StepConserves(v, actions[n - 1], v', limits, clocks[n - 1], sid);
        }
      }
    }
  }

  /** The open of gate `id` at step `j` is still in force at step `i`: the gate was never removed since. */
  ghost predicate OpenedSince(run: seq<View>, actions: seq<Action>, j: nat, i: nat, id: GateId)
    requires |run| == |actions| + 1 && i < |run|
  {
    && j <= i && j < |actions| && actions[j] == Open(id)
    && forall k | j <= k <= i :: id in run[k].gates
  }

  /** A gate is armed only by an open that is still in force. */
  lemma {:induction false} ArmedByOpen(run: seq<View>, actions: seq<Action>, clocks: seq<Time>, limits: Limits, n: nat, id: GateId)
    returns (j: nat)
    requires IsRun(run, actions, clocks, limits) && n <= |actions|
    requires id in run[n].gates && run[n].gates[id].openRequested
    ensures j < n && OpenedSince(run, actions, j, n, id)
  {
    var v, v' := run[n - 1], run[n];
    assert Step(v, actions[n - 1], limits, clocks[n - 1], v');
    if id in v.gates && v.gates[id].openRequested {
      j := ArmedByOpen(run, actions, clocks, limits, n - 1, id);
    } else {
      ArmsOnlyOpen(v, actions[n - 1], v', limits, clocks[n - 1], id);
      j := n - 1;
    }
  }

  lemma ArmsOnlyOpen(v: View, a: Action, v': View, limits: Limits, clock: Time, id: GateId)
    requires Step(v, a, limits, clock, v') && id in v'.gates && v'.gates[id].openRequested
    requires id in v.gates ==> !v.gates[id].openRequested
    ensures a == Open(id) && id in v.gates
  {
  }

  /** How a session left its gate's queue with a verdict on the cutover. */
  ghost predicate LeavesBy(v: View, a: Action, v': View, clock: Time, sid: Sid, id: GateId) {
    && id in v.gates && v.gates[id].Holds(sid)
    && sid in v'.released
    && (v'.released[sid].Replan? ==>
          && clock < v.gates[id].spec.deadline
          && v.gates[id].spec.minGeneration <= v'.applied
          && v'.released[sid].generation == v'.applied
          && (a == Open(id) || v.gates[id].openRequested))
    && (v'.released[sid].Expired? ==> v.gates[id].spec.deadline <= clock)
  }

  lemma DrainLeaves(v: View, gone: set<GateId>, applied: U64, now: Time, v': View, sid: Sid) returns (id: GateId)
    requires Drains(v, gone, applied, now, v') && sid !in v.released && sid in v'.released
    ensures id in v.gates && id in gone && v.gates[id].Holds(sid)
    ensures v'.released[sid] == Outcome(v.gates[id], applied, now)
  {
    id :| id in v.gates && id in gone && v.gates[id].Holds(sid);
  }

  lemma CutoverStep(v: View, a: Action, v': View, limits: Limits, clock: Time, sid: Sid) returns (id: GateId)
    requires Step(v, a, limits, clock, v') && sid !in v.released && sid in v'.released
    requires !v'.released[sid].Rejected?
    ensures LeavesBy(v, a, v', clock, sid, id)
  {
    match a
    case Open(g) =>
      id := DrainLeaves(v, {g}, v.applied, clock, v', sid);
    case TopologyApplied(generation) =>
      id := DrainLeaves(v, Due(v, v'.applied), v'.applied, clock, v', sid);
    case ExpireDue(now) =>
      id := DrainLeaves(v, PastDeadline(v, now), v.applied, now, v', sid);
  }

  /**
  Release safety over every run: a session is told to re-plan only behind a gate whose
  open was requested and still in force, before that gate's deadline, and once the applied
  generation has reached its minimum; it is told its gate expired only at or after the deadline.
  */
  lemma ReleaseSafety(run: seq<View>, actions: seq<Action>, clocks: seq<Time>, limits: Limits, i: nat, sid: Sid)
    returns (id: GateId, j: nat)
    requires IsRun(run, actions, clocks, limits) && i < |actions|
    requires sid !in run[i].released && sid in run[i + 1].released && !run[i + 1].released[sid].Rejected?
    ensures LeavesBy(run[i], actions[i], run[i + 1], clocks[i], sid, id)
    ensures run[i + 1].released[sid].Replan? ==> OpenedSince(run, actions, j, i, id)
  {
    assert Step(run[i], actions[i], limits, clocks[i], run[i + 1]);
    id := CutoverStep(run[i], actions[i], run[i + 1], limits, clocks[i], sid);
    j := i;
    if run[i + 1].released[sid].Replan? && actions[i] != Open(id) {
      j := ArmedByOpen(run, actions, clocks, limits, i, id);
    }
  }

  /** The gate is armed, and its generation has been applied. */
  ghost predicate IsDue(v: View, id: GateId) {
    id in v.gates && v.gates[id].openRequested && v.gates[id].spec.minGeneration <= v.applied
  }

  /** Step `j` closed the armed gate again for a generation already applied, and nothing has looked at it since. */
  ghost predicate LateClosed(run: seq<View>, actions: seq<Action>, j: nat, n: nat, id: GateId)
    requires |run| == |actions| + 1 && n < |run|
  {
    && j < n && id in run[n].gates && actions[j] == Close(run[n].gates[id].spec) && run[n].gates[id].spec.id == id
    && id in run[j].gates && run[j].gates[id].openRequested && run[n].gates[id].spec.minGeneration <= run[j].applied
    && (forall k | j <= k <= n :: id in run[k].gates)
    && (forall k | j < k < n :: !actions[k].TopologyApplied?)
  }

  /** Only a close makes a gate due that stays. */
  lemma DueByClose(v: View, a: Action, v': View, limits: Limits, clock: Time, id: GateId)
    requires Step(v, a, limits, clock, v') && IsDue(v', id)
    ensures id in v.gates && v.gates[id].openRequested && !a.TopologyApplied? && v'.applied == v.applied
    ensures if a.Close? && a.spec.id == id then v'.gates[id].spec == a.spec else v'.gates[id].spec == v.gates[id].spec
  {
    hide ParkedSids, Prune, Kept, Popped;
  }

  /** A gate that stays keeps its open request, and the applied generation never falls. */
  lemma StaysArmed(v: View, a: Action, v': View, limits: Limits, clock: Time, id: GateId)
    requires Step(v, a, limits, clock, v') && id in v.gates && id in v'.gates
    ensures v.gates[id].openRequested ==> v'.gates[id].openRequested
    ensures v.applied <= v'.applied
  {
    hide ParkedSids, Prune, Kept, Popped;
  }

  lemma {:induction false} ArmedSince(run: seq<View>, actions: seq<Action>, clocks: seq<Time>, limits: Limits, j: nat, n: nat, id: GateId)
    requires IsRun(run, actions, clocks, limits) && j <= n <= |actions| && forall k | j <= k <= n :: id in run[k].gates
    requires run[j].gates[id].openRequested
    ensures run[n].gates[id].openRequested && run[j].applied <= run[n].applied
    decreases n
  {
    if j < n {
      hide Step;
      ArmedSince(run, actions, clocks, limits, j, n - 1, id);
      assert Step(run[n - 1], actions[n - 1], limits, clocks[n - 1], run[n]);
      StaysArmed(run[n - 1], actions[n - 1], run[n], limits, clocks[n - 1], id);
    }
  }

  lemma {:induction false} DueWasLateClosed(run: seq<View>, actions: seq<Action>, clocks: seq<Time>, limits: Limits, n: nat, id: GateId)
    requires IsRun(run, actions, clocks, limits) && n <= |actions| && IsDue(run[n], id)
    ensures exists j :: LateClosed(run, actions, j, n, id)
  {
    hide Step;
    var a := actions[n - 1];
    AccountingAlways(run, actions, clocks, limits, n);
    assert Step(run[n - 1], a, limits, clocks[n - 1], run[n]);
    DueByClose(run[n - 1], a, run[n], limits, clocks[n - 1], id);
    if a.Close? && a.spec.id == id {
      assert LateClosed(run, actions, n - 1, n, id);
    } else {
      DueWasLateClosed(run, actions, clocks, limits, n - 1, id);
      var j :| LateClosed(run, actions, j, n - 1, id);
      assert LateClosed(run, actions, j, n, id);
    }
  }

  /**
  No release is left undone, at any point of any run: a gate is armed with its generation
  applied exactly if it was closed again, while armed, for a generation already applied, and no
  topology has been applied since.
  */
  lemma NothingDueLeft(run: seq<View>, actions: seq<Action>, clocks: seq<Time>, limits: Limits, n: nat, id: GateId)
    requires IsRun(run, actions, clocks, limits) && n <= |actions|
    ensures IsDue(run[n], id) <==> exists j :: LateClosed(run, actions, j, n, id)
  {
    if IsDue(run[n], id) {
      DueWasLateClosed(run, actions, clocks, limits, n, id);
    }
    if j :| LateClosed(run, actions, j, n, id) {
      ArmedSince(run, actions, clocks, limits, j, n, id);
    }
  }

  /** Such a gate exists: closed for generation 1, asked to open, and closed again for generation 0, it stays closed. */
  lemma ClosedAgainIsLeft(limits: Limits) returns (run: seq<View>, actions: seq<Action>, clocks: seq<Time>)
    ensures IsRun(run, actions, clocks, limits) && IsDue(run[|actions|], "")
  {
    var later := Spec("", AllStatements, Matcher(true, [], []), 1, 1);
    var now := later.(minGeneration := 0);
    var empty := View(map[], 0, map[], 0);
    run := [ empty, empty.(gates := map["" := GateState(later, [], false)]), empty.(gates := map["" := GateState(later, [], true)]),
             empty.(gates := map["" := GateState(now, [], true)]) ];
    actions, clocks := [Close(later), Open(""), Close(now)], [0, 0, 0];
  }

  lemma SweepExpires(v: View, now: Time, v': View)
    requires ExpireStep(v, now, v')
    ensures forall id | id in v'.gates :: now < v'.gates[id].spec.deadline
  {
  }

  lemma StepSameDeadlines(v: View, a: Action, v': View, limits: Limits, clock: Time, id: GateId)
    requires Step(v, a, limits, clock, v') && id in v'.gates && !(a.Close? && a.spec.id == id)
    ensures id in v.gates && v'.gates[id].spec == v.gates[id].spec
  {
    hide ParkedSids, Prune, Kept, Popped;
  }

  /**
  After an expiry sweep at time `now`, at every later point of the run a gate past that time is
  one that was closed again since.
  */
  lemma {:induction false} NonePastDeadline(run: seq<View>, actions: seq<Action>, clocks: seq<Time>, limits: Limits, i: nat, n: nat, id: GateId)
    requires IsRun(run, actions, clocks, limits) && i < n <= |actions| && actions[i].ExpireDue?
    requires id in run[n].gates && run[n].gates[id].spec.deadline <= actions[i].now
    ensures exists j :: i < j < n && actions[j].Close? && actions[j].spec.id == id
    decreases n
  {
    var a := actions[n - 1];
    assert Step(run[n - 1], a, limits, clocks[n - 1], run[n]);
    if n == i + 1 {
      SweepExpires(run[i], a.now, run[n]);
    } else if !(a.Close? && a.spec.id == id) {
      StepSameDeadlines(run[n - 1], a, run[n], limits, clocks[n - 1], id);
      NonePastDeadline(run, actions, clocks, limits, i, n - 1, id);
    }
  }

  /** In every run, after an overdue sweep no live session has waited longer than the limit. */
  lemma NoneOverdue(run: seq<View>, actions: seq<Action>, clocks: seq<Time>, limits: Limits, n: nat, id: GateId, i: nat)
    requires IsRun(run, actions, clocks, limits) && n < |actions| && actions[n].RejectOverdue?
    requires id in run[n + 1].gates && i < |run[n + 1].gates[id].parked|
    ensures run[n + 1].gates[id].parked[i].sid !in actions[n].dead
    ensures actions[n].now - run[n + 1].gates[id].parked[i].enqueued <= limits.maxWait
  {
    hide Inv;
    AccountingAlways(run, actions, clocks, limits, n);
    assert Step(run[n], actions[n], limits, clocks[n], run[n + 1]);
    SweepLeaves(run[n], actions[n].now, actions[n].dead, limits, ClockBefore(clocks, n), run[n + 1], id, i);
  }

  lemma SweepLeaves(v: View, now: Time, dead: set<Sid>, limits: Limits, clock: Time, v': View, id: GateId, i: nat)
    requires Inv(v, limits, clock) && RejectStep(v, now, dead, limits, v')
    requires id in v'.gates && i < |v'.gates[id].parked|
    ensures v'.gates[id].parked[i].sid !in dead
    ensures now - v'.gates[id].parked[i].enqueued <= limits.maxWait
  {
    hide QueueOk, ParkedSids, AllApart, Prune, Overdue, Popped;
    var q := v.gates[id].parked;
    var live := Prune(q, dead);
    var n := Overdue(live, now, limits.maxWait);
    assert v'.gates[id].parked[i] == live[n + i];
    PruneKeeps(q, dead, live[n + i]);
    PrunedInOrder(v, q, dead, clock, n, n + i);
  }

  /** And in no run does a sweep reject a session that had not: it was parked, and over the limit at the sweep's time. */
  lemma OnlyOverdueRejected(run: seq<View>, actions: seq<Action>, clocks: seq<Time>, limits: Limits, n: nat, sid: Sid) returns (id: GateId, i: nat)
    requires IsRun(run, actions, clocks, limits) && n < |actions| && actions[n].RejectOverdue?
    requires sid !in run[n].released && sid in run[n + 1].released
    ensures id in run[n].gates && i < |run[n].gates[id].parked| && run[n].gates[id].parked[i].sid == sid
    ensures actions[n].now - run[n].gates[id].parked[i].enqueued > limits.maxWait
    ensures sid !in actions[n].dead && run[n + 1].released[sid] == Rejected
  {
    assert Step(run[n], actions[n], limits, clocks[n], run[n + 1]);
    id, i := SweepRejects(run[n], actions[n].now, actions[n].dead, limits, run[n + 1], sid);
  }

  lemma SweepRejects(v: View, now: Time, dead: set<Sid>, limits: Limits, v': View, sid: Sid) returns (id: GateId, i: nat)
    requires RejectStep(v, now, dead, limits, v') && sid !in v.released && sid in v'.released
    ensures id in v.gates && i < |v.gates[id].parked| && v.gates[id].parked[i].sid == sid
    ensures now - v.gates[id].parked[i].enqueued > limits.maxWait && sid !in dead && v'.released[sid] == Rejected
  {
    id :| id in v.gates && Popped(v.gates[id], now, dead, limits.maxWait, sid);
    var live := Prune(v.gates[id].parked, dead);
    var k :| 0 <= k < Overdue(live, now, limits.maxWait) && live[k].sid == sid;
    PruneKeeps(v.gates[id].parked, dead, live[k]);
    i :| 0 <= i < |v.gates[id].parked| && v.gates[id].parked[i] == live[k];
  }
}
