/**
What a check does, said on the fields of the closed gates and on the live sessions
(`crates/pgshard-gate/src/lib.rs`).
*/
module GateLaws {
  import opened Keyspace
  import opened Gate

  /** The sessions still waiting whose clients have not gone away. */
  ghost function Live(v: View, dead: set<Sid>): set<Sid> {
    ParkedSids(v) - dead
  }

  ghost function LiveIn(q: seq<Parked>, dead: set<Sid>): set<Sid> {
    (set i | 0 <= i < |q| :: q[i].sid) - dead
  }

  ghost predicate Distinct(q: seq<Parked>) {
    forall i, j | 0 <= i < j < |q| :: q[i].sid != q[j].sid
  }

  lemma LiveMore(q: seq<Parked>, p: Parked, dead: set<Sid>)
    ensures LiveIn(q + [p], dead) == LiveIn(q, dead) + ({p.sid} - dead)
  {
    var more := q + [p];
    forall sid | sid in LiveIn(more, dead) ensures sid in LiveIn(q, dead) + ({p.sid} - dead) {
      var i :| 0 <= i < |more| && more[i].sid == sid;
      if i < |q| { assert q[i].sid == sid; }
    }
    forall sid | sid in LiveIn(q, dead) ensures sid in LiveIn(more, dead) {
      var i :| 0 <= i < |q| && q[i].sid == sid;
      assert more[i].sid == sid;
    }
    assert more[|q|].sid == p.sid;
  }

  lemma DistinctInit(q: seq<Parked>, dead: set<Sid>)
    requires q != [] && Distinct(q)
    ensures Distinct(q[..|q| - 1]) && q[|q| - 1].sid !in LiveIn(q[..|q| - 1], dead)
  {
  }

  lemma CountMore(live: set<Sid>, sid: Sid, dead: set<Sid>)
    requires sid !in live
    ensures |live + ({sid} - dead)| == |live| + if sid in dead then 0 else 1
  {
    assert sid in dead ==> live + ({sid} - dead) == live;
    assert sid !in dead ==> live + ({sid} - dead) == live + {sid};
  }

  lemma NoneLive(dead: set<Sid>)
    ensures Prune([], dead) == [] && LiveIn([], dead) == {}
  {
  }

  lemma PrunedMore(q: seq<Parked>, dead: set<Sid>)
    requires q != []
    ensures |Prune(q, dead)| == |Prune(q[..|q| - 1], dead)| + if q[|q| - 1].sid in dead then 0 else 1
  {
  }

  /** A queue of distinct sessions holds as many live ones as pruning leaves. */
  lemma {:induction false} PrunedLength(q: seq<Parked>, dead: set<Sid>)
    requires Distinct(q)
    ensures |Prune(q, dead)| == |LiveIn(q, dead)|
  {
    hide Distinct, LiveIn, Prune;
    if q == [] {
      NoneLive(dead);
    } else {
      var init, last := q[..|q| - 1], q[|q| - 1];
      DistinctInit(q, dead);
      PrunedMore(q, dead);
      PrunedLength(init, dead);
      LiveMore(init, last, dead);
      CountMore(LiveIn(init, dead), last.sid, dead);
      assert q == init + [last];
    }
  }

  lemma PrunedSids(v: View, dead: set<Sid>)
    ensures ParkedSids(AllPruned(v, dead)) == Live(v, dead)
  {
    var p := AllPruned(v, dead);
    forall sid ensures sid in ParkedSids(p) <==> sid in Live(v, dead) {
      if id, i :| id in p.gates && 0 <= i < |p.gates[id].parked| && p.gates[id].parked[i].sid == sid {
        PruneKeeps(v.gates[id].parked, dead, p.gates[id].parked[i]);
      }
      if id, i :| id in v.gates && 0 <= i < |v.gates[id].parked| && v.gates[id].parked[i].sid == sid && sid !in dead {
        PruneKeeps(v.gates[id].parked, dead, v.gates[id].parked[i]);
        assert v.gates[id].parked[i] in p.gates[id].parked;
      }
    }
  }

  /** There is room behind a gate: the live sessions are below both limits. */
  ghost predicate Room(v: View, id: GateId, dead: set<Sid>, limits: Limits)
    requires id in v.gates
  {
    |Live(v, dead)| < limits.maxTotal && |LiveIn(v.gates[id].parked, dead)| < limits.maxSessions
  }

  lemma FullIffNoRoom(v: View, id: GateId, dead: set<Sid>, limits: Limits, clock: Time)
    requires Inv(v, limits, clock) && id in v.gates
    ensures Full(AllPruned(v, dead), id, limits) <==> !Room(v, id, dead, limits)
  {
    PrunedSids(v, dead);
    assert QueueOk(v, v.gates[id].parked, clock);
    PrunedLength(v.gates[id].parked, dead);
  }

  /** The queue keeps its live sessions in order. */
  ghost predicate KeepsLive(before: seq<Parked>, after: seq<Parked>, dead: set<Sid>) {
    SubQueue(after, before) && forall p :: p in after <==> p in before && p.sid !in dead
  }

  /**
  The gate's promise, at every check of every run: a statement goes on exactly if no closed gate
  stops it. A stopped one is numbered, waits at the end of the queue of a gate that stops it if
  the live sessions leave room there, and is rejected if not; nobody else who is alive loses a
  place.
  */
  lemma CheckIsExact(run: seq<View>, actions: seq<Action>, clocks: seq<Time>, limits: Limits, n: nat)
    requires IsRun(run, actions, clocks, limits) && n < |actions| && actions[n].Check?
    ensures var v, v', scope, dead := run[n], run[n + 1], actions[n].scope, actions[n].dead;
      if forall id | id in v.gates :: !Stops(v.gates[id].spec, scope) then v' == v
      else exists id :: id in v.gates && Stops(v.gates[id].spec, scope) && Waits(v, id, dead, limits, clocks[n], v')
  {
    var v, v', scope, dead := run[n], run[n + 1], actions[n].scope, actions[n].dead;
    AccountingAlways(run, actions, clocks, limits, n);
    assert Step(v, actions[n], limits, clocks[n], v');
    forall id | id in v.gates ensures v.gates[id].Applies(scope) <==> Stops(v.gates[id].spec, scope) {
      AppliesIffStops(v.gates[id], scope);
    }
    if id :| id in v.gates && v.gates[id].Applies(scope) && ParkStep(v, id, dead, limits, clocks[n], v') {
      ParkWaits(v, id, dead, limits, ClockBefore(clocks, n), clocks[n], v');
    }
  }

  /** What happens to a statement held at gate `id`. */
  ghost predicate Waits(v: View, id: GateId, dead: set<Sid>, limits: Limits, clock: Time, v': View)
    requires id in v.gates
  {
    && v'.next == v.next + 1 && v'.applied == v.applied && v'.gates.Keys == v.gates.Keys
    && (forall o | o in v.gates :: v'.gates[o] == v.gates[o].(parked := v'.gates[o].parked))
    && (forall o | o in v.gates && o != id :: KeepsLive(v.gates[o].parked, v'.gates[o].parked, dead))
    && if Room(v, id, dead, limits) then
         && v'.released == v.released
         && v'.gates[id].parked != []
         && var last := |v'.gates[id].parked| - 1;
            v'.gates[id].parked[last] == Parked(v.next, clock) && KeepsLive(v.gates[id].parked, v'.gates[id].parked[..last], dead)
       else v'.released == v.released[v.next := Rejected] && KeepsLive(v.gates[id].parked, v'.gates[id].parked, dead)
  }

  lemma PruneKeepsLive(q: seq<Parked>, dead: set<Sid>)
    ensures KeepsLive(q, Prune(q, dead), dead)
  {
    PruneSub(q, dead);
    forall p ensures p in Prune(q, dead) <==> p in q && p.sid !in dead { PruneKeeps(q, dead, p); }
  }

  /** Every queue keeps its live sessions, and nothing else changes. */
  ghost predicate Pruned(v: View, dead: set<Sid>, p: View) {
    && p == v.(gates := p.gates) && p.gates.Keys == v.gates.Keys
    && forall o | o in v.gates :: p.gates[o] == v.gates[o].(parked := p.gates[o].parked) && KeepsLive(v.gates[o].parked, p.gates[o].parked, dead)
  }

  lemma AllPrunedIs(v: View, dead: set<Sid>)
    ensures Pruned(v, dead, AllPruned(v, dead))
  {
    hide KeepsLive;
    forall o | o in v.gates ensures KeepsLive(v.gates[o].parked, AllPruned(v, dead).gates[o].parked, dead) {
      PruneKeepsLive(v.gates[o].parked, dead);
    }
  }

  lemma ParkedWaits(v: View, id: GateId, dead: set<Sid>, limits: Limits, clock: Time, p: View, v': View)
    requires id in v.gates && Room(v, id, dead, limits) && Pruned(v, dead, p)
    requires v' == p.(gates := p.gates[id := p.gates[id].(parked := p.gates[id].parked + [Parked(p.next, clock)])], next := p.next + 1)
    ensures Waits(v, id, dead, limits, clock, v')
  {
    hide Room, KeepsLive;
    var q := p.gates[id].parked;
    assert (q + [Parked(p.next, clock)])[..|q|] == q;
  }

  lemma RejectedWaits(v: View, id: GateId, dead: set<Sid>, limits: Limits, clock: Time, p: View, v': View)
    requires id in v.gates && !Room(v, id, dead, limits) && Pruned(v, dead, p)
    requires v' == p.(released := p.released[p.next := Rejected], next := p.next + 1)
    ensures Waits(v, id, dead, limits, clock, v')
  {
    hide Room, KeepsLive;
  }

  lemma ParkWaits(v: View, id: GateId, dead: set<Sid>, limits: Limits, before: Time, clock: Time, v': View)
    requires Inv(v, limits, before) && id in v.gates && ParkStep(v, id, dead, limits, clock, v')
    ensures Waits(v, id, dead, limits, clock, v')
  {
    hide Inv, Full, Room, Waits, Pruned, AllPruned;
    FullIffNoRoom(v, id, dead, limits, before);
    AllPrunedIs(v, dead);
    if Room(v, id, dead, limits) {
      ParkedWaits(v, id, dead, limits, clock, AllPruned(v, dead), v');
    } else {
      RejectedWaits(v, id, dead, limits, clock, AllPruned(v, dead), v');
    }
  }

  // ----------------------------------------------------- an opened gate lets go

  ghost predicate Behind(v: View, id: GateId, sid: Sid) {
    id in v.gates && v.gates[id].Holds(sid)
  }

  /** A session that is not behind a gate does not come to be: a queue takes in only new ones. */
  lemma StaysAway(v: View, a: Action, v': View, limits: Limits, clock: Time, id: GateId, sid: Sid)
    requires Step(v, a, limits, clock, v') && sid < v.next && !Behind(v, id, sid)
    ensures v.next <= v'.next && !Behind(v', id, sid)
  {
    hide Drains, Kept, Popped, ParkStep, CheckStep;
    match a
    case Close(_) =>
    case Open(_) => SameOrGone(v, a, v', limits, clock, id);
    case TopologyApplied(_) => SameOrGone(v, a, v', limits, clock, id);
    case ExpireDue(_) => SameOrGone(v, a, v', limits, clock, id);
    case Check(scope, dead) => CheckAway(v, scope, dead, v', limits, clock, id, sid);
    case RejectOverdue(now, dead) => if id in v'.gates { KeptSub(v.gates[id], now, dead, limits.maxWait); }
  }

  lemma SameOrGone(v: View, a: Action, v': View, limits: Limits, clock: Time, id: GateId)
    requires Step(v, a, limits, clock, v') && (a.Open? || a.TopologyApplied? || a.ExpireDue?)
    ensures v'.next == v.next && (id in v'.gates ==> id in v.gates && v'.gates[id].parked == v.gates[id].parked)
  {
  }

  lemma CheckAway(v: View, scope: Scope, dead: set<Sid>, v': View, limits: Limits, clock: Time, id: GateId, sid: Sid)
    requires CheckStep(v, scope, dead, limits, clock, v') && sid < v.next && !Behind(v, id, sid)
    ensures v.next <= v'.next && !Behind(v', id, sid)
  {
    if v' != v {
      hide ParkStep;
      var o :| o in v.gates && v.gates[o].Applies(scope) && ParkStep(v, o, dead, limits, clock, v');
      ParkAway(v, o, dead, v', limits, clock, id, sid);
    }
  }

  lemma ParkAway(v: View, o: GateId, dead: set<Sid>, v': View, limits: Limits, clock: Time, id: GateId, sid: Sid)
    requires o in v.gates && ParkStep(v, o, dead, limits, clock, v') && sid < v.next && !Behind(v, id, sid)
    ensures v.next <= v'.next && !Behind(v', id, sid)
  {
    hide Full, Prune;
    if id in v.gates {
      var q := Prune(v.gates[id].parked, dead);
      assert AllPruned(v, dead).gates[id].parked == q;
      forall i | 0 <= i < |q| ensures q[i].sid != sid {
        PruneKeeps(v.gates[id].parked, dead, q[i]);
      }
      assert v'.gates[id].parked == q || v'.gates[id].parked == q + [Parked(v.next, clock)];
    }
  }

  /** Armed, or the session is gone from it. */
  ghost predicate ArmedOrAway(v: View, id: GateId, sid: Sid) {
    Behind(v, id, sid) ==> v.gates[id].openRequested
  }

  lemma ArmedStep(v: View, a: Action, v': View, limits: Limits, clock: Time, id: GateId, sid: Sid)
    requires Step(v, a, limits, clock, v') && sid < v.next && ArmedOrAway(v, id, sid)
    ensures v.next <= v'.next && ArmedOrAway(v', id, sid)
  {
    if Behind(v, id, sid) {
      ArmedStays(v, a, v', limits, clock, id);
    } else {
      StaysAway(v, a, v', limits, clock, id, sid);
    }
  }

  lemma ArmedStays(v: View, a: Action, v': View, limits: Limits, clock: Time, id: GateId)
    requires Step(v, a, limits, clock, v') && id in v.gates && v.gates[id].openRequested
    ensures v.next <= v'.next && (id in v'.gates ==> v'.gates[id].openRequested)
  {
    hide Prune, Kept, Popped, ParkedSids;
  }

  lemma {:induction false} ArmedSinceOpen(run: seq<View>, actions: seq<Action>, clocks: seq<Time>, limits: Limits, i: nat, n: nat, id: GateId, sid: Sid)
    requires IsRun(run, actions, clocks, limits) && i < n <= |actions| && actions[i] == Open(id) && sid < run[i].next
    ensures sid < run[n].next && ArmedOrAway(run[n], id, sid)
    decreases n
  {
    hide Step;
    var v, a, v' := run[n - 1], actions[n - 1], run[n];
    assert Step(v, a, limits, clocks[n - 1], v');
    if n == i + 1 {
      OpenArms(v, id, limits, clocks[i], v');
    } else {
      ArmedSinceOpen(run, actions, clocks, limits, i, n - 1, id, sid);
      ArmedStep(v, a, v', limits, clocks[n - 1], id, sid);
    }
  }

  lemma OpenArms(v: View, id: GateId, limits: Limits, clock: Time, v': View)
    requires Step(v, Open(id), limits, clock, v')
    ensures v'.next == v.next && (id in v'.gates ==> v'.gates[id].openRequested)
  {
  }

  /**
  A gate that was opened lets its sessions go: in every run, once it was asked to open, a topology
  that reaches its generation leaves no session behind it that had been there before. With the
  conservation of sessions, each was released or its client is gone.
  */
  lemma OpenedLetsGo(run: seq<View>, actions: seq<Action>, clocks: seq<Time>, limits: Limits, i: nat, j: nat, id: GateId, sid: Sid)
    requires IsRun(run, actions, clocks, limits) && i < j < |actions| && actions[i] == Open(id) && actions[j].TopologyApplied?
    requires Behind(run[i], id, sid)
    requires id in run[j].gates ==> run[j].gates[id].spec.minGeneration <= run[j + 1].applied
    ensures !Behind(run[j + 1], id, sid)
  {
    AccountingAlways(run, actions, clocks, limits, i);
    hide Step;
    ArmedSinceOpen(run, actions, clocks, limits, i, j, id, sid);
    assert Step(run[j], actions[j], limits, clocks[j], run[j + 1]);
    if Behind(run[j], id, sid) {
      DueGoes(run[j], actions[j].generation, limits, clocks[j], run[j + 1], id);
    } else {
      StaysAway(run[j], actions[j], run[j + 1], limits, clocks[j], id, sid);
    }
  }

  lemma DueGoes(v: View, generation: U64, limits: Limits, clock: Time, v': View, id: GateId)
    requires Step(v, TopologyApplied(generation), limits, clock, v')
    requires id in v.gates && v.gates[id].openRequested && v.gates[id].spec.minGeneration <= v'.applied
    ensures id !in v'.gates
  {
  }

  /** Asked to open in time with its generation applied, it lets go at once, and everyone behind it plans again. */
  lemma OpenReleasesNow(run: seq<View>, actions: seq<Action>, clocks: seq<Time>, limits: Limits, i: nat, id: GateId, sid: Sid)
    requires IsRun(run, actions, clocks, limits) && i < |actions| && actions[i] == Open(id) && Behind(run[i], id, sid)
    requires run[i].gates[id].spec.minGeneration <= run[i].applied
    ensures id !in run[i + 1].gates && sid in run[i + 1].released
    ensures run[i + 1].released[sid] == if clocks[i] < run[i].gates[id].spec.deadline then Replan(run[i].applied) else Expired
  {
    assert Step(run[i], actions[i], limits, clocks[i], run[i + 1]);
  }

  /** The applied generation is the highest the router was told of. */
  lemma {:induction false} AppliedIsHighest(run: seq<View>, actions: seq<Action>, clocks: seq<Time>, limits: Limits, n: nat)
    requires IsRun(run, actions, clocks, limits) && n <= |actions|
    ensures forall i | 0 <= i < n && actions[i].TopologyApplied? :: actions[i].generation <= run[n].applied
    ensures run[n].applied == 0 || exists i :: 0 <= i < n && actions[i] == TopologyApplied(run[n].applied)
  {
    if n > 0 {
      AppliedIsHighest(run, actions, clocks, limits, n - 1);
      assert Step(run[n - 1], actions[n - 1], limits, clocks[n - 1], run[n]);
      AppliedStep(run[n - 1], actions[n - 1], limits, clocks[n - 1], run[n]);
      hide Step;
    }
  }

  lemma AppliedStep(v: View, a: Action, limits: Limits, clock: Time, v': View)
    requires Step(v, a, limits, clock, v')
    ensures v'.applied == if a.TopologyApplied? && a.generation > v.applied then a.generation else v.applied
  {
    hide Drains, Kept, Popped, Prune, ParkedSids;
  }
}
