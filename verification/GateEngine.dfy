/**
The gate engine: a vector of gates scanned and shrunk in place
(`crates/pgshard-gate/src/lib.rs`), proved against the steps of `Gate`.
*/
module GateEngine {
  import opened Wrappers
  import opened Keyspace
  import opened Gate
  import opened GateLaws

  // ------------------------------------------------- the vector and its view

  /** The vector holds each gate of the map once, under its id. */
  ghost predicate Represents(gates: seq<GateState>, m: map<GateId, GateState>) {
    && (forall i, j | 0 <= i < j < |gates| :: gates[i].spec.id != gates[j].spec.id)
    && (forall i | 0 <= i < |gates| :: gates[i].spec.id in m && m[gates[i].spec.id] == gates[i])
    && (forall id | id in m :: HasGate(gates, id))
  }

  ghost predicate HasGate(gates: seq<GateState>, id: GateId) {
    exists i :: 0 <= i < |gates| && gates[i].spec.id == id
  }

  function SwapRemove<T>(s: seq<T>, i: nat): (r: seq<T>)
    requires i < |s|
    ensures |r| == |s| - 1
    ensures forall k | 0 <= k < |r| :: r[k] == if k == i then s[|s| - 1] else s[k]
  {
    s[i := s[|s| - 1]][..|s| - 1]
  }

  lemma SwapRemoveRepresents(gates: seq<GateState>, m: map<GateId, GateState>, i: nat)
    requires Represents(gates, m) && i < |gates|
    ensures Represents(SwapRemove(gates, i), m - {gates[i].spec.id})
  {
    var r := SwapRemove(gates, i);
    forall id | id in m && id != gates[i].spec.id ensures HasGate(r, id) {
      var j :| 0 <= j < |gates| && gates[j].spec.id == id;
      if j == |gates| - 1 { assert r[i].spec.id == id; } else { assert r[j].spec.id == id; }
    }
  }

  lemma UpdateRepresents(gates: seq<GateState>, m: map<GateId, GateState>, i: nat, g: GateState)
    requires Represents(gates, m) && i < |gates| && g.spec.id == gates[i].spec.id
    ensures Represents(gates[i := g], m[g.spec.id := g])
  {
    var r := gates[i := g];
    forall id | id in m ensures HasGate(r, id) {
      var j :| 0 <= j < |gates| && gates[j].spec.id == id;
      assert r[j].spec.id == id;
    }
  }

  lemma PushRepresents(gates: seq<GateState>, m: map<GateId, GateState>, g: GateState)
    requires Represents(gates, m) && g.spec.id !in m
    ensures Represents(gates + [g], m[g.spec.id := g])
  {
    var r := gates + [g];
    assert r[|gates|] == g;
    forall id | id in m ensures HasGate(r, id) {
      var j :| 0 <= j < |gates| && gates[j].spec.id == id;
      assert r[j].spec.id == id;
    }
  }

  // ----------------------------------------------------------- counting

  function TotalParked(gates: seq<GateState>): nat {
    if gates == [] then 0 else TotalParked(gates[..|gates| - 1]) + |gates[|gates| - 1].parked|
  }

  ghost function QueueSids(q: seq<Parked>): set<Sid> {
    set i | 0 <= i < |q| :: q[i].sid
  }

  lemma {:induction false} QueueCount(q: seq<Parked>)
    requires forall i, j | 0 <= i < j < |q| :: q[i].sid != q[j].sid
    ensures |QueueSids(q)| == |q|
  {
    if q != [] {
      var n := |q| - 1;
      QueueCount(q[..n]);
      assert QueueSids(q) == QueueSids(q[..n]) + {q[n].sid} by {
        forall sid | sid in QueueSids(q) ensures sid in QueueSids(q[..n]) + {q[n].sid} {
          var i :| 0 <= i < |q| && q[i].sid == sid;
          if i < n { assert q[..n][i].sid == sid; }
        }
        forall sid | sid in QueueSids(q[..n]) ensures sid in QueueSids(q) {
          var i :| 0 <= i < n && q[..n][i].sid == sid;
          assert q[i].sid == sid;
        }
      }
    }
  }

  ghost function SidsUpTo(gates: seq<GateState>, n: nat): set<Sid>
    requires n <= |gates|
  {
    if n == 0 then {} else SidsUpTo(gates, n - 1) + QueueSids(gates[n - 1].parked)
  }

  lemma {:induction false} SidsUpToIs(gates: seq<GateState>, n: nat, sid: Sid)
    requires n <= |gates|
    ensures sid in SidsUpTo(gates, n) <==> exists k :: 0 <= k < n && sid in QueueSids(gates[k].parked)
  {
    if n > 0 { SidsUpToIs(gates, n - 1, sid); }
  }

  ghost predicate DistinctSids(gates: seq<GateState>) {
    && (forall k, i, j | 0 <= k < |gates| && 0 <= i < j < |gates[k].parked| :: gates[k].parked[i].sid != gates[k].parked[j].sid)
    && (forall k, l | 0 <= k < l < |gates| :: Apart(gates[k].parked, gates[l].parked))
  }

  lemma {:induction false} TotalIsCount(gates: seq<GateState>, n: nat)
    requires DistinctSids(gates) && n <= |gates|
    ensures TotalParked(gates[..n]) == |SidsUpTo(gates, n)|
  {
    if n > 0 {
      TotalIsCount(gates, n - 1);
      assert gates[..n][..n - 1] == gates[..n - 1];
      QueueCount(gates[n - 1].parked);
      var seen, last := SidsUpTo(gates, n - 1), QueueSids(gates[n - 1].parked);
      assert seen !! last by {
        forall sid | sid in seen ensures sid !in last {
          SidsUpToIs(gates, n - 1, sid);
          var k :| 0 <= k < n - 1 && sid in QueueSids(gates[k].parked);
          assert Apart(gates[k].parked, gates[n - 1].parked);
        }
      }
    }
  }

  /** The vector's total is the number of parked sessions. */
  lemma {:induction false} TotalOfView(gates: seq<GateState>, v: View)
    requires Represents(gates, v.gates) && DistinctSids(gates)
    ensures TotalParked(gates) == |ParkedSids(v)|
  {
    TotalIsCount(gates, |gates|);
    assert gates[..|gates|] == gates;
    forall sid ensures sid in SidsUpTo(gates, |gates|) <==> sid in ParkedSids(v) {
      SidOfView(gates, v, sid);
    }
    assert SidsUpTo(gates, |gates|) == ParkedSids(v);
  }

  lemma {:induction false} SidOfView(gates: seq<GateState>, v: View, sid: Sid)
    requires Represents(gates, v.gates)
    ensures sid in SidsUpTo(gates, |gates|) <==> sid in ParkedSids(v)
  {
    SidsUpToIs(gates, |gates|, sid);
    if sid in ParkedSids(v) {
      var id, i :| id in v.gates && 0 <= i < |v.gates[id].parked| && v.gates[id].parked[i].sid == sid;
      assert HasGate(gates, id);
      var k :| 0 <= k < |gates| && gates[k].spec.id == id;
      assert sid in QueueSids(gates[k].parked);
    }
    if sid in SidsUpTo(gates, |gates|) {
      var k :| 0 <= k < |gates| && sid in QueueSids(gates[k].parked);
      var i :| 0 <= i < |gates[k].parked| && gates[k].parked[i].sid == sid;
      assert v.gates[gates[k].spec.id].parked[i].sid == sid;
    }
  }

  lemma InvDistinct(gates: seq<GateState>, v: View, clock: Time)
    requires Represents(gates, v.gates) && QueuesOk(v, clock) && AllApart(v)
    ensures DistinctSids(gates)
  {
    forall k, i, j | 0 <= k < |gates| && 0 <= i < j < |gates[k].parked|
      ensures gates[k].parked[i].sid != gates[k].parked[j].sid
    {
      assert QueueOk(v, v.gates[gates[k].spec.id].parked, clock);
    }
    forall k, l | 0 <= k < l < |gates| ensures Apart(gates[k].parked, gates[l].parked) {
      assert Apart(v.gates[gates[k].spec.id].parked, v.gates[gates[l].spec.id].parked);
    }
  }

  // ------------------------------------------------------------- sweeping

  /** `v'` is `v` with gate `id` removed and its sessions sent `release`. */
  ghost predicate Drained(v: View, id: GateId, release: Release, v': View)
    requires id in v.gates
  {
    && v'.next == v.next && v'.applied == v.applied
    && v'.gates == v.gates - {id}
    && (forall sid | sid in v.released :: sid in v'.released && v'.released[sid] == v.released[sid])
    && (forall sid | v.gates[id].Holds(sid) :: sid in v'.released && v'.released[sid] == release)
    && (forall sid | sid in v'.released :: sid in v.released || v.gates[id].Holds(sid))
  }

  /** Draining one more gate extends what has been drained since `v0`. */
  lemma DrainMore(v0: View, gone: set<GateId>, applied: U64, now: Time, v: View, id: GateId, v': View)
    requires Drains(v0, gone, applied, now, v) && id in v.gates
    requires Drained(v, id, Outcome(v.gates[id], applied, now), v')
    ensures Drains(v0, gone + {id}, applied, now, v')
  {
    assert v'.gates == (map k | k in v0.gates && k !in gone + {id} :: v0.gates[k]);
    forall sid | sid in v'.released
      ensures sid in v0.released || exists k :: k in v0.gates && k in gone + {id} && v0.gates[k].Holds(sid)
    {
      if sid !in v.released {
        assert v0.gates[id].Holds(sid);
      } else if sid !in v0.released {
        var k :| k in v0.gates && k in gone && v0.gates[k].Holds(sid);
        assert k in gone + {id};
      }
    }
  }

  lemma DrainNone(v: View, applied: U64, now: Time)
    ensures Drains(v, {}, applied, now, v)
  {
  }

  /** A sweep that reached the end drained every gate it looks for. */
  lemma SweepDone(v0: View, gone: set<GateId>, due: set<GateId>, applied: U64, now: Time, v: View, gates: seq<GateState>)
    requires Drains(v0, gone, applied, now, v) && Represents(gates, v.gates) && gone <= due
    requires forall k | 0 <= k < |gates| :: gates[k].spec.id !in due
    ensures Drains(v0, due, applied, now, v)
  {
    forall id | id in v0.gates ensures id in gone <==> id in due {
      if id !in gone { assert id in v.gates && HasGate(gates, id); }
    }
  }

  lemma FirstQueueOk(gates: seq<GateState>, v: View, limits: Limits, clock: Time, k: nat)
    requires Represents(gates, v.gates) && Inv(v, limits, clock) && k < |gates|
    ensures forall i, j | 0 <= i < j < |gates[k].parked| :: gates[k].parked[i].sid != gates[k].parked[j].sid
    ensures forall i | 0 <= i < |gates[k].parked| :: gates[k].parked[i].sid !in v.released
  {
    assert QueueOk(v, v.gates[gates[k].spec.id].parked, clock);
  }

  // ------------------------------------------------------------- the engine

  class Engine {
    const limits: Limits
    var gates: seq<GateState>
    var applied: U64
    /** What was sent on each one-shot channel, and the next channel. */
    var released: map<Sid, Release>
    var next: Sid

    ghost var view: map<GateId, GateState>
    ghost var clock: Time

    ghost predicate Valid()
      reads this
    {
      Represents(gates, view) && Inv(Seen(), limits, clock)
    }

    ghost function Seen(): View
      reads this
    {
      View(view, applied, released, next)
    }

    constructor(limits: Limits)
      ensures Valid() && Init(Seen()) && this.limits == limits
    {
      this.limits := limits;
      gates := [];
      applied := 0;
      released := map[];
      next := 0;
      view := map[];
      clock := 0;
      new;
      assert ParkedSids(Seen()) == {};
    }

    /** A session's channel carries one message. */
    method Send(sid: Sid, release: Release)
      requires sid !in released
      modifies this`released
      ensures released == old(released)[sid := release]
    {
      released := released[sid := release];
    }

    /** Removes `gates[idx]` and sends its sessions `release`, front to back. */
    method DrainGate(idx: nat, release: Release)
      requires Represents(gates, view) && idx < |gates|
      requires forall i, j | 0 <= i < j < |gates[idx].parked| :: gates[idx].parked[i].sid != gates[idx].parked[j].sid
      requires forall i | 0 <= i < |gates[idx].parked| :: gates[idx].parked[i].sid !in released
      modifies this`gates, this`released, this`view
      ensures Represents(gates, view) && gates == SwapRemove(old(gates), idx)
      ensures old(gates[idx].spec.id) in old(view) && Drained(old(Seen()), old(gates[idx].spec.id), release, Seen())
    {
      var gate := gates[idx];
      SwapRemoveRepresents(gates, view, idx);
      view := view - {gate.spec.id};
      gates := SwapRemove(gates, idx);
      for i := 0 to |gate.parked|
        invariant Represents(gates, view) && gates == SwapRemove(old(gates), idx) && view == old(view) - {gate.spec.id}
        invariant forall sid | sid in old(released) :: sid in released && released[sid] == old(released)[sid]
        invariant forall k | 0 <= k < i :: gate.parked[k].sid in released && released[gate.parked[k].sid] == release
        invariant forall sid | sid in released :: sid in old(released) || gate.Holds(sid)
        invariant forall k | i <= k < |gate.parked| :: gate.parked[k].sid !in released
      {
        Send(gate.parked[i].sid, release);
      }
    }

    /** Records the applied generation and releases every gate that was waiting for it. */
    method TopologyApplied(generation: U64, now: Time)
      requires Valid() && clock <= now
      modifies this
      ensures Valid() && clock == now
      ensures Step(old(Seen()), Gate.TopologyApplied(generation), limits, now, Seen())
    {
      hide Inv, Drains, Drained, Represents;
      ghost var v0 := Seen();
      if generation > applied {
        applied := generation;
      }
      ghost var start := Seen();
      ghost var due, gone := Due(start, applied), {};
      AppliedKeeps(v0, start, limits, clock);
      DrainNone(start, applied, now);
      var idx := 0;
      while idx < |gates|
        invariant idx <= |gates| && Represents(gates, view) && applied == start.applied && clock == old(clock)
        invariant gone <= due && Drains(start, gone, applied, now, Seen())
        invariant forall k | 0 <= k < idx :: gates[k].spec.id !in due
        decreases |gates| - idx
      {
        ghost var v := Seen();
        DrainsKeeps(start, gone, applied, now, v, limits, clock, clock);
        AtIndex(gates, v, start, gone, applied, now, idx);
        if gates[idx].openRequested && gates[idx].spec.minGeneration <= applied {
          FirstQueueOk(gates, v, limits, clock, idx);
          ghost var id := gates[idx].spec.id;
          var release := if gates[idx].spec.deadline <= now then Expired else Replan(applied);
          DrainGate(idx, release);
          DrainMore(start, gone, applied, now, v, id, Seen());
          gone := gone + {id};
        } else {
          idx := idx + 1;
        }
      }
      SweepDone(start, gone, due, applied, now, Seen(), gates);
      DrainsFrom(v0, start, due, applied, now, Seen());
      StepKeeps(v0, Gate.TopologyApplied(generation), Seen(), limits, clock, now);
      clock := now;
    }

    /** The first gate with this id. */
    method Position(id: GateId) returns (idx: nat)
      requires Represents(gates, view)
      ensures idx <= |gates|
      ensures idx < |gates| ==> gates[idx].spec.id == id && id in view && view[id] == gates[idx]
      ensures idx == |gates| ==> id !in view
    {
      idx := 0;
      while idx < |gates| && gates[idx].spec.id != id
        invariant idx <= |gates| && forall k | 0 <= k < idx :: gates[k].spec.id != id
      {
        idx := idx + 1;
      }
      assert id in view ==> HasGate(gates, id);
    }

    /** Installs or replaces a gate; a replaced gate keeps its sessions and its pending open. */
    method Close(spec: Spec, now: Time)
      requires Valid() && clock <= now
      modifies this
      ensures Valid() && clock == now
      ensures Step(old(Seen()), Gate.Close(spec), limits, now, Seen())
    {
      hide Inv, Represents;
      ghost var v := Seen();
      var idx := Position(spec.id);
      if idx < |gates| {
        var g := gates[idx].(spec := spec);
        UpdateRepresents(gates, view, idx, g);
        gates := gates[idx := g];
        view := view[spec.id := g];
      } else {
        var g := GateState(spec, [], false);
        PushRepresents(gates, view, g);
        gates := gates + [g];
        view := view[spec.id := g];
      }
      StepKeeps(v, Gate.Close(spec), Seen(), limits, clock, now);
      clock := now;
    }

    /** Opens a gate, arms it until its generation lands, or expires it after the deadline. */
    method Open(id: GateId, now: Time)
      requires Valid() && clock <= now
      modifies this
      ensures Valid() && clock == now
      ensures Step(old(Seen()), Gate.Open(id), limits, now, Seen())
    {
      hide Inv, Represents, Drains, Drained;
      ghost var v := Seen();
      var idx := Position(id);
      if idx < |gates| {
        FirstQueueOk(gates, v, limits, clock, idx);
        DrainNone(v, applied, now);
        if gates[idx].spec.deadline <= now {
          DrainGate(idx, Expired);
          DrainMore(v, {}, applied, now, v, id, Seen());
          assert {} + {id} == {id};
        } else if gates[idx].spec.minGeneration > applied {
          var g := gates[idx].(openRequested := true);
          UpdateRepresents(gates, view, idx, g);
          gates := gates[idx := g];
          view := view[id := g];
        } else {
          DrainGate(idx, Replan(applied));
          DrainMore(v, {}, applied, now, v, id, Seen());
          assert {} + {id} == {id};
        }
      }
      StepKeeps(v, Gate.Open(id), Seen(), limits, clock, now);
      clock := now;
    }

    /** The first gate that applies to a statement. */
    method FirstApplying(scope: Scope) returns (idx: nat)
      requires Represents(gates, view)
      ensures idx <= |gates| && forall k | 0 <= k < idx :: !Stops(gates[k].spec, scope)
      ensures idx < |gates| ==> FirstStop(gates, scope, idx) && Stops(gates[idx].spec, scope) && gates[idx].Applies(scope)
      ensures idx < |gates| ==> gates[idx].spec.id in view && view[gates[idx].spec.id] == gates[idx]
      ensures idx == |gates| ==> forall id | id in view :: !view[id].Applies(scope)
    {
      hide Stops;
      idx := 0;
      while idx < |gates| && !gates[idx].Applies(scope)
        invariant idx <= |gates| && forall k | 0 <= k < idx :: !gates[k].Applies(scope) && !Stops(gates[k].spec, scope)
      {
        AppliesIffStops(gates[idx], scope);
        idx := idx + 1;
      }
      if idx == |gates| {
        forall id | id in view ensures !view[id].Applies(scope) { assert HasGate(gates, id); }
      } else {
        AppliesIffStops(gates[idx], scope);
      }
    }

    /** Prunes disconnected sessions from every gate. */
    method PruneAll(dead: set<Sid>)
      requires Represents(gates, view)
      modifies this`gates, this`view
      ensures Represents(gates, view) && Seen() == AllPruned(old(Seen()), dead)
      ensures |gates| == |old(gates)| && forall j | 0 <= j < |gates| :: gates[j].spec == old(gates)[j].spec
    {
      hide Prune;
      ghost var v := Seen();
      ghost var was := gates;
      for k := 0 to |gates|
        invariant |gates| == |was| && view == v.gates
        invariant forall j | 0 <= j < k :: gates[j] == was[j].(parked := Prune(was[j].parked, dead))
        invariant forall j | k <= j < |gates| :: gates[j] == was[j]
      {
        gates := gates[k := gates[k].(parked := Prune(gates[k].parked, dead))];
      }
      PrunedRepresents(was, v, dead, gates);
      view := AllPruned(v, dead).gates;
    }

    /** Parks a statement behind the first gate that applies, or rejects it when there is no room. */
    method Check(scope: Scope, dead: set<Sid>, now: Time) returns (waits: Option<Sid>)
      requires Valid() && clock <= now
      modifies this
      ensures Valid() && clock == now
      ensures Step(old(Seen()), Gate.Check(scope, dead), limits, now, Seen())
      ensures waits.None? <==> forall k | 0 <= k < |old(gates)| :: !Stops(old(gates)[k].spec, scope)
      ensures waits.Some? ==> waits.value == old(next)
      ensures waits.Some? ==> HeldByFirst(old(gates), old(Seen()), scope, dead, limits, now, Seen())
    {
      hide Inv, Represents, Prune, ParkedSids, AllPruned, Stops, Waits, FirstStop;
      ghost var v := Seen();
      var idx := FirstApplying(scope);
      if idx == |gates| {
        StepKeeps(v, Gate.Check(scope, dead), Seen(), limits, clock, now);
        clock := now;
        return None;
      }
      var id := gates[idx].spec.id;
      assert Stops(old(gates)[idx].spec, scope);
      PruneAll(dead);
      PrunedCount(v, dead, gates, limits, clock);
      GateAt(gates, view, idx);
      waits := Some(next);
      if TotalParked(gates) >= limits.maxTotal || |gates[idx].parked| >= limits.maxSessions {
        released := released[next := Rejected];
      } else {
        var g := gates[idx].(parked := gates[idx].parked + [Parked(next, now)]);
        UpdateRepresents(gates, view, idx, g);
        gates := gates[idx := g];
        view := view[id := g];
      }
      next := next + 1;
      ParkWaits(v, id, dead, limits, clock, now, Seen());
      Parks(v, scope, id, dead, limits, now, Seen());
      StepKeeps(v, Gate.Check(scope, dead), Seen(), limits, clock, now);
      clock := now;
    }

    /** Drops dead sessions and rejects the overdue front of each queue; counts the rejected. */
    method RejectOverdueSessions(now: Time, dead: set<Sid>, ghost at: Time) returns (rejected: nat)
      requires Valid() && clock <= at && now <= at
      modifies this
      ensures Valid() && clock == at
      ensures Step(old(Seen()), RejectOverdue(now, dead), limits, at, Seen())
      ensures |released| == |old(released)| + rejected
    {
      hide Inv, Represents, Rejecting, Kept;
      ghost var v := Seen();
      ghost var was := gates;
      rejected := 0;
      NoneRejected(v, was, now, dead, limits.maxWait);
      for k := 0 to |gates|
        invariant |gates| == |was|
        invariant forall j | 0 <= j < k :: gates[j] == was[j].(parked := Kept(was[j], now, dead, limits.maxWait))
        invariant forall j | k <= j < |gates| :: gates[j] == was[j]
        invariant next == v.next && applied == v.applied && view == v.gates && clock == old(clock)
        invariant Rejecting(v, was, k, now, dead, limits.maxWait, released)
        invariant |released| == |old(released)| + rejected
      {
        var kept, popped := this.PopOverdue(was, k, now, dead, v);
        gates := gates[k := gates[k].(parked := kept)];
        rejected := rejected + popped;
      }
      view := map id | id in v.gates :: v.gates[id].(parked := Kept(v.gates[id], now, dead, limits.maxWait));
      KeptRepresents(was, v, now, dead, limits.maxWait, gates, view);
      RejectDone(v, was, now, dead, limits, released, Seen());
      StepKeeps(v, RejectOverdue(now, dead), Seen(), limits, clock, at);
      clock := at;
    }

    /** The inner loop: pops and rejects overdue sessions from the front of one pruned queue. */
    method PopOverdue(ghost was: seq<GateState>, k: nat, now: Time, dead: set<Sid>, ghost v: View)
      returns (parked: seq<Parked>, popped: nat)
      requires k < |gates| && k < |was| && gates[k] == was[k]
      requires Represents(was, v.gates) && Inv(v, limits, clock)
      requires Rejecting(v, was, k, now, dead, limits.maxWait, released)
      modifies this`released
      ensures parked == Kept(was[k], now, dead, limits.maxWait)
      ensures Rejecting(v, was, k + 1, now, dead, limits.maxWait, released)
      ensures |released| == |old(released)| + popped
    {
      hide Inv, Represents, Rejecting, Prune, Overdue, Popping;
      parked := Prune(gates[k].parked, dead);
      popped := 0;
      ghost var live := parked;
      NonePopped(released, live);
      while |parked| > 0 && now - parked[0].enqueued > limits.maxWait
        invariant popped <= Overdue(live, now, limits.maxWait) && parked == live[popped..]
        invariant |released| == |old(released)| + popped
        invariant Popping(old(released), released, live, popped)
        decreases |parked|
      {
        FrontIsFresh(was, v, k, now, dead, limits, clock, old(released), released, popped);
        PopMore(old(released), released, live, popped);
        Send(parked[0].sid, Rejected);
        parked := parked[1..];
        popped := popped + 1;
      }
      PoppedAll(was, v, k, now, dead, limits.maxWait, old(released), released, popped);
    }

    /** Expires every gate past its deadline; counts them. `now` is the tick's reading, not after `at`. */
    method ExpireDue(now: Time, ghost at: Time) returns (expired: nat)
      requires Valid() && clock <= at && now <= at
      modifies this
      ensures Valid() && clock == at
      ensures Step(old(Seen()), Gate.ExpireDue(now), limits, at, Seen())
      ensures expired == |PastDeadline(old(Seen()), now)|
    {
      hide Inv, Drains, Drained, Represents;
      ghost var start := Seen();
      ghost var due, gone := PastDeadline(start, now), {};
      DrainNone(start, applied, now);
      expired := 0;
      var idx := 0;
      while idx < |gates|
        invariant idx <= |gates| && Represents(gates, view) && applied == start.applied && clock == old(clock)
        invariant gone <= due && Drains(start, gone, applied, now, Seen()) && expired == |gone|
        invariant forall k | 0 <= k < idx :: gates[k].spec.id !in due
        decreases |gates| - idx
      {
        ghost var v := Seen();
        DrainsKeeps(start, gone, applied, now, v, limits, clock, clock);
        AtIndex(gates, v, start, gone, applied, now, idx);
        if gates[idx].spec.deadline <= now {
          FirstQueueOk(gates, v, limits, clock, idx);
          ghost var id := gates[idx].spec.id;
          DrainGate(idx, Expired);
          DrainMore(start, gone, applied, now, v, id, Seen());
          gone := gone + {id};
          expired := expired + 1;
        } else {
          idx := idx + 1;
        }
      }
      SweepDone(start, gone, due, applied, now, Seen(), gates);
      SweptAll(start, gone, due, applied, now, Seen(), gates);
      StepKeeps(start, Gate.ExpireDue(now), Seen(), limits, clock, at);
      clock := at;
    }
  }

  /** Raising the applied generation alone keeps the invariant. */
  lemma AppliedKeeps(v: View, v': View, limits: Limits, clock: Time)
    requires Inv(v, limits, clock) && v' == v.(applied := v'.applied)
    ensures Inv(v', limits, clock)
  {
    assert ParkedSids(v') == ParkedSids(v);
  }

  /** The gate at an index of the vector is the gate the sweep started with. */
  lemma AtIndex(gates: seq<GateState>, v: View, start: View, gone: set<GateId>, applied: U64, now: Time, idx: nat)
    requires Represents(gates, v.gates) && Drains(start, gone, applied, now, v) && idx < |gates|
    ensures gates[idx].spec.id in v.gates && v.gates[gates[idx].spec.id] == gates[idx]
    ensures gates[idx].spec.id in start.gates && start.gates[gates[idx].spec.id] == gates[idx]
    ensures gates[idx].spec.id !in gone
  {
  }

  lemma DrainsFrom(v: View, start: View, due: set<GateId>, applied: U64, now: Time, v': View)
    requires start == v.(applied := start.applied) && Drains(start, due, applied, now, v')
    ensures Drains(v, due, applied, now, v')
  {
  }

  lemma SweptAll(v0: View, gone: set<GateId>, due: set<GateId>, applied: U64, now: Time, v: View, gates: seq<GateState>)
    requires Drains(v0, gone, applied, now, v) && Represents(gates, v.gates) && gone <= due
    requires forall id | id in due :: id in v0.gates
    requires forall k | 0 <= k < |gates| :: gates[k].spec.id !in due
    ensures gone == due
  {
    forall id | id in due ensures id in gone {
      assert id in v.gates ==> HasGate(gates, id);
    }
  }

  lemma {:induction false} PrunedRepresents(gates: seq<GateState>, v: View, dead: set<Sid>, pruned: seq<GateState>)
    requires Represents(gates, v.gates) && |pruned| == |gates|
    requires forall k | 0 <= k < |gates| :: pruned[k] == gates[k].(parked := Prune(gates[k].parked, dead))
    ensures Represents(pruned, AllPruned(v, dead).gates)
  {
    forall id | id in v.gates ensures HasGate(pruned, id) {
      assert HasGate(gates, id);
      var k :| 0 <= k < |gates| && gates[k].spec.id == id;
      assert pruned[k].spec.id == id;
    }
  }

  lemma KeptRepresents(gates: seq<GateState>, v: View, now: Time, dead: set<Sid>, maxWait: nat, kept: seq<GateState>,
                       m: map<GateId, GateState>)
    requires Represents(gates, v.gates) && |kept| == |gates|
    requires forall k | 0 <= k < |gates| :: kept[k] == gates[k].(parked := Kept(gates[k], now, dead, maxWait))
    requires m == map id | id in v.gates :: v.gates[id].(parked := Kept(v.gates[id], now, dead, maxWait))
    ensures Represents(kept, m)
  {
    hide Kept;
    forall id | id in v.gates ensures HasGate(kept, id) {
      assert HasGate(gates, id);
      var k :| 0 <= k < |gates| && gates[k].spec.id == id;
      assert kept[k].spec.id == id;
    }
  }

  lemma GateAt(gates: seq<GateState>, m: map<GateId, GateState>, idx: nat)
    requires Represents(gates, m) && idx < |gates|
    ensures gates[idx].spec.id in m && m[gates[idx].spec.id] == gates[idx]
  {
  }

  /** The first gate of the vector that stops a statement. */
  ghost predicate FirstStop(gates: seq<GateState>, scope: Scope, k: nat) {
    k < |gates| && Stops(gates[k].spec, scope) && forall j | 0 <= j < k :: !Stops(gates[j].spec, scope)
  }

  /** The statement is held at the first gate that stops it. */
  ghost predicate HeldByFirst(gates: seq<GateState>, v: View, scope: Scope, dead: set<Sid>, limits: Limits, clock: Time, v': View) {
    exists k ::
      && 0 <= k < |gates| && FirstStop(gates, scope, k)
      && gates[k].spec.id in v.gates && Waits(v, gates[k].spec.id, dead, limits, clock, v')
  }

  lemma Parks(v: View, scope: Scope, id: GateId, dead: set<Sid>, limits: Limits, clock: Time, v': View)
    requires id in v.gates && v.gates[id].Applies(scope) && ParkStep(v, id, dead, limits, clock, v')
    ensures CheckStep(v, scope, dead, limits, clock, v')
  {
  }

  /** Rejections so far: the popped sessions of the first `k` gates, and nothing else. */
  ghost predicate Rejecting(v: View, gates: seq<GateState>, k: nat, now: Time, dead: set<Sid>, maxWait: nat, released: map<Sid, Release>)
    requires k <= |gates|
  {
    && (forall sid | sid in v.released :: sid in released && released[sid] == v.released[sid])
    && (forall j, sid | 0 <= j < k && Popped(gates[j], now, dead, maxWait, sid) :: sid in released && released[sid] == Rejected)
    && (forall sid | sid in released :: sid in v.released || exists j :: 0 <= j < k && Popped(gates[j], now, dead, maxWait, sid))
  }

  lemma NoneRejected(v: View, gates: seq<GateState>, now: Time, dead: set<Sid>, maxWait: nat)
    ensures Rejecting(v, gates, 0, now, dead, maxWait, v.released)
  {
  }

  /** A session about to be popped has not been released. */
  lemma PopIsFresh(v: View, gates: seq<GateState>, k: nat, now: Time, dead: set<Sid>, limits: Limits, clock: Time,
                   released: map<Sid, Release>, sid: Sid)
    requires Represents(gates, v.gates) && Inv(v, limits, clock) && k < |gates|
    requires Rejecting(v, gates, k, now, dead, limits.maxWait, released) && Popped(gates[k], now, dead, limits.maxWait, sid)
    ensures sid !in released
  {
    hide Popped, AllApart;
    var id := gates[k].spec.id;
    PoppedLeaves(v, v.gates[id], now, dead, limits.maxWait, sid, clock);
    if sid in released && sid !in v.released {
      var j :| 0 <= j < k && Popped(gates[j], now, dead, limits.maxWait, sid);
      var other := gates[j].spec.id;
      PoppedLeaves(v, v.gates[other], now, dead, limits.maxWait, sid, clock);
      ApartHolds(v, id, other, sid);
    }
  }

  lemma RejectDone(v: View, gates: seq<GateState>, now: Time, dead: set<Sid>, limits: Limits, released: map<Sid, Release>, v': View)
    requires Represents(gates, v.gates) && Rejecting(v, gates, |gates|, now, dead, limits.maxWait, released)
    requires v'.applied == v.applied && v'.next == v.next && v'.released == released
    requires v'.gates == map id | id in v.gates :: v.gates[id].(parked := Kept(v.gates[id], now, dead, limits.maxWait))
    ensures RejectStep(v, now, dead, limits, v')
  {
    hide Popped, Kept;
    forall id, sid | id in v.gates && Popped(v.gates[id], now, dead, limits.maxWait, sid)
      ensures sid in v'.released && v'.released[sid] == Rejected
    {
      assert HasGate(gates, id);
      var j :| 0 <= j < |gates| && gates[j].spec.id == id;
      assert gates[j] == v.gates[id];
    }
    forall sid | sid in v'.released
      ensures sid in v.released || exists id :: id in v.gates && Popped(v.gates[id], now, dead, limits.maxWait, sid)
    {
      if sid !in v.released {
        var j :| 0 <= j < |gates| && Popped(gates[j], now, dead, limits.maxWait, sid);
        assert gates[j].spec.id in v.gates && Popped(v.gates[gates[j].spec.id], now, dead, limits.maxWait, sid);
      }
    }
  }

  /** The capacity test on the pruned vector is the test on the sessions parked. */
  lemma {:induction false} PrunedCount(v: View, dead: set<Sid>, gates: seq<GateState>, limits: Limits, clock: Time)
    requires Inv(v, limits, clock) && Represents(gates, AllPruned(v, dead).gates)
    ensures TotalParked(gates) == |ParkedSids(AllPruned(v, dead))|
  {
    var p := AllPruned(v, dead);
    PrunedKeeps(v, dead, limits, clock, clock);
    InvDistinct(gates, p, clock);
    TotalOfView(gates, p);
  }

  /** Since `before`, exactly the first `n` sessions of `live` were rejected. */
  ghost predicate Popping(before: map<Sid, Release>, released: map<Sid, Release>, live: seq<Parked>, n: nat)
    requires n <= |live|
  {
    && (forall sid | sid in before :: sid in released && released[sid] == before[sid])
    && (forall i | 0 <= i < n :: live[i].sid in released && released[live[i].sid] == Rejected)
    && (forall sid | sid in released :: sid in before || exists i :: 0 <= i < n && live[i].sid == sid)
  }

  lemma NonePopped(released: map<Sid, Release>, live: seq<Parked>)
    ensures Popping(released, released, live, 0)
  {
  }

  lemma PopMore(before: map<Sid, Release>, released: map<Sid, Release>, live: seq<Parked>, n: nat)
    requires n < |live| && Popping(before, released, live, n) && live[n].sid !in released
    ensures Popping(before, released[live[n].sid := Rejected], live, n + 1)
  {
    var after := released[live[n].sid := Rejected];
    forall sid | sid in after ensures sid in before || exists i :: 0 <= i < n + 1 && live[i].sid == sid {
      if sid == live[n].sid {
        assert 0 <= n < n + 1 && live[n].sid == sid;
      } else if sid !in before {
        var i :| 0 <= i < n && live[i].sid == sid;
        assert 0 <= i < n + 1;
      }
    }
  }

  /** The front of the queue has not been sent anything yet. */
  lemma {:induction false} FrontIsFresh(was: seq<GateState>, v: View, k: nat, now: Time, dead: set<Sid>, limits: Limits, clock: Time,
                     before: map<Sid, Release>, released: map<Sid, Release>, n: nat)
    requires k < |was| && Represents(was, v.gates) && Inv(v, limits, clock)
    requires Rejecting(v, was, k, now, dead, limits.maxWait, before)
    requires n < Overdue(Prune(was[k].parked, dead), now, limits.maxWait)
    requires Popping(before, released, Prune(was[k].parked, dead), n)
    ensures Prune(was[k].parked, dead)[n].sid !in released
  {
    hide Prune, Overdue, AllApart, Rejecting;
    var q := was[k].parked;
    var live := Prune(q, dead);
    var sid := live[n].sid;
    assert Popped(was[k], now, dead, limits.maxWait, sid);
    PopIsFresh(v, was, k, now, dead, limits, clock, before, sid);
    if sid in released {
      var i :| 0 <= i < n && live[i].sid == sid;
      assert QueueOk(v, v.gates[was[k].spec.id].parked, clock);
      PrunedInOrder(v, q, dead, clock, i, n);
    }
  }

  lemma {:induction false} PoppedAll(was: seq<GateState>, v: View, k: nat, now: Time, dead: set<Sid>, maxWait: nat,
                  before: map<Sid, Release>, released: map<Sid, Release>, n: nat)
    requires k < |was| && Rejecting(v, was, k, now, dead, maxWait, before)
    requires n == Overdue(Prune(was[k].parked, dead), now, maxWait)
    requires Popping(before, released, Prune(was[k].parked, dead), n)
    ensures Rejecting(v, was, k + 1, now, dead, maxWait, released)
  {
    hide Prune, Overdue;
    forall sid | sid in released
      ensures sid in v.released || exists j :: 0 <= j < k + 1 && Popped(was[j], now, dead, maxWait, sid)
    {
      if sid !in before {
        assert Popped(was[k], now, dead, maxWait, sid);
      } else if sid !in v.released {
        var j :| 0 <= j < k && Popped(was[j], now, dead, maxWait, sid);
        assert 0 <= j < k + 1;
      }
    }
  }
}
