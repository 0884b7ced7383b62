/**
The loops of the failover controller (`operator/internal/controller/failover.go`),
proved against the folds of `Failover` and `FailoverRuns`.
*/
module FailoverLoops {
  import opened Wrappers
  import opened Keyspace
  import opened Failover
  import opened FailoverRuns
  import opened FailoverExact

  /** Whether more than one nonzero id is reported, from the set the code builds. */
  method ReportedIds(views: seq<Instance>) returns (disagree: bool)
    ensures disagree == Disagree(views)
  {
    var ids: set<U64> := {};
    for i := 0 to |views|
      invariant forall id :: id in ids <==> exists k :: 0 <= k < i && views[k].observed && views[k].systemId != 0 && views[k].systemId == id
    {
      if views[i].observed && views[i].systemId != 0 {
        ids := ids + {views[i].systemId};
      }
    }
    disagree := |ids| > 1;
    if disagree {
      var a :| a in ids;
      var rest := ids - {a};
      assert |rest| == |ids| - 1;
      var b :| b in rest;
      assert a in ids && b in ids;
    } else if Disagree(views) {
      var i, j :| 0 <= i < |views| && 0 <= j < |views|
        && views[i].observed && views[i].systemId != 0 && views[j].observed && views[j].systemId != 0
        && views[i].systemId != views[j].systemId;
      TwoMembers(ids, views[i].systemId, views[j].systemId);
    }
  }

  lemma TwoMembers(ids: set<U64>, a: U64, b: U64)
    requires a in ids && b in ids && a != b
    ensures |ids| > 1
  {
    assert {a, b} <= ids;
    var rest := ids - {a};
    assert b in rest && |rest| == |ids| - 1;
  }

  method AssessIdentity(views: seq<Instance>, input: Inputs) returns (a: Assessment)
    ensures a == Assess(views, input)
  {
    var unobserved := false;
    for i := 0 to |views|
      invariant unobserved <==> exists k | 0 <= k < i :: StartedUnobserved(views[k])
    {
      if !views[i].observed && views[i].host != "" {
        unobserved := true;
      }
    }
    if input.malformed {
      return Assessment(views, Pods(views), true, false, false, unobserved);
    }
    if input.systemId == 0 {
      var conflict := ReportedIds(views);
      if conflict {
        return Assessment(views, Pods(views), true, true, false, unobserved);
      }
      return Assessment(views, [], false, false, false, unobserved);
    }
    a := Fence(views, input);
  }

  /** The per-view fence, once an identity is latched. */
  method Fence(views: seq<Instance>, input: Inputs) returns (a: Assessment)
    ensures a == Fenced(views, input)
  {
    var kept: seq<Instance>, unrecognized: seq<Pod> := [], [];
    var suppressPrimary, blocked, unobserved := false, false, false;
    for i := 0 to |views|
      invariant Assessment(kept, unrecognized, suppressPrimary, false, blocked, unobserved) == Fenced(views[..i], input)
    {
      assert Fenced(views[..i + 1], input) == FenceOne(Fenced(views[..i], input), views[i], input) by {
        assert views[..i + 1][..i] == views[..i];
      }
      hide Fenced;
      var v := views[i];
      var foreign := v.systemId != 0 && v.systemId != input.systemId;
      var unknown := v.observed && v.systemId == 0;
      var ahead := input.timeline != 0 && v.timeline > input.timeline;
      var vouched := v.systemId == input.systemId && input.timeline != 0 && v.timeline == input.timeline;
      if !v.observed && v.host != "" {
        unobserved := true;
      }
      if v.pod == input.committed && input.committed != "" && !foreign {
        kept := kept + [v];
      } else if foreign {
        unrecognized := unrecognized + [v.pod];
      } else if v.isPrimary && vouched {
        kept := kept + [v];
      } else if v.isPrimary {
        unrecognized := unrecognized + [v.pod];
        kept := kept + [v];
        suppressPrimary := true;
      } else if unknown || ahead {
        unrecognized := unrecognized + [v.pod];
        blocked := true;
        kept := kept + [v.(isPrimary := false, isStandby := false)];
      } else {
        kept := kept + [v];
      }
    }
    assert views[..|views|] == views;
    a := Assessment(kept, unrecognized, suppressPrimary, false, blocked, unobserved);
  }

  method SummarizeInstances(views: seq<Instance>, committed: Pod) returns (s: Summary)
    ensures s == Summarize(views, committed)
  {
    var hasReadyPrimary, anyClaimsPrimary, anyUnobserved, anyUnconfirmed, anyReceiving, drivable :=
      false, false, false, false, false, false;
    var committedLsn: U64, maxLsn: U64, candidates: seq<Instance> := 0, 0, [];
    for i := 0 to |views|
      invariant Summary(hasReadyPrimary, anyClaimsPrimary, anyUnobserved, anyUnconfirmed, anyReceiving,
                        drivable, committedLsn, maxLsn, candidates) == Summarize(views[..i], committed)
    {
      assert views[..i + 1][..i] == views[..i];
      var v := views[i];
      if v.isPrimary {
        anyClaimsPrimary := true;
        if v.ready {
          hasReadyPrimary := true;
        }
      }
      if v.observed && v.lsn > maxLsn {
        maxLsn := v.lsn;
      }
      if !v.observed && v.host != "" {
        anyUnobserved := true;
      }
      if v.observed && !v.isPrimary && !v.isStandby && v.pod != committed {
        anyUnconfirmed := true;
      }
      if v.receiving {
        anyReceiving := true;
      }
      if v.ready && v.isStandby {
        candidates := candidates + [v];
      }
      if committed != "" && v.pod == committed && v.observed && !v.isPrimary {
        drivable := true;
        committedLsn := v.lsn;
      }
    }
    assert views[..|views|] == views;
    s := Summary(hasReadyPrimary, anyClaimsPrimary, anyUnobserved, anyUnconfirmed, anyReceiving,
                 drivable, committedLsn, maxLsn, candidates);
  }

  method LatchLoop(id: Identity, views: seq<Instance>, current: Pod, committed: Pod) returns (out: Identity)
    ensures out == LatchIdentity(id, views, current, committed)
  {
    var disagree := ReportedIds(views);
    out := id;
    for i := 0 to |views|
      invariant out == LatchAll(id, views[..i], current, committed, disagree)
    {
      assert views[..i + 1][..i] == views[..i];
      var v := views[i];
      var trusted := v.pod != "" && (v.pod == current || v.pod == committed);
      if !(!v.isPrimary || !v.observed || !trusted || v.systemId == 0) && !(out.latch.Unset? && disagree) {
        if out.latch.Unset? {
          out := out.(latch := Latched(v.systemId));
        }
        if out.latch == Latched(v.systemId) && v.timeline > out.timeline && (out.timeline == 0 || v.pod == committed) {
          out := out.(timeline := v.timeline);
        }
      }
    }
    assert views[..|views|] == views;
  }

  /** The shard whose status a reconcile updates in place. */
  class Shard {
    var status: Status

    constructor(status: Status)
      ensures this.status == status
    {
      this.status := status;
    }

    /** The handshake: clear, elect, or drive the promote of the committed target. */
    method ReconcileFailover(views: seq<Instance>) returns (promote: Option<Promote>)
      modifies this
      ensures Reconciled(status, promote) == Handshake(old(status), views)
      ensures Snapshot(views) ==> HandshakeIs(old(status), views, Reconciled(status, promote))
    {
      if Snapshot(views) { HandshakeIsExact(status, views); }
      hide HandshakeIs, Snapshot;
      var s := SummarizeInstances(views, status.target);
      var d := Decide(s, status.target);
      if !d.warranted || d.wait {
        if !d.warranted && status.current != "" && status.target != "" {
          status := status.(target := "");
        }
        return None;
      }
      if status.target != d.target {
        status := status.(epoch := status.epoch + 1);
        status := status.(target := d.target);
        return None;
      }
      var host := HostOf(views, d.target);
      if host == "" {
        return None;
      }
      return Some(FailoverRuns.Promote(status.epoch, d.target));
    }

    /** The status aggregation: latch, assess, derive the primary, then the handshake. */
    method AggregateStatus(views: seq<Instance>) returns (promote: Option<Promote>)
      modifies this
      ensures Reconciled(status, promote) == Reconcile(old(status), views)
    {
      var id := LatchLoop(Identity(status.latch, status.timeline), views, status.current, status.target);
      var a := AssessIdentity(views, InputsOf(id, status.target));
      status := status.(latch := id.latch, timeline := id.timeline, current := Derived(views, a));
      if id.latch.Malformed? || a.conflict {
        return None;
      }
      promote := ReconcileFailover(a.kept);
    }
  }
}
