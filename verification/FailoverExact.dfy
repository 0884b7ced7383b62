/**
Exactly when a reconcile commits, drives, clears and publishes, said on the polled views, and
that a failover comes to its end (`operator/internal/controller/failover.go`,
`operator/internal/controller/pgshardshard_controller.go`).
*/
module FailoverExact {
  import opened Keyspace
  import opened Wrappers
  import opened Failover
  import opened FailoverRuns

  // ------------------------------------------------------ the election, order-free

  /** Nothing among the views stands in the way of an election. */
  ghost predicate Unobstructed(views: seq<Instance>, committed: Pod) {
    forall v | v in views ::
      && !v.isPrimary && !v.receiving && (v.host != "" ==> v.observed)
      && (v.observed && v.pod != committed ==> v.isStandby)
  }

  /** `t` is observed and no observed view is further ahead. */
  ghost predicate InFront(t: Instance, views: seq<Instance>) {
    t in views && t.observed && forall v | v in views && v.observed :: v.lsn <= t.lsn
  }

  /** Without a commitment: a ready standby, and of those as far as it the one with the smallest name. */
  ghost predicate Leading(t: Instance, views: seq<Instance>) {
    t.ready && t.isStandby && forall v | v in views && v.ready && v.isStandby && v.lsn == t.lsn && v != t :: Before(t.pod, v.pod)
  }

  /** The pod to promote: the committed one if it is in front, or without a commitment the leading one. */
  ghost predicate Choice(views: seq<Instance>, committed: Pod, p: Pod) {
    && Unobstructed(views, committed)
    && exists t :: InFront(t, views) && t.pod == p && if committed != "" then p == committed else Leading(t, views)
  }

  /** Names compare like their first difference, and a prefix comes first. */
  lemma {:induction false} BeforeIs(a: string, b: string)
    ensures Before(a, b) <==> exists k :: 0 <= k <= |a| && k < |b| && a[..k] == b[..k] && (k == |a| || a[k] < b[k])
  {
    if b == "" {
    } else if a == "" {
      assert a[..0] == b[..0];
    } else {
      BeforeIs(a[1..], b[1..]);
      if a[0] < b[0] { assert a[..0] == b[..0]; }
      if k :| 0 <= k <= |a| && k < |b| && a[..k] == b[..k] && (k == |a| || a[k] < b[k]) {
        if k > 0 {
          assert a[0] == a[..k][0] == b[..k][0];
          assert a[1..][..k - 1] == a[..k][1..] && b[1..][..k - 1] == b[..k][1..];
        }
      }
      if k :| 0 <= k < |a| && k < |b| - 1 && a[1..][..k] == b[1..][..k] && (k == |a| - 1 || a[1..][k] < b[1..][k]) {
        if a[0] == b[0] {
          assert a[..k + 1] == [a[0]] + a[1..][..k] && b[..k + 1] == [b[0]] + b[1..][..k];
        }
      }
    }
  }

  lemma FlagsAre(s: Summary, views: seq<Instance>, committed: Pod)
    requires Summarizes(s, views, committed) && forall v | v in views :: Polled(v)
    ensures (!s.anyClaimsPrimary && !s.anyUnobserved && !s.anyUnconfirmed && !s.anyReceiving) <==> Unobstructed(views, committed)
    ensures Unobstructed(views, committed) ==> !s.hasReadyPrimary
  {
  }

  lemma FrontIs(s: Summary, views: seq<Instance>, committed: Pod, t: Instance)
    requires Summarizes(s, views, committed) && t in views && t.observed
    ensures InFront(t, views) <==> s.maxLsn <= t.lsn
  {
  }

  lemma LeadingIsFirst(s: Summary, views: seq<Instance>, committed: Pod, t: Instance)
    requires Summarizes(s, views, committed) && Snapshot(views) && InFront(t, views) && DistinctPods(s.candidates)
    ensures Leading(t, views) <==> s.candidates != [] && First(s.candidates) == t
  {
    assert Candidate(t) ==> t in s.candidates;
    if s.candidates != [] {
      FirstIsFirst(s.candidates);
      var best := First(s.candidates);
      assert best in views && Candidate(best);
      if Leading(t, views) {
        assert t in s.candidates;
        if best != t {
          assert Precedes(best, t);
          BeforeTotal(best.pod, t.pod);
        }
      }
      if best == t {
        forall v | v in views && v.ready && v.isStandby && v.lsn == t.lsn && v != t ensures Before(t.pod, v.pod) {
          assert v in s.candidates;
          assert Precedes(t, v);
        }
      }
    }
  }

  /** An election, from any views of a poll, names exactly the choice. */
  lemma ElectsExactly(views: seq<Instance>, committed: Pod, p: Pod)
    requires Snapshot(views)
    ensures Evaluate(views, committed) == Decision(true, p, false) <==> Choice(views, committed, p)
  {
    hide Summarize, Before;
    var s := Summarize(views, committed);
    SummaryIs(views, committed);
    CandidatesDistinct(views, committed);
    FlagsAre(s, views, committed);
    if Choice(views, committed, p) {
      var t :| InFront(t, views) && t.pod == p && if committed != "" then p == committed else Leading(t, views);
      FrontIs(s, views, committed, t);
      if committed != "" {
        CommittedDriven(s, views, committed, t);
      } else {
        LeadingIsFirst(s, views, committed, t);
      }
    }
    if Evaluate(views, committed) == Decision(true, p, false) {
      NotHeld(s, committed, p);
      if committed != "" {
        var t :| t in views && Drivable(t, committed) && t.lsn == s.committedLsn;
        FrontIs(s, views, committed, t);
      } else {
        var t := First(s.candidates);
        assert t in views && Candidate(t);
        FrontIs(s, views, committed, t);
        LeadingIsFirst(s, views, committed, t);
      }
    }
  }

  lemma CommittedDriven(s: Summary, views: seq<Instance>, committed: Pod, t: Instance)
    requires Summarizes(s, views, committed) && Snapshot(views) && Unobstructed(views, committed)
    requires committed != "" && InFront(t, views) && t.pod == committed
    ensures s.drivable && s.committedLsn == t.lsn
  {
    assert Drivable(t, committed);
    var v :| v in views && Drivable(v, committed) && v.lsn == s.committedLsn;
    CommittedUnique(views, committed, v, t);
  }

  // -------------------------------------------------------------- the handshake

  ghost predicate HasReadyPrimary(views: seq<Instance>) {
    exists v :: v in views && v.isPrimary && v.ready
  }

  lemma {:induction false} HostIs(views: seq<Instance>, v: Instance)
    requires DistinctPods(views) && v in views
    ensures HostOf(views, v.pod) == v.host
  {
    if views[0].pod == v.pod {
      CommittedUnique(views, v.pod, views[0], v);
    } else {
      HostIs(views[1..], v);
    }
  }

  /**
  With a committed target, the handshake clears it exactly when a primary is published and some
  kept view is a ready primary, drives the promote exactly when the target is the choice, and
  otherwise leaves all as it is. Without one, it commits exactly the choice, at the next epoch,
  and sends nothing yet.
  */
  ghost predicate HandshakeIs(status: Status, kept: seq<Instance>, r: Reconciled) {
    && r.status == status.(target := r.status.target, epoch := r.status.epoch)
    && if status.target != "" then
         && r.status.epoch == status.epoch
         && r.status.target == (if status.current != "" && HasReadyPrimary(kept) then "" else status.target)
         && r.promote == (if Choice(kept, status.target, status.target) then Some(Promote(status.epoch, status.target)) else None)
       else
         && r.promote == None
         && (forall p | p != "" :: r.status.target == p <==> Choice(kept, "", p))
         && r.status.epoch == (if r.status.target == "" then status.epoch else status.epoch + 1)
  }

  lemma HandshakeIsExact(status: Status, kept: seq<Instance>)
    requires Snapshot(kept)
    ensures HandshakeIs(status, kept, Handshake(status, kept))
  {
    hide Summarize, Unobstructed, InFront, Leading;
    var d := Evaluate(kept, status.target);
    SummaryIs(kept, status.target);
    TargetSticks(kept, status.target);
    forall p ensures d == Decision(true, p, false) <==> Choice(kept, status.target, p) { ElectsExactly(kept, status.target, p); }
    if status.target != "" {
      assert !d.warranted <==> HasReadyPrimary(kept);
      if d == Decision(true, status.target, false) {
        var t :| InFront(t, kept) && t.pod == status.target;
        ChoiceHasHost(kept, t);
      }
    }
  }

  lemma ChoiceHasHost(kept: seq<Instance>, t: Instance)
    requires Snapshot(kept) && InFront(t, kept)
    ensures HostOf(kept, t.pod) != ""
  {
    HostIs(kept, t);
  }

  // ------------------------------------------------------------ one reconcile

  /** A ready primary of the latched lineage. */
  ghost predicate OurReadyPrimary(views: seq<Instance>, id: U64) {
    exists v :: v in views && v.isPrimary && v.ready && !(v.systemId != 0 && v.systemId != id)
  }

  /** A claimant of the lineage is kept as it is, and no other claimant is. */
  lemma ClaimantKept(v: Instance, input: Inputs, w: Instance)
    ensures w in KeptView(v, Classify(v, input)) && w.isPrimary <==> w == v && v.isPrimary && !IsForeign(v, input.systemId)
  {
  }

  lemma KeptPrimaries(views: seq<Instance>, input: Inputs)
    ensures HasReadyPrimary(Fenced(views, input).kept) <==> OurReadyPrimary(views, input.systemId)
  {
    hide Classify, KeptView, Fenced;
    if v :| v in views && v.isPrimary && v.ready && !IsForeign(v, input.systemId) {
      var i :| 0 <= i < |views| && views[i] == v;
      ClaimantKept(views[i], input, v);
      KeptIs(views, input, v);
    }
    if w :| w in Fenced(views, input).kept && w.isPrimary && w.ready {
      KeptIs(views, input, w);
      var i :| 0 <= i < |views| && w in KeptView(views[i], Classify(views[i], input));
      ClaimantKept(views[i], input, w);
      assert views[i] in views;
    }
  }

  lemma KeptSnapshot(views: seq<Instance>, input: Inputs)
    requires Snapshot(views)
    ensures Snapshot(Fenced(views, input).kept)
  {
    var kept := Fenced(views, input).kept;
    KeptDistinct(views, input);
    forall k | 0 <= k < |kept| ensures Polled(kept[k]) {
      assert kept[k] in kept;
      KeptIs(views, input, kept[k]);
      var i :| 0 <= i < |views| && kept[k] in KeptView(views[i], Classify(views[i], input));
    }
  }

  /** What one reconcile decides under a latched identity, on the views it polled. */
  ghost predicate Decided(status: Status, views: seq<Instance>, input: Inputs, r: Reconciled) {
    if status.target != "" then
      && r.status.epoch == status.epoch
      && r.status.target == (if r.status.current != "" && OurReadyPrimary(views, input.systemId) then "" else status.target)
      && r.promote == (if Electable(views, input, status.target) then Some(Promote(status.epoch, status.target)) else None)
    else
      && r.promote == None
      && (forall p | p != "" :: r.status.target == p <==> Electable(views, input, p))
      && r.status.epoch == (if r.status.target == "" then status.epoch else status.epoch + 1)
  }

  lemma LatchedHandshake(status: Status, views: seq<Instance>, input: Inputs)
    requires Snapshot(views) && 0 <= input.timeline && input.systemId != 0 && input.committed == status.target
    ensures var r := Handshake(status, Fenced(views, input).kept);
      Decided(status, views, input, r) && r.status == status.(target := r.status.target, epoch := r.status.epoch)
  {
    var kept := Fenced(views, input).kept;
    KeptSnapshot(views, input);
    HandshakeIsExact(status, kept);
    KeptPrimaries(views, input);
    forall p ensures Choice(kept, status.target, p) <==> Electable(views, input, p) {
      ElectsExactly(kept, status.target, p);
      ElectedIffElectable(views, input, p);
    }
    hide Choice, Electable, Fenced, Handshake, HasReadyPrimary, OurReadyPrimary;
  }

  /** Neither elected nor driven: the latch does not parse, or is not set and the poll disagrees on it. */
  ghost predicate Frozen(id: Identity, views: seq<Instance>) {
    id.latch.Malformed? || (id.latch.Unset? && Disagree(views))
  }

  /**
  One reconcile, exactly: the identity is latched first. A frozen one changes neither target nor
  epoch. Under a latched identity a commitment is cleared exactly when a primary is published
  and a ready primary of the lineage was seen, and driven exactly while its target is electable;
  without a commitment exactly the electable pod is committed, at the next epoch. Before an
  identity is latched the same holds over all views.
  */
  lemma ReconcileIs(status: Status, views: seq<Instance>)
    requires Snapshot(views) && 0 <= status.timeline && status.latch != Latched(0)
    ensures var r := Reconcile(status, views);
      var id := LatchIdentity(Identity(status.latch, status.timeline), views, status.current, status.target);
      && r.status.latch == id.latch && r.status.timeline == id.timeline
      && (Frozen(id, views) ==> r.promote == None && r.status.target == status.target && r.status.epoch == status.epoch)
      && (!Frozen(id, views) && id.latch.Latched? ==> Decided(status, views, InputsOf(id, status.target), r))
      && (!Frozen(id, views) && id.latch.Unset? ==>
            HandshakeIs(status.(latch := id.latch, timeline := id.timeline, current := r.status.current), views, r))
  {
    hide LatchAll, Assess, Fenced, Reconcile, Decided, HandshakeIs, Handshake, Disagree;
    var id := LatchIdentity(Identity(status.latch, status.timeline), views, status.current, status.target);
    LatchIs(Identity(status.latch, status.timeline), views, status.current, status.target, Disagree(views));
    var polled := Unfolds(status, views, id);
    if !Frozen(id, views) {
      if id.latch.Latched? {
        assert Reconcile(status, views) == Handshake(polled, Fenced(views, InputsOf(id, status.target)).kept);
        LatchedHandshake(polled, views, InputsOf(id, status.target));
        DecidedSame(status, polled, views, InputsOf(id, status.target), Reconcile(status, views));
      } else {
        assert Reconcile(status, views) == Handshake(polled, views);
        HandshakeIsExact(polled, views);
        SameRest(polled, views, Reconcile(status, views));
      }
    }
  }

  lemma SameRest(polled: Status, kept: seq<Instance>, r: Reconciled)
    requires HandshakeIs(polled, kept, r)
    ensures r.status.latch == polled.latch && r.status.timeline == polled.timeline && r.status.current == polled.current
  {
    hide Choice;
  }

  /** A reconcile is its handshake over the kept views, unless it is frozen. */
  lemma Unfolds(status: Status, views: seq<Instance>, id: Identity) returns (polled: Status)
    requires id == LatchIdentity(Identity(status.latch, status.timeline), views, status.current, status.target) && id.latch != Latched(0)
    ensures polled == status.(latch := id.latch, timeline := id.timeline, current := polled.current)
    ensures Frozen(id, views) ==> Reconcile(status, views) == Reconciled(polled, None)
    ensures !Frozen(id, views) && id.latch.Latched? ==>
      Reconcile(status, views) == Handshake(polled, Fenced(views, InputsOf(id, status.target)).kept)
    ensures !Frozen(id, views) && id.latch.Unset? ==> Reconcile(status, views) == Handshake(polled, views)
  {
    hide LatchIdentity, Disagree, Fenced, Derived, Handshake;
    var input := InputsOf(id, status.target);
    NoConflict(views, input);
    polled := status.(latch := id.latch, timeline := id.timeline, current := Derived(views, Assess(views, input)));
  }

  lemma {:induction false} NoConflict(views: seq<Instance>, input: Inputs)
    ensures !Fenced(views, input).conflict
  {
    hide Classify, KeptView;
    if views != [] { NoConflict(views[..|views| - 1], input); }
  }

  lemma DecidedSame(status: Status, polled: Status, views: seq<Instance>, input: Inputs, r: Reconciled)
    requires Decided(polled, views, input, r) && polled.target == status.target && polled.epoch == status.epoch
    ensures Decided(status, views, input, r)
  {
  }

  // --------------------------------------------------------------- publication

  ghost predicate Claims(views: seq<Instance>, unrecognized: seq<Pod>, pod: Pod) {
    exists v :: v in views && v.pod == pod && v.isPrimary && pod !in unrecognized
  }

  lemma {:induction false} PrimaryIff(views: seq<Instance>, unrecognized: seq<Pod>, pod: Pod)
    ensures pod in Primaries(views, unrecognized) <==> Claims(views, unrecognized, pod)
  {
    if views != [] {
      var n := |views| - 1;
      var init, last := views[..n], views[n];
      PrimaryIff(init, unrecognized, pod);
      assert views == init + [last];
      assert forall v :: v in views <==> v in init || v == last;
    }
  }

  ghost predicate Unrepeated(pods: seq<Pod>) {
    forall i, j | 0 <= i < j < |pods| :: pods[i] != pods[j]
  }

  lemma {:induction false} PrimariesDistinct(views: seq<Instance>, unrecognized: seq<Pod>)
    requires DistinctPods(views)
    ensures Unrepeated(Primaries(views, unrecognized))
  {
    if views != [] {
      var n := |views| - 1;
      PrimariesDistinct(views[..n], unrecognized);
      NotAgain(views, unrecognized);
    }
  }

  lemma NotAgain(views: seq<Instance>, unrecognized: seq<Pod>)
    requires DistinctPods(views) && views != []
    ensures views[|views| - 1].pod !in Primaries(views[..|views| - 1], unrecognized)
  {
    hide Primaries;
    var n := |views| - 1;
    var init, pod := views[..n], views[n].pod;
    PrimaryIff(init, unrecognized, pod);
  }

  /** Exactly one pod claims to be primary and is believed. */
  ghost predicate OneClaims(views: seq<Instance>, unrecognized: seq<Pod>, p: Pod) {
    Claims(views, unrecognized, p) && forall pod | Claims(views, unrecognized, pod) :: pod == p
  }

  lemma DerivedIs(views: seq<Instance>, a: Assessment, p: Pod)
    requires DistinctPods(views) && p != ""
    ensures Derived(views, a) == p <==> !a.suppressPrimary && OneClaims(views, a.unrecognized, p)
  {
    hide Claims, Primaries;
    var primaries := Primaries(views, a.unrecognized);
    PrimariesDistinct(views, a.unrecognized);
    forall pod ensures pod in primaries <==> Claims(views, a.unrecognized, pod) { PrimaryIff(views, a.unrecognized, pod); }
    assert |primaries| >= 1 ==> primaries[0] in primaries;
    assert |primaries| >= 2 ==> primaries[1] in primaries;
  }

  /** A claimant of the latched lineage that the operator vouches for: its committed target, or one on the recorded timeline. */
  ghost predicate Vouched(v: Instance, input: Inputs) {
    || v.pod == input.committed
    || (v.systemId == input.systemId && input.timeline != 0 && v.timeline == input.timeline)
  }

  /** The claimants of the latched lineage: all vouched for, and `p` the only one. */
  ghost predicate SoleClaimant(views: seq<Instance>, input: Inputs, p: Pod) {
    && (exists v :: v in views && v.isPrimary && v.pod == p && !IsForeign(v, input.systemId))
    && (forall v | v in views && v.isPrimary && !IsForeign(v, input.systemId) :: v.pod == p && Vouched(v, input))
  }

  /**
  Under a latched identity a primary is published exactly when it is the only claimant of the
  lineage, and the operator vouches for it.
  */
  lemma PublishedIff(views: seq<Instance>, input: Inputs, p: Pod)
    requires Snapshot(views) && p != "" && input.systemId != 0 && !input.malformed
    ensures Derived(views, Assess(views, input)) == p <==> SoleClaimant(views, input, p)
  {
    var a := Fenced(views, input);
    DerivedIs(views, a, p);
    SuppressedIs(views, input);
    forall v | v in views ensures v.pod in a.unrecognized <==> !Classify(v, input).Accepted? {
      UnrecognizedIs(views, input, v.pod);
      var i :| 0 <= i < |views| && views[i] == v;
    }
    hide Fenced, Derived;
    if SoleClaimant(views, input, p) { SoleIsPublished(views, input, a, p); }
    if !a.suppressPrimary && OneClaims(views, a.unrecognized, p) { PublishedIsSole(views, input, a, p); }
  }

  lemma SoleIsPublished(views: seq<Instance>, input: Inputs, a: Assessment, p: Pod)
    requires Snapshot(views) && SoleClaimant(views, input, p)
    requires a.suppressPrimary <==> exists i :: 0 <= i < |views| && Classify(views[i], input).Rogue?
    requires forall v | v in views :: v.pod in a.unrecognized <==> !Classify(v, input).Accepted?
    ensures !a.suppressPrimary && OneClaims(views, a.unrecognized, p)
  {
    forall v | v in views && v.isPrimary && !IsForeign(v, input.systemId) ensures Classify(v, input).Accepted? { }
    forall i | 0 <= i < |views| ensures !Classify(views[i], input).Rogue? { assert views[i] in views; }
    var v :| v in views && v.isPrimary && v.pod == p && !IsForeign(v, input.systemId);
    assert Claims(views, a.unrecognized, p);
  }

  lemma PublishedIsSole(views: seq<Instance>, input: Inputs, a: Assessment, p: Pod)
    requires Snapshot(views) && !a.suppressPrimary && OneClaims(views, a.unrecognized, p)
    requires a.suppressPrimary <==> exists i :: 0 <= i < |views| && Classify(views[i], input).Rogue?
    requires forall v | v in views :: v.pod in a.unrecognized <==> !Classify(v, input).Accepted?
    ensures SoleClaimant(views, input, p)
  {
    forall v | v in views && v.isPrimary && !IsForeign(v, input.systemId) ensures v.pod == p && Vouched(v, input) {
      var i :| 0 <= i < |views| && views[i] == v;
      assert !Classify(views[i], input).Rogue?;
      assert Claims(views, a.unrecognized, v.pod);
    }
    var v :| v in views && v.pod == p && v.isPrimary && p !in a.unrecognized;
    assert Classify(v, input).Accepted?;
  }

  /** Before an identity is latched, exactly the only claimant is published, and nobody while the poll disagrees on the identity. */
  lemma PublishedUnlatched(views: seq<Instance>, input: Inputs, p: Pod)
    requires Snapshot(views) && p != "" && input.systemId == 0
    ensures Derived(views, Assess(views, input)) == p <==>
      && !input.malformed && !Disagree(views)
      && (exists v :: v in views && v.isPrimary && v.pod == p) && (forall v | v in views && v.isPrimary :: v.pod == p)
  {
    hide Disagree;
    var a := Assess(views, input);
    DerivedIs(views, a, p);
    if !input.malformed && !Disagree(views) {
      assert forall pod :: Claims(views, [], pod) <==> exists v :: v in views && v.pod == pod && v.isPrimary;
      if OneClaims(views, [], p) {
        forall v | v in views && v.isPrimary ensures v.pod == p { assert Claims(views, [], v.pod); }
      }
    }
  }

  // ------------------------------------------------------------------ latching

  /**
  Latching does not only refrain: without disagreement a trusted claimant is imprinted, a trusted
  claimant of the latched lineage gives the first timeline, and the committed target's own
  timeline is always reached.
  */
  lemma {:induction false} LatchAdvances(id: Identity, views: seq<Instance>, current: Pod, committed: Pod, disagree: bool, v: Instance)
    requires 0 <= id.timeline && v in views && Trusted(v, current, committed)
    ensures var out := LatchAll(id, views, current, committed, disagree);
      && (id.latch.Unset? && !disagree ==> !out.latch.Unset?)
      && (out.latch == Latched(v.systemId) ==>
            (v.timeline > 0 ==> out.timeline > 0) && (v.pod == committed ==> out.timeline >= v.timeline))
  {
    var n := |views| - 1;
    var init, last := views[..n], views[n];
    LatchIs(id, init, current, committed, disagree);
    assert views == init + [last];
    if v != last {
      LatchAdvances(id, init, current, committed, disagree, v);
      var mid := LatchAll(id, init, current, committed, disagree);
      LatchIs(mid, [last], current, committed, disagree);
    }
  }

  /** In an undisputed poll a trusted claimant gives the latch its own id. */
  lemma BootstrapLatches(timeline: int, views: seq<Instance>, current: Pod, committed: Pod, v: Instance)
    requires 0 <= timeline && v in views && Trusted(v, current, committed) && !Disagree(views)
    ensures LatchIdentity(Identity(Unset, timeline), views, current, committed).latch == Latched(v.systemId)
  {
    var id := Identity(Unset, timeline);
    LatchAdvances(id, views, current, committed, false, v);
    LatchIs(id, views, current, committed, false);
    var out := LatchAll(id, views, current, committed, false);
    var w :| w in views && Trusted(w, current, committed) && w.systemId == out.latch.id;
    var i, j :| 0 <= i < |views| && views[i] == v && 0 <= j < |views| && views[j] == w;
  }

  // ------------------------------------------------------------- a whole failover

  /** Nobody of the latched lineage claims, so latching changes nothing. */
  lemma {:induction false} NothingLatched(id: Identity, views: seq<Instance>, current: Pod, committed: Pod, disagree: bool)
    requires id.latch.Latched? && forall v | v in views && !IsForeign(v, id.latch.id) :: !v.isPrimary
    ensures LatchAll(id, views, current, committed, disagree) == id
  {
    if views != [] {
      var n := |views| - 1;
      assert forall v | v in views[..n] :: v in views;
      assert views[n] in views;
      NothingLatched(id, views[..n], current, committed, disagree);
    }
  }

  /** What is electable without a commitment stays electable as the commitment. */
  lemma StaysElectable(views: seq<Instance>, input: Inputs, p: Pod)
    requires Snapshot(views) && input.committed == "" && Electable(views, input, p)
    ensures Electable(views, input.(committed := p), p) && p != ""
  {
    hide Precedes;
    var t :| Leads(t, views, input) && t.pod == p;
    assert Polled(t);
    assert Leads(t, views, input.(committed := p));
  }

  /** The promoted pod reports back: a ready primary of the lineage on a later timeline, and no other of it claims. */
  ghost predicate Promoted(views: seq<Instance>, id: U64, timeline: int, p: Pod, v: Instance) {
    && v in views && v.pod == p && v.isPrimary && v.ready && v.systemId == id && v.timeline > timeline
    && forall w | w in views && w.isPrimary && !IsForeign(w, id) :: w == v
  }

  lemma {:induction false} PromotedLatches(id: Identity, views: seq<Instance>, current: Pod, p: Pod, disagree: bool, v: Instance)
    requires id.latch.Latched? && 0 < id.timeline && Snapshot(views) && id.latch.id != 0
    requires Promoted(views, id.latch.id, id.timeline, p, v)
    ensures LatchAll(id, views, current, p, disagree) == Identity(id.latch, v.timeline)
  {
    var i :| 0 <= i < |views| && views[i] == v;
    assert Polled(v);
    LatchAdvances(id, views, current, p, disagree, v);
    LatchIs(id, views, current, p, disagree);
  }

  /**
  A failover comes to its end. From a status with a latched identity and no commitment, a poll
  that makes `p` electable commits it, the next one sends its promote at the new epoch, and the
  poll that sees it as the ready primary publishes it, records its timeline and clears the
  commitment.
  */
  lemma FailoverCompletes(s: Status, views: seq<Instance>, after: seq<Instance>, p: Pod, v: Instance)
    requires s.latch.Latched? && s.latch.id != 0 && 0 < s.timeline && s.target == ""
    requires Snapshot(views) && Electable(views, Inputs(s.latch.id, s.timeline, "", false), p)
    requires Snapshot(after) && Promoted(after, s.latch.id, s.timeline, p, v)
    ensures var r1 := Reconcile(s, views);
      var r2 := Reconcile(r1.status, views);
      var r3 := Reconcile(r2.status, after);
      && r1.status.target == p && r1.status.epoch == s.epoch + 1 && r1.promote == None
      && r2.promote == Some(Promote(s.epoch + 1, p)) && r2.status.target == p && r2.status.epoch == s.epoch + 1
      && r3.status.current == p && r3.status.target == "" && r3.status.epoch == s.epoch + 1 && r3.status.timeline == v.timeline
  {
    hide Reconcile, Electable, LatchAll, Disagree;
    var id, input := Identity(s.latch, s.timeline), Inputs(s.latch.id, s.timeline, "", false);
    StaysElectable(views, input, p);
    assert forall w | w in views && !IsForeign(w, s.latch.id) :: !w.isPrimary by { ElectableIsSettled(views, input, p); }
    NothingLatched(id, views, s.current, "", Disagree(views));
    ReconcileIs(s, views);
    var s1 := Reconcile(s, views).status;
    NothingLatched(id, views, s1.current, p, Disagree(views));
    ReconcileIs(s1, views);
    var s2 := Reconcile(s1, views).status;
    NoPrimaryHere(views, s.latch.id);
    PromotedLatches(id, after, s2.current, p, Disagree(after), v);
    ReconcileIs(s2, after);
    PromotedIsPublished(s2, after, p, v);
  }

  lemma ElectableIsSettled(views: seq<Instance>, input: Inputs, p: Pod)
    requires Electable(views, input, p)
    ensures Settled(views, input)
  {
  }

  lemma NoPrimaryHere(views: seq<Instance>, id: U64)
    requires forall w | w in views && !IsForeign(w, id) :: !w.isPrimary
    ensures !OurReadyPrimary(views, id)
  {
  }

  lemma PromotedIsPublished(s: Status, views: seq<Instance>, p: Pod, v: Instance)
    requires s.latch.Latched? && s.latch.id != 0 && s.target == p && Snapshot(views) && Promoted(views, s.latch.id, s.timeline, p, v)
    requires LatchIdentity(Identity(s.latch, s.timeline), views, s.current, p) == Identity(s.latch, v.timeline)
    ensures Reconcile(s, views).status.current == p && OurReadyPrimary(views, s.latch.id)
  {
    var input := InputsOf(Identity(s.latch, v.timeline), p);
    assert Polled(v);
    assert SoleClaimant(views, input, p);
    PublishedIff(views, input, p);
    hide LatchIdentity, Assess, Derived, Evaluate;
  }

  // ---------------------------------------------------------------- over every run

  /** The identity a reconcile works under. */
  ghost function IdentityAt(s: Status, views: seq<Instance>): Identity {
    LatchIdentity(Identity(s.latch, s.timeline), views, s.current, s.target)
  }

  lemma {:induction false} LatchNeverZero(run: seq<System>, events: seq<Event>, n: nat)
    requires IsRun(run, events) && n <= |events|
    ensures forall i | 0 <= i < |run[n].versions| :: run[n].versions[i].latch != Latched(0)
  {
    if n > 0 {
      RunKeeps(run, events, n - 1);
      LatchNeverZero(run, events, n - 1);
      var s, e := run[n - 1], events[n - 1];
      assert Step(s, e, run[n]);
      var v := s.versions[e.read];
      ReconcileLatch(v, e.views);
      hide Reconcile;
    }
  }

  lemma ReconcileLatch(s: Status, views: seq<Instance>)
    requires 0 <= s.timeline && s.latch != Latched(0)
    ensures Reconcile(s, views).status.latch == IdentityAt(s, views).latch != Latched(0)
  {
    hide Fenced, Derived, Evaluate, Disagree;
    LatchIs(Identity(s.latch, s.timeline), views, s.current, s.target, Disagree(views));
  }

  /**
  Over every run: a commitment is dropped only by a poll that published a primary and, once an
  identity is latched, saw a ready primary of the lineage; a promote goes out only for a target
  that its poll made electable.
  */
  lemma CommitmentsEndWell(run: seq<System>, events: seq<Event>, n: nat)
    requires IsRun(run, events) && n < |events| && Snapshot(events[n].views)
    ensures var s, e := run[n], events[n];
      var from, r := s.versions[e.read], Reconcile(s.versions[e.read], e.views);
      var id := IdentityAt(from, e.views);
      && (from.target != "" && r.status.target == "" ==>
            r.status.current != "" && if id.latch.Latched? then OurReadyPrimary(e.views, id.latch.id) else HasReadyPrimary(e.views))
      && (r.promote.Some? ==>
            from.target != "" && r.promote.value == Promote(from.epoch, from.target)
            && if id.latch.Latched? then Electable(e.views, InputsOf(id, from.target), from.target)
               else Choice(e.views, from.target, from.target))
  {
    RunKeeps(run, events, n);
    LatchNeverZero(run, events, n);
    assert Step(run[n], events[n], run[n + 1]);
    var from := run[n].versions[events[n].read];
    ReconcileIs(from, events[n].views);
    hide Reconcile, Electable, Choice, OurReadyPrimary, HasReadyPrimary, LatchIdentity;
  }

  // ---------------------------------------------------- what the conditions say

  /** An observed pod of no reported identity, or a standby ahead of the recorded timeline, that may hold the lineage's log. */
  ghost predicate Ambiguous(v: Instance, input: Inputs) {
    && !IsForeign(v, input.systemId) && !v.isPrimary && (input.committed == "" || v.pod != input.committed)
    && ((v.observed && v.systemId == 0) || (input.timeline != 0 && v.timeline > input.timeline))
  }

  /** Under a latched identity the shard is called blocked exactly for an ambiguous view, and incompletely observed exactly for a started pod the poll missed. */
  lemma {:induction false} FlagsMean(views: seq<Instance>, input: Inputs)
    ensures Fenced(views, input).blocked <==> exists v :: v in views && Ambiguous(v, input)
    ensures Fenced(views, input).anyStartedUnobserved <==> exists v :: v in views && !v.observed && v.host != ""
  {
    if views != [] {
      var n := |views| - 1;
      var init, last := views[..n], views[n];
      FlagsMean(init, input);
      assert views == init + [last];
      assert forall v :: v in views <==> v in init || v == last;
      assert Classify(last, input).Blocker? <==> Ambiguous(last, input);
      hide Classify, Ambiguous;
    }
  }
}
