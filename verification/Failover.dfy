/**
Identity assessment, election and the durable handshake of a failover
(`operator/internal/controller/failover.go`, the status aggregation of
`operator/internal/controller/pgshardshard_controller.go`).
*/
module Failover {
  import opened Keyspace

  type Pod = string

  /** One instance as one poll saw it. */
  datatype Instance = Instance(
    pod: Pod, host: string, ready: bool, isPrimary: bool, isStandby: bool,
    lsn: U64, receiving: bool, observed: bool, systemId: U64, timeline: int)

  /** What the poll guarantees: an unpolled pod reports nothing, a polled one has an address and one role at most. */
  ghost predicate Polled(v: Instance) {
    && v.pod != ""
    && (v.observed ==> v.host != "")
    && (!v.observed ==> !v.ready && !v.isPrimary && !v.isStandby && v.lsn == 0 && !v.receiving && v.systemId == 0 && v.timeline == 0)
    && !(v.isPrimary && v.isStandby)
  }

  ghost predicate Snapshot(views: seq<Instance>) {
    && (forall i | 0 <= i < |views| :: Polled(views[i]))
    && (forall i, j | 0 <= i < j < |views| :: views[i].pod != views[j].pod)
  }

  /** The persisted system id: absent, an id, or text that does not parse. */
  datatype Latch = Unset | Latched(id: U64) | Malformed

  datatype Inputs = Inputs(systemId: U64, timeline: int, committed: Pod, malformed: bool)

  // ------------------------------------------------------------ assessment

  datatype Verdict = Accepted | Foreign | Rogue | Blocker

  predicate IsForeign(v: Instance, id: U64) {
    v.systemId != 0 && v.systemId != id
  }

  /** The fence for one view, once an identity is latched. */
  function Classify(v: Instance, input: Inputs): Verdict {
    var foreign := IsForeign(v, input.systemId);
    var unknown := v.observed && v.systemId == 0;
    var ahead := input.timeline != 0 && v.timeline > input.timeline;
    var vouched := v.systemId == input.systemId && input.timeline != 0 && v.timeline == input.timeline;
    if v.pod == input.committed && input.committed != "" && !foreign then Accepted
    else if foreign then Foreign
    else if v.isPrimary && vouched then Accepted
    else if v.isPrimary then Rogue
    else if unknown || ahead then Blocker
    else Accepted
  }

  /** What of a view the election works over. */
  function KeptView(v: Instance, verdict: Verdict): seq<Instance> {
    match verdict
    case Foreign => []
    case Blocker => [v.(isPrimary := false, isStandby := false)]
    case _ => [v]
  }

  datatype Assessment = Assessment(
    kept: seq<Instance>, unrecognized: seq<Pod>, suppressPrimary: bool, conflict: bool, blocked: bool, anyStartedUnobserved: bool)

  predicate StartedUnobserved(v: Instance) {
    !v.observed && v.host != ""
  }

  /** Two observed instances report different system ids. */
  predicate Disagree(views: seq<Instance>) {
    exists i, j | 0 <= i < |views| && 0 <= j < |views| ::
      && views[i].observed && views[i].systemId != 0 && views[j].observed && views[j].systemId != 0
      && views[i].systemId != views[j].systemId
  }

  function Pods(views: seq<Instance>): seq<Pod> {
    seq(|views|, i requires 0 <= i < |views| => views[i].pod)
  }

  /** The assessment with one more view. */
  function FenceOne(before: Assessment, v: Instance, input: Inputs): Assessment {
    var verdict := Classify(v, input);
    before.(
      kept := before.kept + KeptView(v, verdict),
      unrecognized := if verdict.Accepted? then before.unrecognized else before.unrecognized + [v.pod],
      suppressPrimary := before.suppressPrimary || verdict.Rogue?,
      blocked := before.blocked || verdict.Blocker?,
      anyStartedUnobserved := before.anyStartedUnobserved || StartedUnobserved(v))
  }

  function Fenced(views: seq<Instance>, input: Inputs): Assessment {
    if views == [] then Assessment([], [], false, false, false, false)
    else FenceOne(Fenced(views[..|views| - 1], input), views[|views| - 1], input)
  }

  function Assess(views: seq<Instance>, input: Inputs): Assessment {
    var unobserved := exists i | 0 <= i < |views| :: StartedUnobserved(views[i]);
    if input.malformed then Assessment(views, Pods(views), true, false, false, unobserved)
    else if input.systemId == 0 then
      if Disagree(views) then Assessment(views, Pods(views), true, true, false, unobserved)
      else Assessment(views, [], false, false, false, unobserved)
    else Fenced(views, input)
  }

  lemma FencedMore(views: seq<Instance>, input: Inputs)
    requires views != []
    ensures var n := |views| - 1; Fenced(views, input).kept == Fenced(views[..n], input).kept + KeptView(views[n], Classify(views[n], input))
  {
  }

  /** The kept views are the fenced views of the snapshot, whatever their order. */
  lemma {:induction false} KeptIs(views: seq<Instance>, input: Inputs, w: Instance)
    ensures w in Fenced(views, input).kept <==> exists i :: 0 <= i < |views| && w in KeptView(views[i], Classify(views[i], input))
  {
    hide Classify, KeptView;
    if views != [] {
      var n := |views| - 1;
      FencedMore(views, input);
      hide Fenced;
      KeptIs(views[..n], input, w);
      if w in Fenced(views[..n], input).kept {
        var i :| 0 <= i < n && w in KeptView(views[..n][i], Classify(views[..n][i], input));
        assert w in KeptView(views[i], Classify(views[i], input));
      }
      if i :| 0 <= i < |views| && w in KeptView(views[i], Classify(views[i], input)) {
        if i < n { assert w in KeptView(views[..n][i], Classify(views[..n][i], input)); }
      }
    }
  }

  // -------------------------------------------------------------- election

  datatype Summary = Summary(
    hasReadyPrimary: bool, anyClaimsPrimary: bool, anyUnobserved: bool, anyUnconfirmed: bool, anyReceiving: bool,
    drivable: bool, committedLsn: U64, maxLsn: U64, candidates: seq<Instance>)

  predicate Unconfirmed(v: Instance, committed: Pod) {
    v.observed && !v.isPrimary && !v.isStandby && v.pod != committed
  }

  predicate Candidate(v: Instance) {
    v.ready && v.isStandby
  }

  predicate Drivable(v: Instance, committed: Pod) {
    committed != "" && v.pod == committed && v.observed && !v.isPrimary
  }

  function Absorb(s: Summary, v: Instance, committed: Pod): Summary {
    s.(
      hasReadyPrimary := s.hasReadyPrimary || (v.isPrimary && v.ready),
      anyClaimsPrimary := s.anyClaimsPrimary || v.isPrimary,
      anyUnobserved := s.anyUnobserved || StartedUnobserved(v),
      anyUnconfirmed := s.anyUnconfirmed || Unconfirmed(v, committed),
      anyReceiving := s.anyReceiving || v.receiving,
      drivable := s.drivable || Drivable(v, committed),
      committedLsn := if Drivable(v, committed) then v.lsn else s.committedLsn,
      maxLsn := if v.observed && v.lsn > s.maxLsn then v.lsn else s.maxLsn,
      candidates := if Candidate(v) then s.candidates + [v] else s.candidates)
  }

  const NOTHING := Summary(false, false, false, false, false, false, 0, 0, [])

  function Summarize(views: seq<Instance>, committed: Pod): (s: Summary)
    ensures s.drivable ==> committed != ""
  {
    if views == [] then NOTHING else Absorb(Summarize(views[..|views| - 1], committed), views[|views| - 1], committed)
  }

  /** Byte order of names. */
  predicate Before(a: string, b: string) {
    if b == "" then false
    else if a == "" then true
    else a[0] < b[0] || (a[0] == b[0] && Before(a[1..], b[1..]))
  }

  lemma {:induction false} BeforeTotal(a: string, b: string)
    ensures Before(a, b) || Before(b, a) || a == b
    ensures !(Before(a, b) && Before(b, a))
  {
    if a != "" && b != "" {
      BeforeTotal(a[1..], b[1..]);
      assert a == [a[0]] + a[1..] && b == [b[0]] + b[1..];
    }
  }

  lemma {:induction false} BeforeTrans(a: string, b: string, c: string)
    requires Before(a, b) && Before(b, c)
    ensures Before(a, c)
  {
    if a != "" && b != "" && c != "" && a[0] == b[0] == c[0] {
      BeforeTrans(a[1..], b[1..], c[1..]);
    }
  }

  /** The election's sort order: further WAL first, then the smaller name. */
  predicate Precedes(a: Instance, b: Instance) {
    if a.lsn != b.lsn then a.lsn > b.lsn else Before(a.pod, b.pod)
  }

  /** The first candidate of the sorted list. */
  function First(candidates: seq<Instance>): (best: Instance)
    requires candidates != []
    ensures best in candidates
  {
    if |candidates| == 1 then candidates[0]
    else
      var best := First(candidates[..|candidates| - 1]);
      if Precedes(candidates[|candidates| - 1], best) then candidates[|candidates| - 1] else best
  }

  ghost predicate IsFirst(best: Instance, candidates: seq<Instance>) {
    best in candidates && forall i | 0 <= i < |candidates| :: best == candidates[i] || Precedes(best, candidates[i])
  }

  lemma PrecedesTotal(a: Instance, b: Instance)
    ensures a.pod != b.pod ==> Precedes(a, b) || Precedes(b, a)
    ensures !(Precedes(a, b) && Precedes(b, a))
  {
    BeforeTotal(a.pod, b.pod);
  }

  lemma PrecedesTrans(a: Instance, b: Instance, c: Instance)
    requires Precedes(a, b) && Precedes(b, c)
    ensures Precedes(a, c)
  {
    if a.lsn == b.lsn == c.lsn { BeforeTrans(a.pod, b.pod, c.pod); }
  }

  ghost predicate DistinctPods(views: seq<Instance>) {
    forall i, j | 0 <= i < j < |views| :: views[i].pod != views[j].pod
  }

  lemma {:induction false} FirstIsFirst(candidates: seq<Instance>)
    requires candidates != [] && DistinctPods(candidates)
    ensures IsFirst(First(candidates), candidates)
  {
    var n := |candidates| - 1;
    if n > 0 {
      var init, last := candidates[..n], candidates[n];
      FirstIsFirst(init);
      var best := First(init);
      var i :| 0 <= i < n && init[i] == best;
      assert candidates[i].pod != last.pod;
      PrecedesTotal(best, last);
      forall k | 0 <= k < |candidates| ensures First(candidates) == candidates[k] || Precedes(First(candidates), candidates[k]) {
        if k < n {
          assert best == init[k] || Precedes(best, init[k]);
          if Precedes(last, best) && best != init[k] { PrecedesTrans(last, best, init[k]); }
        }
      }
    }
  }

  datatype Decision = Decision(warranted: bool, target: Pod, wait: bool)

  const IDLE := Decision(false, "", false)
  const HOLD := Decision(true, "", true)

  /** The decision from a summary. */
  function Decide(s: Summary, committed: Pod): Decision
    requires s.drivable ==> committed != ""
  {
    if s.hasReadyPrimary then IDLE
    else if s.candidates == [] && !s.drivable && committed == "" then IDLE
    else if s.anyClaimsPrimary || s.anyUnobserved || s.anyUnconfirmed || s.anyReceiving then HOLD
    else if committed != "" then
      if !s.drivable || s.committedLsn < s.maxLsn then HOLD else Decision(true, committed, false)
    else
      var best := First(s.candidates);
      if best.lsn < s.maxLsn then HOLD else Decision(true, best.pod, false)
  }

  function Evaluate(views: seq<Instance>, committed: Pod): Decision {
    Decide(Summarize(views, committed), committed)
  }

  // ----------------------------------------- what a summary says of its views

  /** The summary in terms of which views there are, not of their order. */
  ghost predicate Summarizes(s: Summary, views: seq<Instance>, committed: Pod) {
    && (s.hasReadyPrimary <==> exists v :: v in views && v.isPrimary && v.ready)
    && (s.anyClaimsPrimary <==> exists v :: v in views && v.isPrimary)
    && (s.anyUnobserved <==> exists v :: v in views && StartedUnobserved(v))
    && (s.anyUnconfirmed <==> exists v :: v in views && Unconfirmed(v, committed))
    && (s.anyReceiving <==> exists v :: v in views && v.receiving)
    && (s.drivable <==> exists v :: v in views && Drivable(v, committed))
    && (forall v | v in views && v.observed :: v.lsn <= s.maxLsn)
    && (s.maxLsn == 0 || exists v :: v in views && v.observed && v.lsn == s.maxLsn)
    && (forall v :: v in s.candidates <==> v in views && Candidate(v))
    && (s.drivable ==> exists v :: v in views && Drivable(v, committed) && v.lsn == s.committedLsn)
  }

  lemma {:induction false} SummaryIs(views: seq<Instance>, committed: Pod)
    ensures Summarizes(Summarize(views, committed), views, committed)
  {
    hide Summarizes, Absorb;
    if views == [] {
      SummaryNone(committed);
    } else {
      var n := |views| - 1;
      SummaryIs(views[..n], committed);
      SummaryStep(Summarize(views[..n], committed), views[..n], views[n], committed);
      assert views == views[..n] + [views[n]];
    }
  }

  lemma SummaryNone(committed: Pod)
    ensures Summarizes(NOTHING, [], committed)
  {
  }

  lemma {:induction false} CandidateIs(views: seq<Instance>, committed: Pod, v: Instance)
    ensures v in Summarize(views, committed).candidates <==> v in views && Candidate(v)
  {
    hide Summarize;
    SummaryIs(views, committed);
  }

  lemma SummaryStep(s: Summary, init: seq<Instance>, last: Instance, committed: Pod)
    requires Summarizes(s, init, committed)
    ensures Summarizes(Absorb(s, last, committed), init + [last], committed)
  {
    var views := init + [last];
    assert forall v :: v in views <==> v in init || v == last;
    assert last in views;
  }

  lemma {:induction false} CandidatesDistinct(views: seq<Instance>, committed: Pod)
    requires DistinctPods(views)
    ensures DistinctPods(Summarize(views, committed).candidates)
  {
    if views != [] {
      var n := |views| - 1;
      CandidatesDistinct(views[..n], committed);
      var before := Summarize(views[..n], committed).candidates;
      forall i | 0 <= i < |before| ensures before[i].pod != views[n].pod {
        CandidateIs(views[..n], committed, before[i]);
        var k :| 0 <= k < n && views[..n][k] == before[i];
        assert views[k].pod != views[n].pod;
      }
    }
  }

  // ------------------------------------------------------- order independence

  ghost predicate SameViews(a: seq<Instance>, b: seq<Instance>) {
    forall v :: v in a <==> v in b
  }

  lemma FirstUnique(a: seq<Instance>, b: seq<Instance>, x: Instance, y: Instance)
    requires SameViews(a, b) && IsFirst(x, a) && IsFirst(y, b)
    ensures x == y
  {
    assert y in a && x in b;
    PrecedesTotal(x, y);
  }

  lemma CommittedUnique(views: seq<Instance>, committed: Pod, v: Instance, w: Instance)
    requires DistinctPods(views) && v in views && w in views && v.pod == w.pod
    ensures v == w
  {
  }

  /** Two listings of the same views give the same numbers. */
  lemma {:induction false} SameNumbers(a: seq<Instance>, b: seq<Instance>, committed: Pod)
    requires SameViews(a, b) && DistinctPods(a)
    ensures Summarize(a, committed).maxLsn == Summarize(b, committed).maxLsn
    ensures Summarize(a, committed).drivable ==> Summarize(a, committed).committedLsn == Summarize(b, committed).committedLsn
  {
    hide Summarize;
    SummaryIs(a, committed);
    SummaryIs(b, committed);
    var s, t := Summarize(a, committed), Summarize(b, committed);
    if s.drivable {
      var v :| v in a && Drivable(v, committed) && v.lsn == s.committedLsn;
      assert v in b;
      var w :| w in b && Drivable(w, committed) && w.lsn == t.committedLsn;
      CommittedUnique(a, committed, v, w);
    }
  }

  lemma {:induction false} SameFlags(a: seq<Instance>, b: seq<Instance>, committed: Pod)
    requires SameViews(a, b)
    ensures var s, t := Summarize(a, committed), Summarize(b, committed);
      && s.hasReadyPrimary == t.hasReadyPrimary && s.anyClaimsPrimary == t.anyClaimsPrimary
      && s.anyUnobserved == t.anyUnobserved && s.anyUnconfirmed == t.anyUnconfirmed
      && s.anyReceiving == t.anyReceiving && s.drivable == t.drivable
      && SameViews(s.candidates, t.candidates)
  {
    SummaryIs(a, committed);
    SummaryIs(b, committed);
  }

  /** The decision does not depend on the order the views are listed in. */
  lemma EvaluateOrderFree(a: seq<Instance>, b: seq<Instance>, committed: Pod)
    requires SameViews(a, b) && DistinctPods(a) && DistinctPods(b)
    ensures Evaluate(a, committed) == Evaluate(b, committed)
  {
    hide Summarize, Precedes;
    var s, t := Summarize(a, committed), Summarize(b, committed);
    SameNumbers(a, b, committed);
    SameFlags(a, b, committed);
    if s.candidates != [] || t.candidates != [] {
      var v := if s.candidates != [] then s.candidates[0] else t.candidates[0];
      assert v in s.candidates && v in t.candidates;
      CandidatesDistinct(a, committed);
      CandidatesDistinct(b, committed);
      FirstIsFirst(s.candidates);
      FirstIsFirst(t.candidates);
      FirstUnique(s.candidates, t.candidates, First(s.candidates), First(t.candidates));
    }
  }

  lemma {:induction false} KeptDistinct(views: seq<Instance>, input: Inputs)
    requires DistinctPods(views)
    ensures DistinctPods(Fenced(views, input).kept)
    ensures forall w | w in Fenced(views, input).kept :: exists i :: 0 <= i < |views| && views[i].pod == w.pod
  {
    if views != [] {
      var n := |views| - 1;
      FencedMore(views, input);
      hide Fenced, Classify;
      KeptDistinct(views[..n], input);
      var before := Fenced(views[..n], input).kept;
      forall i | 0 <= i < |before| ensures before[i].pod != views[n].pod {
        assert before[i] in before;
        var k :| 0 <= k < n && views[..n][k].pod == before[i].pod;
        assert views[k].pod != views[n].pod;
      }
      forall w | w in Fenced(views, input).kept ensures exists i :: 0 <= i < |views| && views[i].pod == w.pod {
        if w in before {
          var k :| 0 <= k < n && views[..n][k].pod == w.pod;
          assert views[k].pod == w.pod;
        } else {
          assert views[n].pod == w.pod;
        }
      }
    }
  }

  lemma {:induction false} KeptSame(a: seq<Instance>, b: seq<Instance>, input: Inputs)
    requires SameViews(a, b)
    ensures SameViews(Fenced(a, input).kept, Fenced(b, input).kept)
  {
    hide Classify, KeptView;
    forall w ensures w in Fenced(a, input).kept <==> w in Fenced(b, input).kept {
      KeptIs(a, input, w);
      KeptIs(b, input, w);
      if i :| 0 <= i < |a| && w in KeptView(a[i], Classify(a[i], input)) {
        assert a[i] in b;
      }
      if i :| 0 <= i < |b| && w in KeptView(b[i], Classify(b[i], input)) {
        assert b[i] in a;
      }
    }
  }

  /** Assessment and election together do not depend on the order of the poll. */
  lemma {:induction false} ElectionOrderFree(a: seq<Instance>, b: seq<Instance>, input: Inputs)
    requires SameViews(a, b) && DistinctPods(a) && DistinctPods(b)
    ensures Evaluate(Fenced(a, input).kept, input.committed) == Evaluate(Fenced(b, input).kept, input.committed)
  {
    KeptSame(a, b, input);
    KeptDistinct(a, input);
    KeptDistinct(b, input);
    EvaluateOrderFree(Fenced(a, input).kept, Fenced(b, input).kept, input.committed);
  }

  // --------------------------------------------------------- election safety

  /** Every started pod was polled, and no same-lineage pod stands in the way. */
  ghost predicate Settled(views: seq<Instance>, input: Inputs) {
    && (forall v | v in views :: !StartedUnobserved(v))
    && (forall v | v in views && !IsForeign(v, input.systemId) :: !v.isPrimary && !v.receiving)
    && (forall v | v in views && v.observed && !IsForeign(v, input.systemId) && v.pod != input.committed ::
          && v.isStandby && v.systemId == input.systemId
          && (input.timeline == 0 || v.timeline <= input.timeline))
  }

  /** `t` holds at least as much WAL as any observed same-lineage pod, and is the committed target or comes first. */
  ghost predicate Leads(t: Instance, views: seq<Instance>, input: Inputs) {
    && t in views && t.observed && !IsForeign(t, input.systemId)
    && (forall v | v in views && v.observed && !IsForeign(v, input.systemId) :: v.lsn <= t.lsn)
    && (if input.committed != "" then t.pod == input.committed
        else Candidate(t)
             && forall v | v in views && Candidate(v) && !IsForeign(v, input.systemId) && v != t :: Precedes(t, v))
  }

  /** When a target may be elected from a snapshot under a latched identity. */
  ghost predicate Electable(views: seq<Instance>, input: Inputs, target: Pod) {
    Settled(views, input) && exists t :: Leads(t, views, input) && t.pod == target
  }

  lemma SettledKeeps(views: seq<Instance>, input: Inputs, v: Instance)
    requires Settled(views, input) && v in views && !IsForeign(v, input.systemId) && Polled(v)
    requires 0 <= input.timeline && input.systemId != 0
    ensures Classify(v, input) == Accepted
  {
  }

  /** In a settled snapshot the election works over exactly the same-lineage views, unchanged. */
  lemma {:induction false} SettledKept(views: seq<Instance>, input: Inputs, w: Instance)
    requires Settled(views, input) && Snapshot(views) && 0 <= input.timeline && input.systemId != 0
    ensures w in Fenced(views, input).kept <==> w in views && !IsForeign(w, input.systemId)
  {
    KeptIs(views, input, w);
    if w in views && !IsForeign(w, input.systemId) {
      var i :| 0 <= i < |views| && views[i] == w;
      SettledKeeps(views, input, w);
      assert w in KeptView(views[i], Classify(views[i], input));
    }
    if i :| 0 <= i < |views| && w in KeptView(views[i], Classify(views[i], input)) {
      if !IsForeign(views[i], input.systemId) { SettledKeeps(views, input, views[i]); }
    }
  }

  /** Safe and complete: a target is elected exactly when the snapshot is settled and that pod leads it. */
  lemma {:induction false} ElectedIffElectable(views: seq<Instance>, input: Inputs, target: Pod)
    requires Snapshot(views) && 0 <= input.timeline && input.systemId != 0
    ensures Evaluate(Fenced(views, input).kept, input.committed) == Decision(true, target, false) <==> Electable(views, input, target)
  {
    var kept := Fenced(views, input).kept;
    KeptDistinct(views, input);
    if Electable(views, input, target) {
      var t :| Leads(t, views, input) && t.pod == target;
      forall w ensures w in kept <==> w in views && !IsForeign(w, input.systemId) { SettledKept(views, input, w); }
      LeaderElected(views, input, kept, t);
    }
    if Evaluate(kept, input.committed) == Decision(true, target, false) {
      var s := Summarize(kept, input.committed);
      SummaryIs(kept, input.committed);
      NotHeld(s, input.committed, target);
      assert Settled(views, input) by { ElectedSettled(views, input, kept, s); }
      forall w ensures w in kept <==> w in views && !IsForeign(w, input.systemId) { SettledKept(views, input, w); }
      ElectedLeads(views, input, kept, s, target);
    }
  }

  lemma NotHeld(s: Summary, committed: Pod, target: Pod)
    requires (s.drivable ==> committed != "") && Decide(s, committed) == Decision(true, target, false)
    ensures !s.anyClaimsPrimary && !s.anyUnobserved && !s.anyUnconfirmed && !s.anyReceiving
    ensures committed != "" ==> s.drivable && s.maxLsn <= s.committedLsn && target == committed
    ensures committed == "" ==> s.candidates != [] && First(s.candidates).pod == target && s.maxLsn <= First(s.candidates).lsn
  {
  }

  lemma {:induction false} ElectedSettled(views: seq<Instance>, input: Inputs, kept: seq<Instance>, s: Summary)
    requires Snapshot(views) && 0 <= input.timeline && kept == Fenced(views, input).kept
    requires Summarizes(s, kept, input.committed)
    requires !s.anyClaimsPrimary && !s.anyUnobserved && !s.anyUnconfirmed && !s.anyReceiving
    ensures Settled(views, input)
  {
    forall v | v in views && !IsForeign(v, input.systemId)
      ensures !StartedUnobserved(v) && !v.isPrimary && !v.receiving
      ensures v.observed && v.pod != input.committed ==>
        v.isStandby && v.systemId == input.systemId && (input.timeline == 0 || v.timeline <= input.timeline)
    {
      var i :| 0 <= i < |views| && views[i] == v;
      var w := KeptView(v, Classify(v, input))[0];
      KeptIs(views, input, w);
      assert w in KeptView(views[i], Classify(views[i], input));
      NothingInTheWay(s, kept, input.committed, w);
    }
  }

  lemma NothingInTheWay(s: Summary, kept: seq<Instance>, committed: Pod, w: Instance)
    requires Summarizes(s, kept, committed) && w in kept
    requires !s.anyClaimsPrimary && !s.anyUnobserved && !s.anyUnconfirmed && !s.anyReceiving
    ensures !w.isPrimary && !StartedUnobserved(w) && !Unconfirmed(w, committed) && !w.receiving
  {
  }

  lemma LeaderElected(views: seq<Instance>, input: Inputs, kept: seq<Instance>, t: Instance)
    requires Snapshot(views) && Settled(views, input) && Leads(t, views, input)
    requires DistinctPods(kept) && forall w :: w in kept <==> w in views && !IsForeign(w, input.systemId)
    ensures Evaluate(kept, input.committed) == Decision(true, t.pod, false)
  {
    hide Summarize, Precedes;
    var s := Summarize(kept, input.committed);
    SummaryIs(kept, input.committed);
    ClearFlags(views, input, kept, s);
    assert s.maxLsn <= t.lsn;
    if input.committed != "" {
      assert Drivable(t, input.committed);
      var v :| v in kept && Drivable(v, input.committed) && v.lsn == s.committedLsn;
      CommittedUnique(kept, input.committed, v, t);
    } else {
      assert t in s.candidates;
      CandidatesDistinct(kept, input.committed);
      FirstIsFirst(s.candidates);
      assert IsFirst(t, s.candidates);
      FirstUnique(s.candidates, s.candidates, First(s.candidates), t);
    }
  }

  lemma ClearFlags(views: seq<Instance>, input: Inputs, kept: seq<Instance>, s: Summary)
    requires Settled(views, input) && Summarizes(s, kept, input.committed)
    requires forall w :: w in kept <==> w in views && !IsForeign(w, input.systemId)
    ensures !s.hasReadyPrimary && !s.anyClaimsPrimary && !s.anyUnobserved && !s.anyUnconfirmed && !s.anyReceiving
  {
  }

  lemma {:induction false} ElectedLeads(views: seq<Instance>, input: Inputs, kept: seq<Instance>, s: Summary, target: Pod)
    requires Snapshot(views) && DistinctPods(kept) && forall w :: w in kept <==> w in views && !IsForeign(w, input.systemId)
    requires s == Summarize(kept, input.committed) && Summarizes(s, kept, input.committed)
    requires input.committed != "" ==> s.drivable && s.maxLsn <= s.committedLsn && target == input.committed
    requires input.committed == "" ==> s.candidates != [] && First(s.candidates).pod == target && s.maxLsn <= First(s.candidates).lsn
    ensures exists t :: Leads(t, views, input) && t.pod == target
  {
    hide Summarize, Precedes;
    if input.committed != "" {
      var t :| t in kept && Drivable(t, input.committed) && t.lsn == s.committedLsn;
      assert Leads(t, views, input);
    } else {
      var t := First(s.candidates);
      CandidatesDistinct(kept, input.committed);
      FirstIsFirst(s.candidates);
      forall v | v in views && Candidate(v) && !IsForeign(v, input.systemId) && v != t ensures Precedes(t, v) {
        assert v in s.candidates;
      }
      assert Leads(t, views, input);
    }
  }
}
