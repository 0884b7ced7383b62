/**
Whole runs of the failover handshake: reconciles over a status object that is read
from a cache, polled, and written back under optimistic concurrency
(`operator/internal/controller/failover.go`, `pgshardshard_controller.go`,
`crates/pgshard-agent/src/epoch.rs`).
*/
module FailoverRuns {
  import opened Wrappers
  import opened Keyspace
  import opened Failover
  import Epoch

  // --------------------------------------------------------------- latching

  datatype Identity = Identity(latch: Latch, timeline: int)

  predicate Trusted(v: Instance, current: Pod, committed: Pod) {
    v.isPrimary && v.observed && v.pod != "" && (v.pod == current || v.pod == committed) && v.systemId != 0
  }

  function LatchOne(id: Identity, v: Instance, current: Pod, committed: Pod, disagree: bool): Identity {
    if !Trusted(v, current, committed) || (id.latch.Unset? && disagree) then id
    else
      var latch := if id.latch.Unset? then Latched(v.systemId) else id.latch;
      if latch != Latched(v.systemId) || v.timeline <= id.timeline then Identity(latch, id.timeline)
      else if id.timeline == 0 || v.pod == committed then Identity(latch, v.timeline)
      else Identity(latch, id.timeline)
  }

  function LatchAll(id: Identity, views: seq<Instance>, current: Pod, committed: Pod, disagree: bool): Identity {
    if views == [] then id
    else LatchOne(LatchAll(id, views[..|views| - 1], current, committed, disagree), views[|views| - 1], current, committed, disagree)
  }

  function LatchIdentity(id: Identity, views: seq<Instance>, current: Pod, committed: Pod): Identity {
    LatchAll(id, views, current, committed, Disagree(views))
  }

  /** A trusted claimant of lineage `id` on the given timeline is among the views. */
  ghost predicate Vouches(views: seq<Instance>, current: Pod, committed: Pod, id: U64, timeline: int, byCommitted: bool) {
    exists v :: v in views && Trusted(v, current, committed) && v.systemId == id && v.timeline == timeline
                && (byCommitted ==> v.pod == committed)
  }

  ghost predicate Imprints(views: seq<Instance>, current: Pod, committed: Pod, id: U64) {
    exists v :: v in views && Trusted(v, current, committed) && v.systemId == id
  }

  /**
  A set latch is never overwritten and the timeline never falls; a new latch comes from
  a trusted claimant in an undisputed poll; the timeline moves past a recorded one only
  by the committed target, on the latched lineage.
  */
  ghost predicate Latches(id: Identity, out: Identity, views: seq<Instance>, current: Pod, committed: Pod, disagree: bool) {
    && (!id.latch.Unset? ==> out.latch == id.latch)
    && id.timeline <= out.timeline
    && (out.latch != id.latch ==> !disagree && out.latch.Latched? && Imprints(views, current, committed, out.latch.id))
    && (out.timeline != id.timeline ==>
          out.latch.Latched? && Vouches(views, current, committed, out.latch.id, out.timeline, id.timeline != 0))
  }

  lemma {:induction false} LatchIs(id: Identity, views: seq<Instance>, current: Pod, committed: Pod, disagree: bool)
    requires 0 <= id.timeline
    ensures Latches(id, LatchAll(id, views, current, committed, disagree), views, current, committed, disagree)
  {
    if views != [] {
      var n := |views| - 1;
      LatchIs(id, views[..n], current, committed, disagree);
      assert views == views[..n] + [views[n]];
      LatchStepIs(id, LatchAll(id, views[..n], current, committed, disagree), views[..n], views[n], current, committed, disagree);
    }
  }

  lemma LatchStepIs(id: Identity, mid: Identity, init: seq<Instance>, last: Instance, current: Pod, committed: Pod, disagree: bool)
    requires 0 <= id.timeline && Latches(id, mid, init, current, committed, disagree)
    ensures Latches(id, LatchOne(mid, last, current, committed, disagree), init + [last], current, committed, disagree)
  {
    var views, out := init + [last], LatchOne(mid, last, current, committed, disagree);
    assert last in views;
    assert forall v | v in init :: v in views;
    if mid.timeline != id.timeline && out.timeline == mid.timeline {
      assert Vouches(views, current, committed, mid.latch.id, mid.timeline, id.timeline != 0);
    }
    if mid.latch != id.latch {
      assert Imprints(views, current, committed, mid.latch.id);
    }
  }

  // -------------------------------------------------------------- reconciling

  datatype Status = Status(current: Pod, target: Pod, epoch: nat, latch: Latch, timeline: int)

  datatype Promote = Promote(epoch: nat, target: Pod)

  datatype Reconciled = Reconciled(status: Status, promote: Option<Promote>)

  /** The pods whose primary role is believed. */
  function Primaries(views: seq<Instance>, unrecognized: seq<Pod>): seq<Pod> {
    if views == [] then []
    else
      var before, v := Primaries(views[..|views| - 1], unrecognized), views[|views| - 1];
      if v.isPrimary && v.pod !in unrecognized then before + [v.pod] else before
  }

  /** The published primary: the one believed claimant, or none. */
  function Derived(views: seq<Instance>, a: Assessment): Pod {
    var primaries := Primaries(views, a.unrecognized);
    if a.suppressPrimary || |primaries| != 1 then "" else primaries[0]
  }

  function HostOf(views: seq<Instance>, pod: Pod): string {
    if views == [] then "" else if views[0].pod == pod then views[0].host else HostOf(views[1..], pod)
  }

  /** The target/current handshake over the views the assessment kept. */
  function Handshake(status: Status, kept: seq<Instance>): Reconciled {
    var d := Evaluate(kept, status.target);
    if !d.warranted || d.wait then
      if !d.warranted && status.current != "" && status.target != "" then Reconciled(status.(target := ""), None)
      else Reconciled(status, None)
    else if status.target != d.target then
      Reconciled(status.(epoch := status.epoch + 1, target := d.target), None)
    else if HostOf(kept, d.target) == "" then Reconciled(status, None)
    else Reconciled(status, Some(Promote(status.epoch, d.target)))
  }

  function InputsOf(id: Identity, target: Pod): Inputs {
    Inputs(if id.latch.Latched? then id.latch.id else 0, id.timeline, target, id.latch.Malformed?)
  }

  /** One reconcile from the status it read and the views it polled. */
  function Reconcile(status: Status, views: seq<Instance>): Reconciled {
    var id := LatchIdentity(Identity(status.latch, status.timeline), views, status.current, status.target);
    var a := Assess(views, InputsOf(id, status.target));
    var polled := status.(latch := id.latch, timeline := id.timeline, current := Derived(views, a));
    if id.latch.Malformed? || a.conflict then Reconciled(polled, None) else Handshake(polled, a.kept)
  }

  lemma {:induction false} KeptNamed(views: seq<Instance>, input: Inputs, w: Instance)
    requires w in Fenced(views, input).kept && forall v | v in views :: v.pod != ""
    ensures w.pod != ""
  {
    KeptIs(views, input, w);
    var i :| 0 <= i < |views| && w in KeptView(views[i], Classify(views[i], input));
    assert views[i] in views;
  }

  lemma AssessedNamed(views: seq<Instance>, input: Inputs, w: Instance)
    requires w in Assess(views, input).kept && forall v | v in views :: v.pod != ""
    ensures w.pod != ""
  {
    if !input.malformed && input.systemId != 0 { KeptNamed(views, input, w); }
  }

  /** With a commitment, the election returns that target or none. */
  lemma TargetSticks(views: seq<Instance>, committed: Pod)
    requires forall v | v in views :: v.pod != ""
    ensures var d := Evaluate(views, committed);
      d.warranted && !d.wait ==> d.target != "" && (committed != "" ==> d.target == committed)
  {
    SummaryIs(views, committed);
    var s := Summarize(views, committed);
    if committed == "" && s.candidates != [] {
      assert First(s.candidates) in views;
    }
  }

  /** How one written status follows from the one before it. */
  ghost predicate Follows(s: Status, t: Status) {
    && (|| (t.epoch == s.epoch && t.target == s.target)
        || (t.epoch == s.epoch && t.target == "")
        || (t.epoch == s.epoch + 1 && s.target == "" && t.target != ""))
    && (!s.latch.Unset? ==> t.latch == s.latch)
    && s.timeline <= t.timeline
  }

  lemma ReconcileFollows(status: Status, views: seq<Instance>)
    requires 0 <= status.timeline && forall v | v in views :: v.pod != ""
    ensures var r := Reconcile(status, views);
      && Follows(status, r.status)
      && (r.promote.Some? ==> r.promote.value == Promote(status.epoch, status.target) && status.target != "")
  {
    hide Fenced, Classify, Disagree;
    var id := LatchIdentity(Identity(status.latch, status.timeline), views, status.current, status.target);
    LatchIs(Identity(status.latch, status.timeline), views, status.current, status.target, Disagree(views));
    var input := InputsOf(id, status.target);
    var kept := Assess(views, input).kept;
    forall w | w in kept ensures w.pod != "" { AssessedNamed(views, input, w); }
    hide Evaluate, Assess, LatchIdentity, Derived;
    TargetSticks(kept, status.target);
  }

  // ------------------------------------------------- what is ever published

  lemma {:induction false} UnrecognizedIs(views: seq<Instance>, input: Inputs, pod: Pod)
    ensures pod in Fenced(views, input).unrecognized <==>
      exists i :: 0 <= i < |views| && views[i].pod == pod && !Classify(views[i], input).Accepted?
  {
    hide Classify;
    if views != [] {
      var n := |views| - 1;
      UnrecognizedIs(views[..n], input, pod);
      if pod in Fenced(views[..n], input).unrecognized {
        var i :| 0 <= i < n && views[..n][i].pod == pod && !Classify(views[..n][i], input).Accepted?;
        assert views[i].pod == pod;
      }
      if i :| 0 <= i < |views| && views[i].pod == pod && !Classify(views[i], input).Accepted? {
        if i < n { assert views[..n][i].pod == pod; }
      }
    }
  }

  lemma {:induction false} SuppressedIs(views: seq<Instance>, input: Inputs)
    ensures Fenced(views, input).suppressPrimary <==> exists i :: 0 <= i < |views| && Classify(views[i], input).Rogue?
  {
    hide Classify;
    if views != [] {
      var n := |views| - 1;
      SuppressedIs(views[..n], input);
      if i :| 0 <= i < |views| && Classify(views[i], input).Rogue? {
        if i < n { assert Classify(views[..n][i], input).Rogue?; }
      }
      if i :| 0 <= i < n && Classify(views[..n][i], input).Rogue? {
        assert Classify(views[i], input).Rogue?;
      }
    }
  }

  lemma {:induction false} PrimaryIs(views: seq<Instance>, unrecognized: seq<Pod>, pod: Pod)
    requires pod in Primaries(views, unrecognized)
    ensures exists i :: 0 <= i < |views| && views[i].pod == pod && views[i].isPrimary && pod !in unrecognized
  {
    var n := |views| - 1;
    if pod in Primaries(views[..n], unrecognized) {
      PrimaryIs(views[..n], unrecognized, pod);
      var i :| 0 <= i < n && views[..n][i].pod == pod && views[..n][i].isPrimary;
      assert views[i].pod == pod && views[i].isPrimary;
    } else {
      assert views[n].pod == pod && views[n].isPrimary;
    }
  }

  /**
  Under a latched identity, a published primary is a claimant of this lineage that is
  either the committed target or exactly on the recorded timeline, and no other
  claimant of this lineage is unaccounted for.
  */
  lemma PublishedIsVouched(views: seq<Instance>, input: Inputs) returns (i: nat)
    requires input.systemId != 0 && !input.malformed && Derived(views, Assess(views, input)) != ""
    ensures i < |views| && views[i].isPrimary && views[i].pod == Derived(views, Assess(views, input))
    ensures !IsForeign(views[i], input.systemId)
    ensures views[i].pod == input.committed || (views[i].systemId == input.systemId && views[i].timeline == input.timeline)
    ensures forall j | 0 <= j < |views| && views[j].isPrimary && !IsForeign(views[j], input.systemId) ::
      views[j].pod == input.committed || (views[j].systemId == input.systemId && views[j].timeline == input.timeline)
  {
    var a := Fenced(views, input);
    var pod := Derived(views, a);
    PrimaryIs(views, a.unrecognized, pod);
    i :| 0 <= i < |views| && views[i].pod == pod && views[i].isPrimary;
    UnrecognizedIs(views, input, pod);
    SuppressedIs(views, input);
    forall j | 0 <= j < |views| && views[j].isPrimary && !IsForeign(views[j], input.systemId)
      ensures views[j].pod == input.committed || (views[j].systemId == input.systemId && views[j].timeline == input.timeline)
    {
      assert !Classify(views[j], input).Rogue?;
    }
  }

  // -------------------------------------------------------------- whole runs

  /** The status object's written versions, and every promote any reconcile has sent. */
  datatype System = System(versions: seq<Status>, sent: set<Promote>)

  /**
  A reconcile reads some written version, possibly not the latest. Its promote may be
  sent. Its write lands only if nothing was written since its read; a crash or a
  conflict loses it.
  */
  datatype Event = Event(read: nat, views: seq<Instance>, sends: bool, lands: bool)

  ghost predicate Step(s: System, e: Event, s': System) {
    && e.read < |s.versions|
    && (forall v | v in e.views :: v.pod != "")
    && var r := Reconcile(s.versions[e.read], e.views);
       && s'.sent == (if e.sends && r.promote.Some? then s.sent + {r.promote.value} else s.sent)
       && (e.lands ==> e.read == |s.versions| - 1)
       && s'.versions == if e.lands then s.versions + [r.status] else s.versions
  }

  const NEW := Status("", "", 0, Unset, 0)

  ghost predicate IsRun(run: seq<System>, events: seq<Event>) {
    && |run| == |events| + 1
    && run[0] == System([NEW], {})
    && forall i {:trigger events[i]} | 0 <= i < |events| :: Step(run[i], events[i], run[i + 1])
  }

  ghost predicate Inv(s: System) {
    && s.versions != []
    && (forall i | 0 <= i < |s.versions| :: 0 <= s.versions[i].timeline)
    && (forall i | 0 <= i < |s.versions| - 1 :: Follows(s.versions[i], s.versions[i + 1]))
    && (forall p | p in s.sent :: p.target != "" && exists i :: 0 <= i < |s.versions| && Carries(s.versions[i], p))
  }

  ghost predicate Carries(s: Status, p: Promote) {
    s.epoch == p.epoch && s.target == p.target
  }

  lemma StepKeeps(s: System, e: Event, s': System)
    requires Inv(s) && Step(s, e, s')
    ensures Inv(s')
  {
    var r := Reconcile(s.versions[e.read], e.views);
    ReconcileFollows(s.versions[e.read], e.views);
    hide Reconcile;
    forall i | 0 <= i < |s'.versions| - 1 ensures Follows(s'.versions[i], s'.versions[i + 1]) {
      if i < |s.versions| - 1 { assert Follows(s.versions[i], s.versions[i + 1]); }
    }
    forall p | p in s'.sent ensures p.target != "" && exists i :: 0 <= i < |s'.versions| && Carries(s'.versions[i], p) {
      var i: nat;
      if p in s.sent {
        i :| 0 <= i < |s.versions| && Carries(s.versions[i], p);
      } else {
        i := e.read;
      }
      assert Carries(s'.versions[i], p);
    }
  }

  lemma {:induction false} RunKeeps(run: seq<System>, events: seq<Event>, n: nat)
    requires IsRun(run, events) && n <= |events|
    ensures Inv(run[n])
  {
    hide Step;
    if n > 0 {
      RunKeeps(run, events, n - 1);
      assert Step(run[n - 1], events[n - 1], run[n]);
      StepKeeps(run[n - 1], events[n - 1], run[n]);
    }
  }

  /** Between two written versions: the epoch does not fall, and within an epoch a target is only kept or cleared. */
  lemma {:induction false} VersionsEvolve(s: System, i: nat, j: nat)
    requires Inv(s) && i <= j < |s.versions|
    ensures s.versions[i].epoch <= s.versions[j].epoch
    ensures s.versions[i].epoch == s.versions[j].epoch ==> s.versions[j].target == s.versions[i].target || s.versions[j].target == ""
    ensures !s.versions[i].latch.Unset? ==> s.versions[j].latch == s.versions[i].latch
    ensures s.versions[i].timeline <= s.versions[j].timeline
    decreases j
  {
    if i < j {
      VersionsEvolve(s, i, j - 1);
      assert Follows(s.versions[j - 1], s.versions[j]);
    }
  }

  /**
  The fencing token over every run: no epoch is ever sent with two targets, across
  stale reads, crashes, lost writes and repeated promotes.
  */
  lemma OneTargetPerEpoch(run: seq<System>, events: seq<Event>, p: Promote, q: Promote)
    requires IsRun(run, events) && p in run[|events|].sent && q in run[|events|].sent && p.epoch == q.epoch
    ensures p.target == q.target
  {
    var s := run[|events|];
    RunKeeps(run, events, |events|);
    var i :| 0 <= i < |s.versions| && Carries(s.versions[i], p);
    var j :| 0 <= j < |s.versions| && Carries(s.versions[j], q);
    if i <= j { VersionsEvolve(s, i, j); } else { VersionsEvolve(s, j, i); }
  }

  /** Over every run a target changes only through a cleared commitment and a higher epoch. */
  lemma TargetChangesByClearing(run: seq<System>, events: seq<Event>, i: nat, j: nat) returns (k: nat)
    requires IsRun(run, events) && i < j < |run[|events|].versions|
    requires var v := run[|events|].versions; v[i].target != "" && v[j].target != "" && v[i].target != v[j].target
    ensures var v := run[|events|].versions; i < k < j && v[k].target == "" && v[i].epoch < v[j].epoch
  {
    RunKeeps(run, events, |events|);
    k := ClearedBetween(run[|events|], i, j);
  }

  lemma {:induction false} ClearedBetween(s: System, i: nat, j: nat) returns (k: nat)
    requires Inv(s) && i < j < |s.versions|
    requires s.versions[i].target != "" && s.versions[j].target != "" && s.versions[i].target != s.versions[j].target
    ensures i < k < j && s.versions[k].target == "" && s.versions[i].epoch < s.versions[j].epoch
    decreases j
  {
    assert Follows(s.versions[j - 1], s.versions[j]);
    VersionsEvolve(s, i, j);
    if s.versions[j - 1].target == "" {
      k := j - 1;
    } else {
      k := ClearedBetween(s, i, j - 1);
    }
  }

  /** Over every run the latched id never changes and the recorded timeline never falls. */
  lemma IdentityIsForever(run: seq<System>, events: seq<Event>, i: nat, j: nat)
    requires IsRun(run, events) && i <= j < |run[|events|].versions|
    ensures var v := run[|events|].versions;
      && (!v[i].latch.Unset? ==> v[j].latch == v[i].latch)
      && 0 <= v[i].timeline <= v[j].timeline
      && v[i].epoch <= v[j].epoch
  {
    RunKeeps(run, events, |events|);
    VersionsEvolve(run[|events|], i, j);
  }

  // --------------------------------------------------- the agent's side of it

  const PROMOTE := "promote:"

  function RequestOf(p: Promote): Epoch.Request
    requires p.epoch < TOP
  {
    Epoch.Request(p.epoch, PROMOTE + p.target)
  }

  /** The commits are those of promotes that were sent. */
  ghost predicate Serves(sent: set<Promote>, done: seq<Promote>, commits: seq<Epoch.Request>) {
    && |commits| == |done|
    && forall i | 0 <= i < |done| :: done[i] in sent && done[i].epoch < TOP && commits[i] == RequestOf(done[i])
  }

  /**
  An agent whose commits are promotes of one run never meets two requests of the same
  epoch that differ: an equal epoch is always the same request.
  */
  lemma {:induction false} PromotesNeverConflict(run: seq<System>, events: seq<Event>, done: seq<Promote>, commits: seq<Epoch.Request>, p: Promote)
    requires IsRun(run, events) && p in run[|events|].sent && p.epoch < TOP
    requires Serves(run[|events|].sent, done, commits)
    ensures !Epoch.Checked(Epoch.After(commits), p.epoch, RequestOf(p).key).Err?
         || !Epoch.Checked(Epoch.After(commits), p.epoch, RequestOf(p).key).error.Conflict?
  {
    if commits != [] {
      var first := Epoch.AfterIs(commits);
      if done[first].epoch == p.epoch {
        OneTargetPerEpoch(run, events, done[first], p);
      }
    }
  }
}
