/**
Which orders of announcements lose no confirmation, whatever the schedule of the pollers, the
channels and the router's loop (`crates/pgshard-router/src/lib.rs`, `crates/pgshard-topo/src/file.rs`).
*/
module LeaseOrder {
  import opened Lease

  /** Stamp `a` is of an older epoch, or of the same epoch and an older read. */
  predicate Older(a: Stamp, b: Stamp) {
    a.epoch < b.epoch || (a.epoch == b.epoch && a.boot < b.boot)
  }

  /** Right after an announcement of an epoch newer than the one served at the start comes an older one. */
  ghost predicate FallsAt(announced: seq<Stamp>, active: nat, k: nat) {
    k + 1 < |announced| && announced[k].epoch > active && Older(announced[k + 1], announced[k])
  }

  ghost predicate FallsBack(announced: seq<Stamp>, active: nat) {
    exists k :: FallsAt(announced, active, k)
  }

  // --------------------------------------- no fall, nothing lost, in any run

  /** An older announcement after one of the newest epoch comes down from one of that epoch. */
  lemma {:induction false} Descent(announced: seq<Stamp>, i: nat, j: nat) returns (k: nat)
    requires i <= j < |announced| && Older(announced[j], announced[i])
    requires forall x | i <= x <= j :: announced[x].epoch <= announced[i].epoch
    ensures i <= k < j && announced[k].epoch == announced[i].epoch && Older(announced[k + 1], announced[k])
    decreases j
  {
    if Older(announced[j - 1], announced[i]) {
      k := Descent(announced, i, j - 1);
    } else {
      k := j - 1;
    }
  }

  lemma StrandedFalls(w: World, active: nat)
    requires Inv(w) && Covered(w) && active <= w.held.active && Strands(w)
    ensures FallsBack(w.announced, active)
  {
    hide Honest, PollerOk;
    var i :| i in w.observed && i < |w.announced| && w.announced[i].epoch == w.current.epoch
      && w.announced[i].boot > w.held.confirmed
      && (Latest(w).epoch != w.current.epoch || w.announced[i].boot > Latest(w).boot);
    var k := Descent(w.announced, i, |w.announced| - 1);
    assert FallsAt(w.announced, active, k);
  }

  lemma FallsBackGrows(a: seq<Stamp>, b: seq<Stamp>, active: nat)
    requires a <= b && FallsBack(a, active)
    ensures FallsBack(b, active)
  {
    var k :| FallsAt(a, active, k);
    assert FallsAt(b, active, k);
  }

  /** Announcements that never fall back from a newer epoch lose nothing: every received one of the active epoch is installed. */
  lemma {:induction false} SteadyNothingLost(run: seq<World>, actions: seq<Action>, n: nat)
    requires IsRun(run, actions) && n <= |actions| && !FallsBack(run[|actions|].announced, run[0].held.active)
    ensures Covered(run[n])
  {
    if n > 0 {
      hide Next, Enabled, Inv, FallsBack;
      SteadyNothingLost(run, actions, n - 1);
      RunKeeps(run, actions, n - 1);
      NeverBack(run, actions, 0, n - 1);
      AnnouncedGrows(run, actions, n - 1, |actions|);
      if Strands(run[n - 1]) {
        StrandedFalls(run[n - 1], run[0].held.active);
        FallsBackGrows(run[n - 1].announced, run[|actions|].announced, run[0].held.active);
      }
      assert run[n] == Next(run[n - 1], actions[n - 1]);
      StepCoversIff(run[n - 1], actions[n - 1]);
    }
  }

  /** In particular, one poll loop over a source that never goes back. */
  lemma OrderedNothingLost(run: seq<World>, actions: seq<Action>, n: nat)
    requires IsRun(run, actions) && n <= |actions|
    requires var s := run[|actions|].announced;
      forall i, j | 0 <= i < j < |s| :: s[i].epoch <= s[j].epoch && s[i].boot <= s[j].boot
    ensures Covered(run[n])
  {
    SteadyNothingLost(run, actions, n);
  }

  // ---------------------------------------------- a fall, and a run that loses

  /** `run` is a run from `w0` to `w`. */
  ghost predicate Reaches(w0: World, run: seq<World>, actions: seq<Action>, w: World) {
    IsRun(run, actions) && run[0] == w0 && run[|actions|] == w
  }

  lemma More(w0: World, run: seq<World>, actions: seq<Action>, w: World, a: Action) returns (run': seq<World>, actions': seq<Action>)
    requires Reaches(w0, run, actions, w) && Enabled(w, a)
    ensures Reaches(w0, run', actions', Next(w, a))
  {
    hide Enabled, Next;
    run', actions' := run + [Next(w, a)], actions + [a];
    forall i | 0 <= i < |actions'| ensures Enabled(run'[i], actions'[i]) && run'[i + 1] == Next(run'[i], actions'[i]) {
      if i < |actions| { assert actions'[i] == actions[i]; }
    }
  }

  /** Announcements that can follow the loop's start: later reads, newer than what it was seeded with. */
  ghost predicate CanFollow(w0: World, stamps: seq<Stamp>) {
    && stamps != [] && w0.announced == [stamps[0]]
    && forall i | 1 <= i < |stamps| :: w0.clock <= stamps[i].boot && w0.held.confirmed < stamps[i].boot
  }

  /** The pollers of announcements 1 to `m - 1` whose clock was captured before time `t`, or at it and before number `i`. */
  ghost function Captures(stamps: seq<Stamp>, m: nat, t: Boot, i: nat): map<nat, Poller>
    requires m <= |stamps|
  {
    map x: nat | 1 <= x < m && (stamps[x].boot < t || (stamps[x].boot == t && x < i)) :: Captured(stamps[x].boot)
  }

  /** One poller per announcement begins its read at its time. */
  lemma {:induction false} BeginReads(w0: World, stamps: seq<Stamp>, m: nat, t: Boot, i: nat) returns (run: seq<World>, actions: seq<Action>)
    requires Init(w0) && CanFollow(w0, stamps) && 1 <= m <= |stamps| && w0.clock <= t && 1 <= i <= m
    ensures Reaches(w0, run, actions, w0.(clock := t, pollers := Captures(stamps, m, t, i)))
    decreases t, i
  {
    var w := w0.(clock := t, pollers := Captures(stamps, m, t, i));
    if i > 1 {
      run, actions := BeginReads(w0, stamps, m, t, i - 1);
      var before := w0.(clock := t, pollers := Captures(stamps, m, t, i - 1));
      if stamps[i - 1].boot == t {
        run, actions := More(w0, run, actions, before, Capture(i - 1));
        assert before.pollers[i - 1 := Captured(t)] == w.pollers;
      } else {
        assert before.pollers == w.pollers;
      }
    } else if t > w0.clock {
      run, actions := BeginReads(w0, stamps, m, t - 1, m);
      var before := w0.(clock := t - 1, pollers := Captures(stamps, m, t - 1, m));
      run, actions := More(w0, run, actions, before, Tick);
      assert before.pollers == w.pollers;
    } else {
      assert w.pollers == map[];
      run, actions := [w0], [];
    }
  }

  /** The latest announced epoch newer than the one served, if any. */
  ghost predicate Peak(stamps: seq<Stamp>, i: nat, active: nat, epoch: nat)
    requires i <= |stamps|
  {
    && active <= epoch && (forall x | 0 <= x < i :: stamps[x].epoch <= epoch)
    && (epoch == active || exists x :: 0 <= x < i && stamps[x].epoch == epoch)
  }

  /** The announcements before number `i` were made, nothing was taken, and the later readers wait. */
  ghost predicate Announced(w0: World, stamps: seq<Stamp>, i: nat, m: nat, w: World) {
    && 1 <= i <= m <= |stamps|
    && w.announced == stamps[..i] && w.held == w0.held
    && (forall x | i <= x < m :: x in w.pollers && w.pollers[x] == Captured(stamps[x].boot))
    && Peak(stamps, i, w0.held.active, w.current.epoch)
    && (w.current.epoch > w0.held.active ==> w.current.builds && w.updatePending)
  }

  /** Reader `i` loads its stamp's epoch, applies it and announces. */
  lemma AnnounceOne(w0: World, stamps: seq<Stamp>, i: nat, m: nat, w: World, run: seq<World>, actions: seq<Action>)
    returns (run': seq<World>, actions': seq<Action>, w': World)
    requires Reaches(w0, run, actions, w) && Announced(w0, stamps, i, m, w) && i < m
    ensures Reaches(w0, run', actions', w') && Announced(w0, stamps, i + 1, m, w')
    ensures w'.observed == w.observed && w'.seen == w.seen
    ensures (stamps[i].epoch <= w.current.epoch ==> w'.current == w.current && w'.updatePending == w.updatePending)
  {
    var t := Topology(stamps[i].epoch, true);
    run', actions' := More(w0, run, actions, w, Load(i, t));
    var w1 := Next(w, Load(i, t));
    run', actions' := More(w0, run', actions', w1, Apply(i));
    var w2 := Next(w1, Apply(i));
    assert w2.pollers[i] == Applied(stamps[i]);
    run', actions' := More(w0, run', actions', w2, Announce(i));
    w' := Next(w2, Announce(i));
    assert stamps[..i + 1] == stamps[..i] + [stamps[i]];
    PeakMore(stamps, i, w0.held.active, w.current.epoch);
  }

  lemma PeakMore(stamps: seq<Stamp>, i: nat, active: nat, epoch: nat)
    requires i < |stamps| && Peak(stamps, i, active, epoch)
    ensures Peak(stamps, i + 1, active, if stamps[i].epoch > epoch then stamps[i].epoch else epoch)
  {
    if stamps[i].epoch <= epoch && epoch != active {
      var x :| 0 <= x < i && stamps[x].epoch == epoch;
      assert 0 <= x < i + 1;
    }
  }

  lemma {:induction false} AnnounceMany(w0: World, stamps: seq<Stamp>, i: nat, m: nat) returns (run: seq<World>, actions: seq<Action>, w: World)
    requires Init(w0) && CanFollow(w0, stamps) && 1 <= i <= m <= |stamps|
    ensures Reaches(w0, run, actions, w) && Announced(w0, stamps, i, m, w) && w.observed == {} && w.seen == w0.seen
  {
    if i == 1 {
      var t := Newest(w0, stamps, m);
      run, actions := BeginReads(w0, stamps, m, t, m);
      w := w0.(clock := t, pollers := Captures(stamps, m, t, m));
      assert stamps[..1] == [stamps[0]];
      assert Latest(w0) == stamps[0];
    } else {
      hide Reaches, Announced, Init, CanFollow;
      run, actions, w := AnnounceMany(w0, stamps, i - 1, m);
      run, actions, w := AnnounceOne(w0, stamps, i - 1, m, w, run, actions);
    }
  }

  /** A time no earlier than any of the reads. */
  lemma {:induction false} Newest(w0: World, stamps: seq<Stamp>, m: nat) returns (t: Boot)
    requires m <= |stamps|
    ensures w0.clock <= t && forall x | 1 <= x < m :: stamps[x].boot <= t
  {
    if m <= 1 {
      t := w0.clock;
    } else {
      t := Newest(w0, stamps, m - 1);
      if stamps[m - 1].boot > t { t := stamps[m - 1].boot; }
    }
  }

  /** The first fall. */
  lemma {:induction false} FirstFall(stamps: seq<Stamp>, active: nat, k: nat) returns (first: nat)
    requires FallsAt(stamps, active, k)
    ensures FallsAt(stamps, active, first) && forall x: nat | x < first :: !FallsAt(stamps, active, x)
  {
    if x: nat :| x < k && FallsAt(stamps, active, x) {
      first := FirstFall(stamps, active, x);
    } else {
      first := k;
    }
  }

  /** Until the first fall, the epochs newer than the one served only rise. */
  lemma {:induction false} RisesUntil(stamps: seq<Stamp>, active: nat, k: nat, x: nat)
    requires x <= k < |stamps| && stamps[0].epoch <= active && forall y: nat | y < k :: !FallsAt(stamps, active, y)
    ensures (forall y | 0 <= y <= x :: stamps[y].epoch <= active) || (stamps[x].epoch > active && forall y | 0 <= y <= x :: stamps[y].epoch <= stamps[x].epoch)
  {
    if x > 0 {
      RisesUntil(stamps, active, k, x - 1);
      assert !FallsAt(stamps, active, x - 1);
    }
  }

  lemma PeakAtFall(stamps: seq<Stamp>, active: nat, k: nat, epoch: nat)
    requires stamps != [] && stamps[0].epoch <= active && FallsAt(stamps, active, k) && Peak(stamps, k + 1, active, epoch)
    requires forall y: nat | y < k :: !FallsAt(stamps, active, y)
    ensures epoch == stamps[k].epoch
  {
    RisesUntil(stamps, active, k, k);
    if epoch != active {
      var x :| 0 <= x < k + 1 && stamps[x].epoch == epoch;
    }
  }

  /** The loop looks at announcement `k`, the older one follows, and then the router swaps: the confirmation is lost. */
  lemma FallLoses(w0: World, stamps: seq<Stamp>, k: nat) returns (run: seq<World>, actions: seq<Action>, w: World)
    requires Init(w0) && CanFollow(w0, stamps) && FallsAt(stamps, w0.held.active, k)
    requires forall x: nat | x < k :: !FallsAt(stamps, w0.held.active, x)
    ensures Reaches(w0, run, actions, w) && w.announced == stamps[..k + 2] && !Covered(w)
  {
    hide Reaches;
    assert stamps[0] == Latest(w0);
    run, actions, w := AnnounceMany(w0, stamps, k + 1, k + 2);
    PeakAtFall(stamps, w0.held.active, k, w.current.epoch);
    run, actions := More(w0, run, actions, w, TakeValidation);
    var current := w.current;
    w := Next(w, TakeValidation);
    assert w.held == w0.held && k in w.observed && w.current == current;
    run, actions, w := AnnounceOne(w0, stamps, k + 1, k + 2, w, run, actions);
    run, actions := More(w0, run, actions, w, TakeUpdate);
    w := Next(w, TakeUpdate);
    assert k in w.observed && w.announced[k] == stamps[k];
  }

  /** Every run from `w0` whose announcements are a beginning of `stamps` loses no confirmation. */
  ghost predicate LosesNothing(w0: World, stamps: seq<Stamp>) {
    forall run, actions, w | Reaches(w0, run, actions, w) && w.announced <= stamps :: Covered(w)
  }

  /**
  Exactly which orders of announcements are safe under every schedule: a confirmation can be
  lost iff the announcements at some point fall back from an epoch newer than the one served
  at the start.
  */
  lemma LosesNothingIffSteady(w0: World, stamps: seq<Stamp>)
    requires Init(w0) && CanFollow(w0, stamps)
    ensures LosesNothing(w0, stamps) <==> !FallsBack(stamps, w0.held.active)
  {
    hide Init, CanFollow, Covered, IsRun;
    if FallsBack(stamps, w0.held.active) {
      var k :| FallsAt(stamps, w0.held.active, k);
      var first := FirstFall(stamps, w0.held.active, k);
      var run, actions, w := FallLoses(w0, stamps, first);
      assert stamps[..first + 2] <= stamps;
    } else {
      forall run, actions, w | Reaches(w0, run, actions, w) && w.announced <= stamps ensures Covered(w) {
        if FallsBack(w.announced, w0.held.active) { FallsBackGrows(w.announced, stamps, w0.held.active); }
        SteadyNothingLost(run, actions, |actions|);
      }
    }
  }

  /** A loop on epoch 1, seeded by nothing, and announcements of epochs 1, 2 and, from a slow reader, 1 again. */
  const START := World(0, map[], Topology(1, true), false, [Stamp(1, 0)], 1, 1, {}, Held(1, 0), {Read(Stamp(1, 0), 0)}, [])
  const SLOW_READER := [Stamp(1, 0), Stamp(2, 2), Stamp(1, 1)]

  /** Two readers are enough: a slow one of the old epoch announces between the new epoch's announcement and the swap. */
  lemma StaleAnnouncementLoses()
    ensures Init(START) && CanFollow(START, SLOW_READER) && !LosesNothing(START, SLOW_READER)
  {
    assert FallsAt(SLOW_READER, START.held.active, 1);
    LosesNothingIffSteady(START, SLOW_READER);
  }
}
