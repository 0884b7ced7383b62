/**
Write-lease renewal: pollers that read, apply and announce, two watch channels, and the
router loop that swaps and renews (`crates/pgshard-topo/src/file.rs`,
`crates/pgshard-topo/src/lib.rs`, `watch_topology_leased` of
`crates/pgshard-router/src/lib.rs`).
*/
module Lease {
  import opened Wrappers

  /** Time since boot; 0 is the sentinel of a view nothing has confirmed. */
  type Boot = nat

  /** One successful read of the source: the epoch it saw and the clock captured before it began. */
  datatype Stamp = Stamp(epoch: nat, boot: Boot)

  /** A topology, and whether a router can be built from it. */
  datatype Topology = Topology(epoch: nat, builds: bool)

  // ------------------------------------------------------ the router's state

  /** The active router's epoch and the installed freshness. */
  datatype Held = Held(active: nat, confirmed: Boot)

  /** A stamp older than the installed one is ignored. */
  function Installed(confirmed: Boot, stamp: Stamp): Boot {
    if stamp.boot > confirmed then stamp.boot else confirmed
  }

  /** A validation renews only the epoch being served. */
  function OnValidation(h: Held, stamp: Stamp): Held {
    if stamp.epoch == h.active then h.(confirmed := Installed(h.confirmed, stamp)) else h
  }

  /** An update that builds is swapped in, and then the latest announcement is consulted. */
  function OnUpdate(h: Held, topology: Topology, latest: Stamp): Held {
    if topology.builds then OnValidation(h.(active := topology.epoch), latest) else h
  }

  /** The freshness stamp shared with the proxy. */
  class Freshness {
    var boot: Boot
    var wall: nat

    /** No confirmation at all. */
    constructor Unconfirmed()
      ensures boot == 0 && wall == 0
    {
      boot := 0;
      wall := 0;
    }

    constructor Seeded(stamp: Stamp, wall: nat)
      ensures boot == stamp.boot && this.wall == wall
    {
      boot := stamp.boot;
      this.wall := wall;
    }

    method Install(stamp: Stamp, wall: nat)
      modifies this
      ensures boot == Installed(old(boot), stamp)
      ensures this.wall == if stamp.boot > old(boot) then wall else old(this.wall)
    {
      if stamp.boot > boot {
        boot := stamp.boot;
        this.wall := wall;
      }
    }

    /** The larger of the two clocks' readings; maximal (`None`) when a clock is unusable. */
    method Age(wallNow: nat, bootNow: Option<Boot>) returns (age: Option<nat>)
      ensures age.None? <==> wallNow < wall || bootNow.None?
      ensures age.Some? ==> age.value >= bootNow.value - boot && age.value >= wallNow - wall
      ensures age.Some? ==> age.value == bootNow.value - boot || age.value == wallNow - wall
    {
      if wallNow < wall {
        return None;
      }
      var wallElapsed := wallNow - wall;
      if bootNow.None? {
        return None;
      }
      var bootElapsed := if bootNow.value > boot then bootNow.value - boot else 0;
      return Some(if bootElapsed > wallElapsed then bootElapsed else wallElapsed);
    }
  }

  /** A renewal: the stamp and the epoch active when it was installed. */
  datatype Renewal = Renewal(stamp: Stamp, active: nat)

  /** The arms of the leased watch loop over the shared router and freshness. `renewals` are the stamps it installed. */
  class LeasedRouter {
    var active: nat
    const freshness: Freshness
    ghost const seeded: Boot
    ghost var renewals: seq<Renewal>

    /** Every renewal confirmed the epoch then active, each is newer than the last, and the freshness is the newest. */
    ghost predicate Valid()
      reads this, freshness
    {
      && (forall i | 0 <= i < |renewals| :: renewals[i].stamp.epoch == renewals[i].active && seeded < renewals[i].stamp.boot)
      && (forall i, j | 0 <= i < j < |renewals| :: renewals[i].stamp.boot < renewals[j].stamp.boot)
      && freshness.boot == if renewals == [] then seeded else renewals[|renewals| - 1].stamp.boot
    }

    constructor(active: nat, freshness: Freshness)
      ensures Valid() && this.active == active && this.freshness == freshness && renewals == [] && seeded == freshness.boot
    {
      this.active := active;
      this.freshness := freshness;
      seeded := freshness.boot;
      renewals := [];
    }

    /** What a stamp does: it is never older afterwards, and is installed only if it confirms the active epoch and is newer. */
    twostate predicate Renews(stamp: Stamp, wall: nat)
      reads this, freshness
    {
      && renewals == old(renewals) + (if stamp.epoch == active && old(freshness.boot) < stamp.boot then [Renewal(stamp, active)] else [])
      && freshness.boot >= old(freshness.boot)
      && (stamp.epoch == active ==> freshness.boot >= stamp.boot)
      && freshness.wall == if renewals == old(renewals) then old(freshness.wall) else wall
    }

    method HandleValidation(stamp: Stamp, wall: nat)
      requires Valid()
      modifies `renewals, freshness
      ensures Valid() && Renews(stamp, wall)
      ensures Held(active, freshness.boot) == OnValidation(old(Held(active, freshness.boot)), stamp)
    {
      if stamp.epoch == active {
        if stamp.boot > freshness.boot {
          renewals := renewals + [Renewal(stamp, active)];
        }
        freshness.Install(stamp, wall);
      }
    }

    /** A topology that does not build leaves the router, its epoch and its lease as they were. */
    method HandleUpdate(topology: Topology, latest: Stamp, wall: nat)
      requires Valid()
      modifies this, freshness
      ensures Valid() && active == (if topology.builds then topology.epoch else old(active))
      ensures topology.builds ==> Renews(latest, wall)
      ensures !topology.builds ==> renewals == old(renewals) && freshness.boot == old(freshness.boot) && freshness.wall == old(freshness.wall)
      ensures Held(active, freshness.boot) == OnUpdate(old(Held(active, freshness.boot)), topology, latest)
    {
      if topology.builds {
        active := topology.epoch;
        if latest.epoch == active {
          if latest.boot > freshness.boot {
            renewals := renewals + [Renewal(latest, active)];
          }
          freshness.Install(latest, wall);
        }
      }
    }
  }

  // --------------------------------------------------------- the whole system

  datatype Poller = Captured(boot: Boot) | Loaded(boot: Boot, topology: Topology) | Applied(stamp: Stamp)

  datatype Read = Read(stamp: Stamp, at: Boot)

  datatype World = World(
    clock: Boot,
    pollers: map<nat, Poller>,
    current: Topology, updatePending: bool,        // the update channel and its unseen flag
    announced: seq<Stamp>, seen: nat,              // every announcement, and how many the loop has observed or skipped
    firstSeen: nat,                                // announcements made before the loop subscribed
    observed: set<nat>,                            // the announcements the loop looked at
    held: Held,
    history: set<Read>,
    renewals: seq<Renewal>)

  datatype Action =
    | Tick
    | Capture(pid: nat)
    | Load(pid: nat, topology: Topology)
    | Apply(pid: nat)
    | Announce(pid: nat)
    | Stop(pid: nat)
    | TakeValidation
    | TakeUpdate

  function Latest(w: World): Stamp
    requires w.announced != []
  {
    w.announced[|w.announced| - 1]
  }

  ghost predicate Enabled(w: World, a: Action) {
    match a
    case Tick => true
    case Capture(p) => p !in w.pollers
    case Load(p, t) => p in w.pollers && w.pollers[p].Captured?
    case Apply(p) => p in w.pollers && w.pollers[p].Loaded?
    case Announce(p) => p in w.pollers && w.pollers[p].Applied?
    case Stop(p) => p in w.pollers
    case TakeValidation => w.seen < |w.announced|
    case TakeUpdate => w.updatePending && w.announced != []
  }

  function Renew(w: World, held: Held, stamp: Stamp): World {
    w.(held := held, renewals := if held.confirmed != w.held.confirmed then w.renewals + [Renewal(stamp, held.active)] else w.renewals)
  }

  function Next(w: World, a: Action): World
    requires Enabled(w, a)
  {
    match a
    case Tick => w.(clock := w.clock + 1)
    case Capture(p) => w.(pollers := w.pollers[p := Captured(w.clock)])
    case Load(p, t) =>
      w.(pollers := w.pollers[p := Loaded(w.pollers[p].boot, t)],
         history := w.history + {Read(Stamp(t.epoch, w.pollers[p].boot), w.clock)})
    case Apply(p) =>
      var t := w.pollers[p].topology;
      var w1 := w.(pollers := w.pollers[p := Applied(Stamp(t.epoch, w.pollers[p].boot))]);
      if t.epoch > w.current.epoch then w1.(current := t, updatePending := true) else w1
    case Announce(p) => w.(pollers := w.pollers - {p}, announced := w.announced + [w.pollers[p].stamp])
    case Stop(p) => w.(pollers := w.pollers - {p})
    // A watch channel keeps only its latest value: taking it skips the ones before.
    case TakeValidation =>
      var w1 := w.(seen := |w.announced|, observed := w.observed + {|w.announced| - 1});
      Renew(w1, OnValidation(w.held, Latest(w)), Latest(w))
    case TakeUpdate =>
      var w1 := w.(updatePending := false, observed := if w.current.builds then w.observed + {|w.announced| - 1} else w.observed);
      Renew(w1, OnUpdate(w.held, w.current, Latest(w)), Latest(w))
  }

  /** The loop starts on the current topology, seeded from a validation of it or unconfirmed. */
  ghost predicate Init(w: World) {
    && w.pollers == map[] && w.renewals == [] && w.observed == {}
    && |w.announced| == 1 && Latest(w).epoch <= w.current.epoch && Latest(w).boot <= w.clock
    && w.seen == w.firstSeen == 1
    && w.held.active == w.current.epoch
    && w.history == {Read(Latest(w), w.clock)}
    && (w.held.confirmed == 0 || (w.held.confirmed == Latest(w).boot && Latest(w).epoch == w.held.active))
  }

  ghost predicate IsRun(run: seq<World>, actions: seq<Action>) {
    && |run| == |actions| + 1
    && Init(run[0])
    && forall i {:trigger actions[i]} | 0 <= i < |actions| :: Enabled(run[i], actions[i]) && run[i + 1] == Next(run[i], actions[i])
  }

  // -------------------------------------------------------------- invariant

  /** A stamp of a read that began no earlier than the stamp says. */
  ghost predicate Honest(w: World, stamp: Stamp) {
    exists at :: stamp.boot <= at <= w.clock && Read(stamp, at) in w.history
  }

  ghost predicate PollerOk(w: World, p: Poller) {
    match p
    case Captured(boot) => boot <= w.clock
    case Loaded(boot, t) => boot <= w.clock && Honest(w, Stamp(t.epoch, boot))
    case Applied(stamp) => Honest(w, stamp) && stamp.epoch <= w.current.epoch
  }

  ghost predicate Inv(w: World) {
    && w.announced != [] && 1 <= w.firstSeen <= w.seen <= |w.announced|
    && (forall p | p in w.pollers :: PollerOk(w, w.pollers[p]))
    && (forall i | 0 <= i < |w.announced| :: Honest(w, w.announced[i]) && w.announced[i].epoch <= w.current.epoch)
    && (forall i | 0 <= i < |w.renewals| :: Honest(w, w.renewals[i].stamp) && w.renewals[i].stamp.epoch == w.renewals[i].active)
    && w.held.active <= w.current.epoch
    && (w.firstSeen < w.seen && w.seen == |w.announced| && Latest(w).epoch == w.held.active ==> Latest(w).boot <= w.held.confirmed)
  }

  lemma HonestStays(w: World, w': World, stamp: Stamp)
    requires Honest(w, stamp) && w.history <= w'.history && w.clock <= w'.clock
    ensures Honest(w', stamp)
  {
    var at :| stamp.boot <= at <= w.clock && Read(stamp, at) in w.history;
    assert stamp.boot <= at <= w'.clock && Read(stamp, at) in w'.history;
  }

  lemma StepHonest(w: World, a: Action)
    requires Inv(w) && Enabled(w, a)
    ensures var w' := Next(w, a);
      && (forall p | p in w'.pollers :: PollerOk(w', w'.pollers[p]))
      && (forall i | 0 <= i < |w'.announced| :: Honest(w', w'.announced[i]) && w'.announced[i].epoch <= w'.current.epoch)
      && (forall i | 0 <= i < |w'.renewals| :: Honest(w', w'.renewals[i].stamp) && w'.renewals[i].stamp.epoch == w'.renewals[i].active)
  {
    var w' := Next(w, a);
    assert w.history <= w'.history && w.clock <= w'.clock;
    forall stamp | Honest(w, stamp) ensures Honest(w', stamp) { HonestStays(w, w', stamp); }
    if a.Load? {
      var p := w'.pollers[a.pid];
      assert Read(Stamp(p.topology.epoch, p.boot), w.clock) in w'.history;
      assert Honest(w', Stamp(p.topology.epoch, p.boot));
    }
  }

  lemma StepKeeps(w: World, a: Action)
    requires Inv(w) && Enabled(w, a)
    ensures Inv(Next(w, a))
  {
    StepHonest(w, a);
    hide Honest, PollerOk;
  }

  lemma InitInv(w: World)
    requires Init(w)
    ensures Inv(w)
  {
    assert Read(Latest(w), w.clock) in w.history;
    assert Honest(w, Latest(w));
  }

  lemma {:induction false} RunKeeps(run: seq<World>, actions: seq<Action>, n: nat)
    requires IsRun(run, actions) && n <= |actions|
    ensures Inv(run[n])
  {
    hide Inv, Enabled, Next;
    if n == 0 {
      InitInv(run[0]);
    } else {
      RunKeeps(run, actions, n - 1);
      assert run[n] == Next(run[n - 1], actions[n - 1]);
      StepKeeps(run[n - 1], actions[n - 1]);
    }
  }

  // ---------------------------------------------------------------- theorems

  /** Every renewal comes from a read, begun no earlier than its stamp, that saw the epoch active at install. */
  lemma RenewalsAreEarned(run: seq<World>, actions: seq<Action>, i: nat)
    requires IsRun(run, actions) && i < |run[|actions|].renewals|
    ensures var r := run[|actions|].renewals[i];
      && r.stamp.epoch == r.active
      && exists at :: r.stamp.boot <= at && Read(r.stamp, at) in run[|actions|].history
  {
    RunKeeps(run, actions, |actions|);
    assert Honest(run[|actions|], run[|actions|].renewals[i].stamp);
  }

  /** In every interleaving, freshness never moves back and the active epoch only rises. */
  lemma {:induction false} NeverBack(run: seq<World>, actions: seq<Action>, i: nat, j: nat)
    requires IsRun(run, actions) && i <= j <= |actions|
    ensures run[i].held.confirmed <= run[j].held.confirmed
    ensures run[i].held.active <= run[j].held.active
    decreases j
  {
    if i < j {
      NeverBack(run, actions, i, j - 1);
      RunKeeps(run, actions, j - 1);
      assert run[j] == Next(run[j - 1], actions[j - 1]);
    }
  }

  /**
  No renewal is lost to the select order: once both channels are drained, the latest
  announcement the loop received is installed if it confirms the active epoch.
  */
  lemma DrainedIsRenewed(run: seq<World>, actions: seq<Action>)
    requires IsRun(run, actions)
    requires var w := run[|actions|]; w.seen == |w.announced| && w.firstSeen < w.seen
    ensures var w := run[|actions|]; Latest(w).epoch == w.held.active ==> Latest(w).boot <= w.held.confirmed
  {
    RunKeeps(run, actions, |actions|);
  }

  /** Every announcement the loop looked at that confirms the active epoch is covered. */
  ghost predicate Covered(w: World) {
    forall i | i in w.observed :: i < |w.announced| && (w.announced[i].epoch == w.held.active ==> w.announced[i].boot <= w.held.confirmed)
  }

  lemma {:induction false} AnnouncedGrows(run: seq<World>, actions: seq<Action>, i: nat, j: nat)
    requires IsRun(run, actions) && i <= j <= |actions|
    ensures run[i].announced <= run[j].announced
    decreases j
  {
    if i < j {
      AnnouncedGrows(run, actions, i, j - 1);
      assert run[j] == Next(run[j - 1], actions[j - 1]);
    }
  }

  /**
  The swap about to happen strands a received announcement: it confirms the new epoch and is
  newer than both the installed stamp and the consulted announcement, if that one confirms it.
  */
  ghost predicate Strands(w: World) {
    && w.current.builds && w.announced != []
    && exists i :: i in w.observed && i < |w.announced| && w.announced[i].epoch == w.current.epoch
         && w.announced[i].boot > w.held.confirmed
         && (Latest(w).epoch != w.current.epoch || w.announced[i].boot > Latest(w).boot)
  }

  lemma StepCoversIff(w: World, a: Action)
    requires Inv(w) && Covered(w) && Enabled(w, a)
    ensures Covered(Next(w, a)) <==> !(a.TakeUpdate? && Strands(w))
  {
    hide Honest, PollerOk;
    assert w.announced <= Next(w, a).announced;
  }

  /**
  A poll that goes undisturbed is served: one that reads a newer topology that builds makes it the
  active one and renews to no earlier than the poll began, and one that reads the active epoch
  again renews it.
  */
  lemma PollIsServed(w: World, p: nat, t: Topology)
    requires p !in w.pollers && w.seen <= |w.announced|
    requires t.builds && (t.epoch > w.current.epoch || t.epoch == w.held.active == w.current.epoch)
    ensures var w1 := Next(w, Capture(p));
      var w2 := Next(w1, Load(p, t));
      var w3 := Next(w2, Apply(p));
      var w4 := Next(w3, Announce(p));
      var take := if t.epoch > w.current.epoch then TakeUpdate else TakeValidation;
      && Enabled(w4, take)
      && var w5 := Next(w4, take);
         w5.held.active == t.epoch && w5.held.confirmed == if w.held.confirmed < w.clock then w.clock else w.held.confirmed
  {
  }

  /** Freshness rises only by renewals: it is what the loop started with, or the stamp of a renewal. */
  lemma {:induction false} ConfirmedIsRenewal(run: seq<World>, actions: seq<Action>, n: nat)
    requires IsRun(run, actions) && n <= |actions|
    ensures var w := run[n]; w.held.confirmed == run[0].held.confirmed || exists i :: 0 <= i < |w.renewals| && w.renewals[i].stamp.boot == w.held.confirmed
  {
    if n > 0 {
      ConfirmedIsRenewal(run, actions, n - 1);
      var w, w' := run[n - 1], run[n];
      assert w' == Next(w, actions[n - 1]);
      if w'.held.confirmed != w.held.confirmed {
        assert w'.renewals[|w.renewals|].stamp.boot == w'.held.confirmed;
      } else if w.held.confirmed != run[0].held.confirmed {
        var i :| 0 <= i < |w.renewals| && w.renewals[i].stamp.boot == w.held.confirmed;
        assert w'.renewals[i] == w.renewals[i];
      }
    }
  }
}
