/**
Global sequence ids: blocks reserved from one authoritative row and handed out by any
number of threads on any number of routers (`crates/pgshard-seq/src/lib.rs`,
`crates/pgshard-router/src/sequence.rs`). The state is that of one sequence; every map
and row of the program is keyed by the sequence's name.
*/
module Sequence {
  import opened Wrappers

  const I64_MAX: int := 0x7FFF_FFFF_FFFF_FFFF
  const I64_MIN: int := -0x8000_0000_0000_0000

  // ------------------------------------------------------------- one router

  /** A reserved range `[next, end)`. */
  datatype Block = Block(next: int, end: int)

  datatype Entry = Entry(block: Block, refillAt: int, reserving: bool)

  datatype SeqError = UnknownSequence | Backend | Exhausted

  /** What a caller does after looking at the entry under the lock. */
  datatype Look = Hands(id: int) | Waits | Claims

  function LookAt(e: Option<Entry>): (r: (Option<Entry>, Look)) {
    match e
    case None => (Some(Entry(Block(0, 0), 0, true)), Claims)
    case Some(entry) =>
      if entry.block.next < entry.block.end then
        (Some(entry.(block := entry.block.(next := entry.block.next + 1))), Hands(entry.block.next))
      else if entry.reserving then (e, Waits)
      else (Some(entry.(reserving := true)), Claims)
  }

  /** A usable reservation: at least one id, and representable. */
  predicate Usable(start: int, size: int) {
    0 < size && start + size <= I64_MAX
  }

  /** Rust's division truncates toward zero; a usable size is positive. */
  function RefillAt(size: int): (r: int)
    ensures r >= 1 && (size >= 5 ==> 5 * r <= size < 5 * r + 5)
  {
    if size / 5 > 1 then size / 5 else 1
  }

  /** The end of a reservation: the claim is released, and a usable range becomes the block. */
  function Settle(entry: Entry, result: Result<(int, int), SeqError>): (r: (Entry, Result<int, SeqError>)) {
    var open := entry.(reserving := false);
    match result
    case Err(e) => (open, Err(e))
    case Ok(range) =>
      if range.1 <= 0 then (open, Err(Backend))
      else if range.0 + range.1 > I64_MAX then (open, Err(Exhausted))
      else (Entry(Block(range.0 + 1, range.0 + range.1), RefillAt(range.1), false), Ok(range.0))
  }

  /** The cache's map entry for one sequence, changed under its lock. `handed` are the ids it has given out. */
  class SequenceCache {
    var entry: Option<Entry>
    ghost var handed: seq<int>

    /** No id was given out twice, none left in the block was given out, and a claim is only over a drained block. */
    ghost predicate Valid()
      reads this
    {
      && (forall i, j | 0 <= i < j < |handed| :: handed[i] != handed[j])
      && (entry.Some? ==> forall i | 0 <= i < |handed| :: !Left(handed[i]))
      && (entry.Some? && entry.value.reserving ==> Drained())
    }

    /** `id` is still in the block. */
    ghost predicate Left(id: int)
      requires entry.Some?
      reads this
    {
      entry.value.block.next <= id < entry.value.block.end
    }

    ghost predicate Drained()
      requires entry.Some?
      reads this
    {
      entry.value.block.end <= entry.value.block.next
    }

    constructor()
      ensures Valid() && entry == None && handed == []
    {
      entry := None;
      handed := [];
    }

    /**
    One turn of the `next_id` loop under the lock: a new id from the block; or nothing, while
    another caller's claim covers a drained block; or the claim itself, if no one holds it.
    */
    method Turn() returns (look: Look)
      requires Valid()
      modifies this
      ensures Valid() && (entry, look) == LookAt(old(entry))
      ensures look.Hands? ==> look.id !in old(handed) && handed == old(handed) + [look.id]
      ensures !look.Hands? ==> handed == old(handed) && Drained() && entry.value.reserving
      ensures look.Waits? <==> old(entry).Some? && old(entry).value.reserving && old(Drained())
      ensures look.Claims? <==> old(entry).None? || (!old(entry).value.reserving && old(Drained()))
      ensures old(entry).Some? ==> entry.value.block.end == old(entry).value.block.end
      ensures look.Hands? ==> old(Left(look.id)) && forall id | old(Left(id)) :: look.id <= id
      ensures old(entry).Some? ==> forall id :: Left(id) <==> old(Left(id)) && look != Hands(id)
    {
      match entry
      case Some(e) =>
        if e.block.next < e.block.end {
          var id := e.block.next;
          entry := Some(e.(block := e.block.(next := id + 1)));
          handed := handed + [id];
          return Hands(id);
        }
        if e.reserving {
          return Waits;
        }
        entry := Some(e.(reserving := true));
        return Claims;
      case None =>
        entry := Some(Entry(Block(0, 0), 0, true));
        return Claims;
    }

    /**
    After the reservation returned, under the claim: it is released whatever was returned, and a
    usable range, whose ids the reserver never returned before, becomes the block after its first id.
    */
    method Finish(result: Result<(int, int), SeqError>) returns (r: Result<int, SeqError>)
      requires Valid() && entry.Some? && entry.value.reserving
      requires result.Ok? && Usable(result.value.0, result.value.1) ==> forall i | 0 <= i < |handed| :: !(result.value.0 <= handed[i] < result.value.0 + result.value.1)
      modifies this
      ensures Valid() && entry.Some? && (entry.value, r) == Settle(old(entry).value, result)
      ensures !entry.value.reserving
      ensures r.Ok? <==> result.Ok? && Usable(result.value.0, result.value.1)
      ensures r.Ok? ==> r.value == result.value.0 && r.value !in old(handed) && handed == old(handed) + [r.value]
      ensures r.Ok? ==> forall id :: Left(id) <==> result.value.0 < id < result.value.0 + result.value.1
      ensures r.Err? ==> handed == old(handed) && Drained()
    {
      entry := Some(entry.value.(reserving := false));
      if result.Err? {
        return Err(result.error);
      }
      var start, size := result.value.0, result.value.1;
      if size <= 0 {
        return Err(Backend);
      }
      if start + size > I64_MAX {
        return Err(Exhausted);
      }
      entry := Some(Entry(Block(start + 1, start + size), RefillAt(size), false));
      handed := handed + [start];
      return Ok(start);
    }

    /** The claim dropped while unwinding: nobody holds it, and the block is as it was. */
    method DropClaim()
      requires Valid()
      modifies this
      ensures Valid() && handed == old(handed) && entry.Some? == old(entry).Some?
      ensures entry.Some? ==> !entry.value.reserving && forall id :: Left(id) <==> old(Left(id))
    {
      if entry.Some? {
        entry := Some(entry.value.(reserving := false));
      }
    }
  }

  // ----------------------------------------------------- routers and threads

  type Router = nat
  type Tid = nat

  datatype Phase =
    | Idle
    | Waiting
    | Claiming                                 // holds the claim, reservation not answered
    | Answered(result: Result<(int, int), SeqError>)
    | Panicked                                 // unwinding, claim still armed

  datatype Thread = Thread(router: Router, phase: Phase) {
    predicate HoldsClaim() {
      phase.Claiming? || phase.Answered? || phase.Panicked?
    }
  }

  /** The authoritative row; absent when the sequence is not registered. */
  datatype Row = Row(nextId: int, blockSize: int)

  datatype World = World(row: Option<Row>, caches: map<Router, Entry>, threads: map<Tid, Thread>, handed: seq<int>)

  datatype Action =
    | Spawn(tid: Tid, router: Router)
    | Turn(tid: Tid)
    | Reserve(tid: Tid, lost: bool)
    | Fail(tid: Tid, error: SeqError)
    | AnswerUnusable(tid: Tid, start: int, size: int)
    | Panic(tid: Tid)
    | Settles(tid: Tid)
    | Unwind(tid: Tid)
    | Restart(router: Router)
    | Resize(blockSize: int)

  ghost predicate At(w: World, t: Tid, phase: Phase) {
    t in w.threads && w.threads[t].phase == phase
  }

  ghost predicate Enabled(w: World, a: Action) {
    match a
    case Spawn(t, _) => t !in w.threads
    case Turn(t) => At(w, t, Idle) || At(w, t, Waiting)
    case Reserve(t, _) => At(w, t, Claiming)
    case Fail(t, _) => At(w, t, Claiming)
    case AnswerUnusable(t, start, size) => At(w, t, Claiming) && !Usable(start, size)
    case Panic(t) => At(w, t, Claiming)
    case Settles(t) => t in w.threads && w.threads[t].phase.Answered? && w.threads[t].router in w.caches
    case Unwind(t) => At(w, t, Panicked)
    case Restart(_) => true
    case Resize(size) => w.row.Some? && I64_MIN <= size <= I64_MAX
  }

  function SetPhase(w: World, t: Tid, phase: Phase): World
    requires t in w.threads
  {
    w.(threads := w.threads[t := w.threads[t].(phase := phase)])
  }

  /** The single-row update: advances by a positive block size, or reports why it did not. */
  function Advance(row: Option<Row>): (r: (Option<Row>, Result<(int, int), SeqError>)) {
    match row
    case None => (None, Err(UnknownSequence))
    case Some(x) =>
      if x.blockSize <= 0 then (row, Err(Backend))
      else if x.nextId + x.blockSize > I64_MAX then (row, Err(Backend))
      else (Some(x.(nextId := x.nextId + x.blockSize)), Ok((x.nextId, x.blockSize)))
  }

  function Next(w: World, a: Action): World
    requires Enabled(w, a)
  {
    match a
    case Spawn(t, r) => w.(threads := w.threads[t := Thread(r, Idle)])
    case Turn(t) =>
      var r := w.threads[t].router;
      var (entry, look) := LookAt(if r in w.caches then Some(w.caches[r]) else None);
      var w1 := if entry.Some? then w.(caches := w.caches[r := entry.value]) else w;
      (match look
       case Hands(id) => SetPhase(w1, t, Idle).(handed := w.handed + [id])
       case Waits => SetPhase(w1, t, Waiting)
       case Claims => SetPhase(w1, t, Claiming))
    case Reserve(t, lost) =>
      var (row, result) := Advance(w.row);
      SetPhase(w, t, Answered(if lost then Err(Backend) else result)).(row := row)
    case Fail(t, e) => SetPhase(w, t, Answered(Err(e)))
    case AnswerUnusable(t, start, size) => SetPhase(w, t, Answered(Ok((start, size))))
    case Panic(t) => SetPhase(w, t, Panicked)
    case Settles(t) =>
      var r := w.threads[t].router;
      var (entry, out) := Settle(w.caches[r], w.threads[t].phase.result);
      var w1 := SetPhase(w.(caches := w.caches[r := entry]), t, Idle);
      if out.Ok? then w1.(handed := w.handed + [out.value]) else w1
    case Unwind(t) =>
      var r := w.threads[t].router;
      var w1 := w.(threads := w.threads - {t});
      if r in w.caches then w1.(caches := w.caches[r := w.caches[r].(reserving := false)]) else w1
    case Restart(r) =>
      w.(caches := w.caches - {r}, threads := map t | t in w.threads && w.threads[t].router != r :: w.threads[t])
    case Resize(size) => w.(row := Some(w.row.value.(blockSize := size)))
  }

  ghost predicate Init(w: World) {
    && (w.row.Some? ==> I64_MIN <= w.row.value.nextId <= I64_MAX)
    && w.caches == map[] && w.threads == map[] && w.handed == []
  }

  ghost predicate IsRun(run: seq<World>, actions: seq<Action>) {
    && |run| == |actions| + 1
    && Init(run[0])
    && forall i {:trigger actions[i]} | 0 <= i < |actions| :: Enabled(run[i], actions[i]) && run[i + 1] == Next(run[i], actions[i])
  }

  // -------------------------------------------------------------- invariant

  /** Who may still hand out an id: a router's block, or a reservation on its way to one. */
  datatype Holder = CacheOf(router: Router) | FlightOf(tid: Tid)

  ghost predicate Owns(w: World, h: Holder, id: int) {
    match h
    case CacheOf(r) => r in w.caches && w.caches[r].block.next <= id < w.caches[r].block.end
    case FlightOf(t) =>
      && t in w.threads && w.threads[t].phase.Answered? && w.threads[t].phase.result.Ok?
      && var range := w.threads[t].phase.result.value;
         Usable(range.0, range.1) && range.0 <= id < range.0 + range.1
  }

  ghost predicate Issued(w: World, id: int) {
    w.row.Some? && id < w.row.value.nextId
  }

  ghost predicate IdsOk(w: World) {
    && (forall h, k, id {:trigger Owns(w, h, id), Owns(w, k, id)} | Owns(w, h, id) && Owns(w, k, id) :: h == k)
    && (forall h, id {:trigger Owns(w, h, id)} | Owns(w, h, id) :: Issued(w, id) && id !in w.handed)
    && (forall i | 0 <= i < |w.handed| :: Issued(w, w.handed[i]))
    && (forall i, j | 0 <= i < j < |w.handed| :: w.handed[i] != w.handed[j])
  }

  /** The claim is held by exactly one live thread exactly while `reserving` is set, and only over a drained block. */
  ghost predicate ClaimsOk(w: World) {
    DrainedOk(w) && BackedOk(w) && AloneOk(w) && (forall r | r in w.caches && w.caches[r].reserving :: Claimed(w, r))
  }

  ghost predicate DrainedOk(w: World) {
    forall r | r in w.caches && w.caches[r].reserving :: w.caches[r].block.end <= w.caches[r].block.next
  }

  ghost predicate BackedOk(w: World) {
    forall t | t in w.threads && w.threads[t].HoldsClaim() ::
      w.threads[t].router in w.caches && w.caches[w.threads[t].router].reserving
  }

  ghost predicate AloneOk(w: World) {
    forall t, u | t in w.threads && u in w.threads && w.threads[t].HoldsClaim() && w.threads[u].HoldsClaim()
                  && w.threads[t].router == w.threads[u].router :: t == u
  }

  ghost predicate Claimed(w: World, r: Router) {
    exists t :: t in w.threads && w.threads[t].HoldsClaim() && w.threads[t].router == r
  }

  ghost predicate Inv(w: World) {
    IdsOk(w) && ClaimsOk(w)
  }

  // --------------------------------------------------- each step keeps it

  /** No holder gains an id, nothing is handed out, and the row does not go back. */
  lemma FewerIds(w: World, w': World)
    requires IdsOk(w) && w'.handed == w.handed
    requires forall id | Issued(w, id) :: Issued(w', id)
    requires forall h, id {:trigger Owns(w', h, id)} | Owns(w', h, id) :: Owns(w, h, id)
    ensures IdsOk(w')
  {
  }

  /** Handing out an id its holder gives up. */
  lemma HandsOne(w: World, w': World, giver: Holder, id: int)
    requires IdsOk(w) && Owns(w, giver, id) && w'.row == w.row && w'.handed == w.handed + [id]
    requires forall h, x {:trigger Owns(w', h, x)} | Owns(w', h, x) :: x != id && exists k :: Owns(w, k, x) && (h == k || k == giver)
    requires forall h, k, x {:trigger Owns(w', h, x), Owns(w', k, x)} | Owns(w', h, x) && Owns(w', k, x) :: h == k
    ensures IdsOk(w')
  {
  }

  lemma ReserveIds(w: World, t: Tid)
    requires IdsOk(w) && Enabled(w, Reserve(t, false))
    ensures IdsOk(Next(w, Reserve(t, false)))
  {
    var w' := Next(w, Reserve(t, false));
    forall h, id | Owns(w', h, id) && h != FlightOf(t) ensures Owns(w, h, id) {}
    forall id | Owns(w', FlightOf(t), id)
      ensures w.row.Some? && w.row.value.nextId <= id && Issued(w', id)
    {}
  }

  lemma TurnIds(w: World, t: Tid)
    requires IdsOk(w) && Enabled(w, Turn(t))
    ensures IdsOk(Next(w, Turn(t)))
  {
    var w' := Next(w, Turn(t));
    var r := w.threads[t].router;
    var look := LookAt(if r in w.caches then Some(w.caches[r]) else None).1;
    forall h, id | Owns(w', h, id) ensures Owns(w, h, id) {}
    if look.Hands? {
      assert Owns(w, CacheOf(r), look.id);
      forall h, x | Owns(w', h, x) ensures x != look.id {
        if h == CacheOf(r) {} else { assert Owns(w, h, x); }
      }
      HandsOne(w, w', CacheOf(r), look.id);
    } else {
      FewerIds(w, w');
    }
  }

  lemma SettleIds(w: World, t: Tid)
    requires Inv(w) && Enabled(w, Settles(t))
    ensures IdsOk(Next(w, Settles(t)))
  {
    var w' := Next(w, Settles(t));
    var r := w.threads[t].router;
    var out := Settle(w.caches[r], w.threads[t].phase.result).1;
    if out.Ok? {
      assert Owns(w, FlightOf(t), out.value);
      forall h, x | Owns(w', h, x)
        ensures if h == CacheOf(r) then Owns(w, FlightOf(t), x) && x != out.value else h != FlightOf(t) && Owns(w, h, x)
      {}
      forall h, x | Owns(w', h, x) ensures x != out.value {
        if h != CacheOf(r) { assert Owns(w, h, x); }
      }
      HandsOne(w, w', FlightOf(t), out.value);
    } else {
      forall h, x | Owns(w', h, x) ensures Owns(w, h, x) {}
      FewerIds(w, w');
    }
  }

  lemma StepIds(w: World, a: Action)
    requires Inv(w) && Enabled(w, a)
    ensures IdsOk(Next(w, a))
  {
    var w' := Next(w, a);
    match a
    case Turn(t) => TurnIds(w, t);
    case Reserve(t, lost) =>
      if lost {
        forall h, x | Owns(w', h, x) ensures Owns(w, h, x) {}
        FewerIds(w, w');
      } else {
        ReserveIds(w, t);
      }
    case Settles(t) => SettleIds(w, t);
    case _ =>
      forall h, x | Owns(w', h, x) ensures Owns(w, h, x) {}
      FewerIds(w, w');
  }

  lemma StepDrained(w: World, a: Action)
    requires ClaimsOk(w) && Enabled(w, a)
    ensures DrainedOk(Next(w, a))
  {
    hide AloneOk;
  }

  lemma StepBacked(w: World, a: Action)
    requires ClaimsOk(w) && Enabled(w, a)
    ensures BackedOk(Next(w, a))
  {
    hide DrainedOk;
  }

  lemma StepAlone(w: World, a: Action)
    requires ClaimsOk(w) && Enabled(w, a)
    ensures AloneOk(Next(w, a))
  {
    hide DrainedOk;
  }

  lemma StepClaims(w: World, a: Action)
    requires ClaimsOk(w) && Enabled(w, a)
    ensures ClaimsOk(Next(w, a))
  {
    hide Next, Enabled;
    var w' := Next(w, a);
    StepDrained(w, a);
    StepBacked(w, a);
    StepAlone(w, a);
    forall r | r in w'.caches && w'.caches[r].reserving ensures Claimed(w', r) {
      StillClaimed(w, a, r);
    }
  }

  /** A set `reserving` flag has a live thread behind it. */
  lemma StillClaimed(w: World, a: Action, r: Router)
    requires ClaimsOk(w) && Enabled(w, a) && r in Next(w, a).caches && Next(w, a).caches[r].reserving
    ensures Claimed(Next(w, a), r)
  {
    hide DrainedOk, BackedOk, AloneOk, Advance, Usable;
    var w' := Next(w, a);
    if r in w.caches && w.caches[r].reserving {
      assert Claimed(w, r);
      var t :| t in w.threads && w.threads[t].HoldsClaim() && w.threads[t].router == r;
      assert t in w'.threads && w'.threads[t].HoldsClaim() && w'.threads[t].router == r;
    } else {
      var t := a.tid;
      assert t in w'.threads && w'.threads[t].HoldsClaim() && w'.threads[t].router == r;
    }
  }

  lemma {:induction false} RunKeeps(run: seq<World>, actions: seq<Action>, n: nat)
    requires IsRun(run, actions) && n <= |actions|
    ensures Inv(run[n])
  {
    hide Next, Enabled, IdsOk, ClaimsOk;
    if n == 0 {
      InitInv(run[0]);
    } else {
      RunKeeps(run, actions, n - 1);
      assert run[n] == Next(run[n - 1], actions[n - 1]);
      StepIds(run[n - 1], actions[n - 1]);
      StepClaims(run[n - 1], actions[n - 1]);
    }
  }

  lemma InitInv(w: World)
    requires Init(w)
    ensures Inv(w)
  {
  }

  /**
  Ids are globally unique: in every interleaving of threads over any number of routers, with
  failing, lost, unusable and panicking reservations and restarts, no id is handed out twice.
  */
  lemma IdsAreUnique(run: seq<World>, actions: seq<Action>, i: nat, j: nat)
    requires IsRun(run, actions) && i < j < |run[|actions|].handed|
    ensures run[|actions|].handed[i] != run[|actions|].handed[j]
  {
    RunKeeps(run, actions, |actions|);
  }

  /** At most one reservation is in flight per cache, and `reserving` is set exactly while one is. */
  lemma SingleFlight(run: seq<World>, actions: seq<Action>, r: Router)
    requires IsRun(run, actions) && r in run[|actions|].caches
    ensures var w := run[|actions|];
      && (w.caches[r].reserving <==> exists t :: t in w.threads && w.threads[t].HoldsClaim() && w.threads[t].router == r)
      && (forall t, u | t in w.threads && u in w.threads && w.threads[t].HoldsClaim() && w.threads[u].HoldsClaim()
                        && w.threads[t].router == r && w.threads[u].router == r :: t == u)
  {
    RunKeeps(run, actions, |actions|);
    assert run[|actions|].caches[r].reserving ==> Claimed(run[|actions|], r);
  }

  /** A block is replaced only once it is drained: every step keeps a block's end, or finds it used up. */
  lemma ReplacedOnlyDrained(run: seq<World>, actions: seq<Action>, i: nat, r: Router)
    requires IsRun(run, actions) && i < |actions| && r in run[i].caches && r in run[i + 1].caches
    requires run[i + 1].caches[r].block.end != run[i].caches[r].block.end
    ensures run[i].caches[r].block.end <= run[i].caches[r].block.next
  {
    RunKeeps(run, actions, i);
    assert run[i + 1] == Next(run[i], actions[i]);
  }

  /**
  A claim ends for its waiters: in every run the entry a claiming thread comes back to is there
  and claimed, so the lookup after the reservation never fails; and once the thread has settled
  or unwound, no one holds the claim and no waiter that looks again has to wait.
  */
  lemma ClaimEnds(run: seq<World>, actions: seq<Action>, t: Tid, a: Action)
    requires IsRun(run, actions) && t in run[|actions|].threads && run[|actions|].threads[t].HoldsClaim()
    ensures var w, r := run[|actions|], run[|actions|].threads[t].router;
      r in w.caches && w.caches[r].reserving && (Enabled(w, Settles(t)) <==> w.threads[t].phase.Answered?)
    ensures var w, r := run[|actions|], run[|actions|].threads[t].router;
      (a == Settles(t) || a == Unwind(t)) && Enabled(w, a) ==>
        var w' := Next(w, a);
        && r in w'.caches && !w'.caches[r].reserving && !Claimed(w', r)
        && !LookAt(Some(w'.caches[r])).1.Waits?
  {
    hide IdsOk;
    RunKeeps(run, actions, |actions|);
    var w := run[|actions|];
    if (a == Settles(t) || a == Unwind(t)) && Enabled(w, a) { StepClaims(w, a); }
  }

  // --------------------------------------------------- no id is lost, and one is had

  /** An id is handed out, or someone still holds it. */
  ghost predicate Accounted(w: World, id: int) {
    id in w.handed || exists h :: Owns(w, h, id)
  }

  ghost predicate HeldAt(w: World, h: Holder, r: Router) {
    match h
    case CacheOf(q) => q == r
    case FlightOf(t) => t in w.threads && w.threads[t].router == r
  }

  /** The step loses the id: the router that holds it restarts, or the answer that carries it is lost. */
  ghost predicate Wastes(w: World, a: Action, id: int)
    requires Enabled(w, a)
  {
    || (a.Restart? && exists h :: Owns(w, h, id) && HeldAt(w, h, a.router))
    || (a.Reserve? && a.lost && !Issued(w, id) && Issued(Next(w, a), id))
  }

  /** The reservation's ids are in flight. */
  lemma ReserveAccounts(w: World, t: Tid, id: int)
    requires Enabled(w, Reserve(t, false)) && !Issued(w, id) && Issued(Next(w, Reserve(t, false)), id)
    ensures Owns(Next(w, Reserve(t, false)), FlightOf(t), id)
  {
  }

  /** What a settled reservation carried is handed out or in the block. */
  lemma SettleAccounts(w: World, t: Tid, id: int)
    requires ClaimsOk(w) && Enabled(w, Settles(t))
    requires id in w.handed || Owns(w, FlightOf(t), id) || exists h :: h != FlightOf(t) && Owns(w, h, id)
    ensures Accounted(Next(w, Settles(t)), id)
  {
    var w', r := Next(w, Settles(t)), w.threads[t].router;
    if id in w.handed {
      assert id in w'.handed;
    } else if Owns(w, FlightOf(t), id) {
      if id == w.threads[t].phase.result.value.0 {
        assert w'.handed[|w.handed|] == id;
      } else {
        assert Owns(w', CacheOf(r), id);
      }
    } else {
      var h :| h != FlightOf(t) && Owns(w, h, id);
      assert w.threads[t].HoldsClaim();
      assert Owns(w', h, id);
    }
  }

  lemma TurnAccounts(w: World, t: Tid, id: int)
    requires Enabled(w, Turn(t)) && Accounted(w, id)
    ensures Accounted(Next(w, Turn(t)), id)
  {
    var w', r := Next(w, Turn(t)), w.threads[t].router;
    if id in w.handed {
      assert id in w'.handed;
    } else {
      var h :| Owns(w, h, id);
      if h == CacheOf(r) && id == w.caches[r].block.next {
        assert w'.handed[|w.handed|] == id;
      } else {
        assert Owns(w', h, id);
      }
    }
  }

  lemma RestartAccounts(w: World, r: Router, id: int)
    requires Enabled(w, Restart(r)) && Accounted(w, id)
    ensures Accounted(Next(w, Restart(r)), id) || Wastes(w, Restart(r), id)
  {
    if h :| Owns(w, h, id) {
      if !HeldAt(w, h, r) { assert Owns(Next(w, Restart(r)), h, id); }
    }
  }

  /** The other steps move no id. */
  lemma OtherAccounts(w: World, a: Action, id: int)
    requires ClaimsOk(w) && Enabled(w, a) && Accounted(w, id) && !a.Turn? && !a.Settles? && !a.Restart?
    ensures Accounted(Next(w, a), id)
  {
    hide ClaimsOk, Usable;
    if h :| Owns(w, h, id) {
      assert Owns(Next(w, a), h, id);
    }
  }

  lemma StepAccounts(w: World, a: Action, id: int)
    requires ClaimsOk(w) && Enabled(w, a) && (Accounted(w, id) || (!Issued(w, id) && Issued(Next(w, a), id)))
    ensures Accounted(Next(w, a), id) || Wastes(w, a, id)
  {
    if !Accounted(w, id) {
      assert a.Reserve?;
      if !a.lost { ReserveAccounts(w, a.tid, id); }
    } else {
      hide Owns, Next, ClaimsOk, Issued, HeldAt;
      match a
      case Turn(t) => TurnAccounts(w, t, id);
      case Settles(t) => if h :| Owns(w, h, id) { if h != FlightOf(t) { assert h != FlightOf(t) && Owns(w, h, id); } } SettleAccounts(w, t, id);
      case Restart(r) => RestartAccounts(w, r, id);
      case Spawn(_, _) => OtherAccounts(w, a, id);
      case Reserve(_, _) => OtherAccounts(w, a, id);
      case Fail(_, _) => OtherAccounts(w, a, id);
      case AnswerUnusable(_, _, _) => OtherAccounts(w, a, id);
      case Panic(_) => OtherAccounts(w, a, id);
      case Unwind(_) => OtherAccounts(w, a, id);
      case Resize(_) => OtherAccounts(w, a, id);
    }
  }

  /**
  Conservation over every run: an id the row has given up since the start was handed out, is still
  held by a router or in flight to one, or was lost at a step that lost it: a restart of the
  router that held it, or a lost answer.
  */
  lemma {:induction false} EveryIdAccounted(run: seq<World>, actions: seq<Action>, n: nat, id: int)
    requires IsRun(run, actions) && n <= |actions| && Issued(run[n], id) && !Issued(run[0], id)
    ensures Accounted(run[n], id) || exists m :: 0 <= m < n && Enabled(run[m], actions[m]) && Wastes(run[m], actions[m], id)
  {
    assert n > 0;
    var w, a := run[n - 1], actions[n - 1];
    assert Enabled(w, a) && run[n] == Next(w, a);
    RunKeeps(run, actions, n - 1);
    hide Next, Enabled, Accounted, Wastes, Issued, IdsOk;
    if Issued(w, id) { EveryIdAccounted(run, actions, n - 1, id); }
    if !Issued(w, id) || Accounted(w, id) { StepAccounts(w, a, id); }
  }

  /**
  A caller on a router nobody is reserving for gets its id, undisturbed: the next of the block, or
  else the row's next, and the rest of that reservation becomes the block; it gets none exactly
  if the row is missing, its block size is not positive, or the range is past the last id.
  */
  lemma CallerGetsNext(w: World, t: Tid, r: Router)
    requires t !in w.threads && (r in w.caches ==> !w.caches[r].reserving)
    ensures var w1 := Next(w, Spawn(t, r));
      && Enabled(w1, Turn(t))
      && var w2 := Next(w1, Turn(t));
         if r in w.caches && w.caches[r].block.next < w.caches[r].block.end then
           w2.handed == w.handed + [w.caches[r].block.next] && w2.row == w.row
         else
           && Enabled(w2, Reserve(t, false))
           && var w3 := Next(w2, Reserve(t, false));
              && Enabled(w3, Settles(t))
              && var w4 := Next(w3, Settles(t));
                 if w.row.Some? && 0 < w.row.value.blockSize && w.row.value.nextId + w.row.value.blockSize <= I64_MAX then
                   var row := w.row.value;
                   && w4.handed == w.handed + [row.nextId] && w4.row == Some(row.(nextId := row.nextId + row.blockSize))
                   && r in w4.caches && w4.caches[r].block == Block(row.nextId + 1, row.nextId + row.blockSize) && !w4.caches[r].reserving
                 else w4.handed == w.handed && w4.row == w.row
  {
  }
}
