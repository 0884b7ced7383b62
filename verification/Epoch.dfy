/** The agent's decision-epoch guard (`crates/pgshard-agent/src/epoch.rs`). */
module Epoch {
  import opened Wrappers
  import opened Keyspace

  datatype Outcome = Apply | Replay

  datatype EpochError = Zero | Stale(got: U64, applied: U64) | Conflict(epoch: U64)

  /** What the guard has recorded. */
  datatype Applied = Applied(epoch: U64, key: string, seen: bool)

  const FRESH := Applied(0, "", false)

  function Checked(a: Applied, epoch: U64, key: string): Result<Outcome, EpochError> {
    if epoch == 0 then Err(Zero)
    else if a.seen && epoch < a.epoch then Err(Stale(epoch, a.epoch))
    else if a.seen && epoch == a.epoch then if a.key != key then Err(Conflict(epoch)) else Ok(Replay)
    else Ok(Apply)
  }

  function Committed(a: Applied, epoch: U64, key: string): Applied {
    if !a.seen || epoch > a.epoch then Applied(epoch, key, true) else a
  }

  datatype Request = Request(epoch: U64, key: string)

  /** The guard after a history of commits, in whatever order the commands finished. */
  function After(commits: seq<Request>): Applied {
    if commits == [] then FRESH
    else Committed(After(commits[..|commits| - 1]), commits[|commits| - 1].epoch, commits[|commits| - 1].key)
  }

  /**
  The record is the first commit that carried the highest epoch; a later commit of
  the same or a lower epoch changes nothing.
  */
  lemma {:induction false} AfterIs(commits: seq<Request>) returns (first: nat)
    requires commits != []
    ensures After(commits).seen && first < |commits|
    ensures commits[first] == Request(After(commits).epoch, After(commits).key)
    ensures forall i | 0 <= i < |commits| :: commits[i].epoch <= After(commits).epoch
    ensures forall i | 0 <= i < first :: commits[i].epoch < After(commits).epoch
  {
    var n := |commits| - 1;
    first := 0;
    if n > 0 {
      first := AfterIs(commits[..n]);
      if commits[n].epoch > After(commits[..n]).epoch { first := n; }
    }
  }

  /** The applied epoch never falls. */
  lemma {:induction false} AppliedNeverFalls(commits: seq<Request>, n: nat)
    requires n <= |commits|
    ensures After(commits[..n]).epoch <= After(commits).epoch
    ensures After(commits[..n]).seen ==> After(commits).seen
  {
    if n == |commits| {
      assert commits[..n] == commits;
    } else {
      assert commits[..|commits| - 1][..n] == commits[..n];
      AppliedNeverFalls(commits[..|commits| - 1], n);
    }
  }

  /** A replay is granted only for the exact request that was committed first at the highest epoch. */
  lemma ReplayIsCommitted(commits: seq<Request>, epoch: U64, key: string) returns (first: nat)
    requires Checked(After(commits), epoch, key) == Ok(Replay)
    ensures first < |commits| && commits[first] == Request(epoch, key)
    ensures forall i | 0 <= i < |commits| :: commits[i].epoch <= epoch
    ensures forall i | 0 <= i < first :: commits[i].epoch < epoch
  {
    first := AfterIs(commits);
  }

  /** A command runs only under an epoch above every committed one. */
  lemma {:induction false} ApplyIsNewer(commits: seq<Request>, epoch: U64, key: string)
    requires Checked(After(commits), epoch, key) == Ok(Apply)
    ensures 0 < epoch && forall i | 0 <= i < |commits| :: commits[i].epoch < epoch
  {
    if commits != [] {
      var _ := AfterIs(commits);
    }
  }

  /** The first commit at the highest committed epoch. */
  ghost predicate FirstAtTop(commits: seq<Request>, epoch: U64, i: int) {
    && 0 <= i < |commits| && commits[i].epoch == epoch
    && (forall j | 0 <= j < |commits| :: commits[j].epoch <= epoch)
    && (forall j | 0 <= j < i :: commits[j].epoch < epoch)
  }

  /** The record against an epoch: above it, it is every commit that is; at it, the first such commit is recorded. */
  lemma {:induction false} TopIs(commits: seq<Request>, epoch: U64)
    ensures var a := After(commits);
      && (a.seen <==> commits != [])
      && (a.seen && epoch < a.epoch <==> exists i :: 0 <= i < |commits| && epoch < commits[i].epoch)
      && (a.seen && epoch == a.epoch <==> exists i :: FirstAtTop(commits, epoch, i))
      && (forall i | FirstAtTop(commits, epoch, i) :: commits[i].key == a.key)
      && (!a.seen || epoch > a.epoch <==> forall i | 0 <= i < |commits| :: commits[i].epoch < epoch)
  {
    if commits != [] {
      var first := AfterIs(commits);
      if epoch == After(commits).epoch { assert FirstAtTop(commits, epoch, first); }
    }
  }

  /** The guard: `check` and `commit` take the lock separately. `commits` is every commit so far. */
  class EpochGuard {
    var applied: Applied
    ghost var commits: seq<Request>

    ghost predicate Valid()
      reads this
    {
      applied == After(commits)
    }

    constructor()
      ensures Valid() && commits == []
    {
      applied := FRESH;
      commits := [];
    }

    /**
    A command runs only above every committed epoch; it is a replay only of the first request
    committed at the highest epoch, and a conflict only with that one.
    */
    method Check(epoch: U64, key: string) returns (r: Result<Outcome, EpochError>)
      requires Valid()
      ensures r == Err(Zero) <==> epoch == 0
      ensures r == Ok(Apply) <==> epoch > 0 && forall i | 0 <= i < |commits| :: commits[i].epoch < epoch
      ensures r == Ok(Replay) <==> epoch > 0 && exists i :: FirstAtTop(commits, epoch, i) && commits[i].key == key
      ensures r == Err(Conflict(epoch)) <==> epoch > 0 && exists i :: FirstAtTop(commits, epoch, i) && commits[i].key != key
      ensures r.Err? && r.error.Stale? <==> epoch > 0 && exists i :: 0 <= i < |commits| && epoch < commits[i].epoch
    {
      TopIs(commits, epoch);
      if epoch == 0 {
        return Err(Zero);
      }
      if applied.seen && epoch < applied.epoch {
        return Err(Stale(epoch, applied.epoch));
      }
      if applied.seen && epoch == applied.epoch {
        if applied.key != key {
          return Err(Conflict(epoch));
        }
        return Ok(Replay);
      }
      return Ok(Apply);
    }

    /** The applied epoch never falls, and reaches the committed one. */
    method Commit(epoch: U64, key: string)
      requires Valid()
      modifies this
      ensures Valid() && commits == old(commits) + [Request(epoch, key)]
      ensures old(applied.epoch) <= applied.epoch && epoch <= applied.epoch
    {
      if !applied.seen || epoch > applied.epoch {
        applied := Applied(epoch, key, true);
      }
      assert (commits + [Request(epoch, key)])[..|commits|] == commits;
      commits := commits + [Request(epoch, key)];
    }
  }
}
