/**
The recurrence horizon that lets 32-bit row versions stand for "never rewritten"
(`crates/pgshard-agent/src/workflow.rs`).
*/
module XidHorizon {
  import opened Wrappers

  const CYCLE: nat := 0x1_0000_0000

  type Xid32 = n: nat | n < CYCLE

  /** The forward distance from the counter to the next value with these low bits; 0 for the counter's own. */
  function Distance(base: nat, v: Xid32): (d: nat)
    ensures d < CYCLE
  {
    (v + CYCLE - base % CYCLE) % CYCLE
  }

  /** A captured version that bounds the horizon: special ids below 3 are never assigned again. */
  predicate Bounds(base: nat, v: Xid32) {
    3 <= v && Distance(base, v) > 0
  }

  /** A captured xmin is text; one that does not parse is an error. */
  method Horizon(base: nat, versions: seq<Option<Xid32>>) returns (r: Result<nat, ()>)
    ensures r.Err? <==> exists i | 0 <= i < |versions| :: versions[i].None?
    ensures r.Ok? ==> 0 < r.value <= CYCLE
    ensures r.Ok? ==> forall i | 0 <= i < |versions| && Bounds(base, versions[i].value) :: r.value <= Distance(base, versions[i].value)
    ensures r.Ok? ==> r.value == CYCLE || exists i | 0 <= i < |versions| :: Bounds(base, versions[i].value) && r.value == Distance(base, versions[i].value)
  {
    var horizon := CYCLE;
    for i := 0 to |versions|
      invariant forall k | 0 <= k < i :: versions[k].Some?
      invariant 0 < horizon <= CYCLE
      invariant forall k | 0 <= k < i && Bounds(base, versions[k].value) :: horizon <= Distance(base, versions[k].value)
      invariant horizon == CYCLE || exists k | 0 <= k < i :: Bounds(base, versions[k].value) && horizon == Distance(base, versions[k].value)
    {
      if versions[i].None? {
        return Err(());
      }
      var v := versions[i].value;
      if v < 3 {
        continue;
      }
      var d := Distance(base, v);
      if d > 0 && d < horizon {
        horizon := d;
      }
    }
    return Ok(horizon);
  }

  lemma Congruent(base: nat, x: nat, v: Xid32)
    requires base < x && x - base < CYCLE
    ensures x % CYCLE == v <==> x - base == Distance(base, v)
  {
  }

  /** A normal captured version is assigned again after `base` and up to `now`. */
  ghost predicate Recurs(base: nat, now: nat, v: Xid32) {
    3 <= v && exists x :: base < x <= now && x % CYCLE == v
  }

  /**
  The fence is exact: while fewer ids than the horizon have been consumed no captured
  version can recur, and once a version bounds the horizon the next id is its recurrence.
  */
  lemma HorizonIsExact(base: nat, now: nat, versions: seq<Xid32>, horizon: nat)
    requires base <= now && 0 < horizon <= CYCLE
    requires forall i | 0 <= i < |versions| && Bounds(base, versions[i]) :: horizon <= Distance(base, versions[i])
    requires horizon == CYCLE || exists i | 0 <= i < |versions| :: Bounds(base, versions[i]) && horizon == Distance(base, versions[i])
    ensures now - base < horizon ==> forall i | 0 <= i < |versions| :: !Recurs(base, now, versions[i])
    ensures horizon < CYCLE && horizon <= now - base ==> exists i | 0 <= i < |versions| :: Recurs(base, now, versions[i])
  {
    if now - base < horizon {
      forall i | 0 <= i < |versions| ensures !Recurs(base, now, versions[i]) {
        forall x | base < x <= now ensures 3 <= versions[i] ==> x % CYCLE != versions[i] {
          Congruent(base, x, versions[i]);
        }
      }
    } else if horizon < CYCLE {
      var i :| 0 <= i < |versions| && Bounds(base, versions[i]) && horizon == Distance(base, versions[i]);
      Congruent(base, base + horizon, versions[i]);
      assert Recurs(base, now, versions[i]);
    }
  }
}
