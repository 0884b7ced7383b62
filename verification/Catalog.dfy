/** The shard catalog: shards in keyspace order and the routing lookup (`crates/pgshard-plan/src/catalog.rs`). */
module Catalog {
  import opened Wrappers
  import opened Keyspace

  type ShardId = string

  datatype Shard = Shard(range: KeyRange, id: ShardId)

  function Ranges(shards: seq<Shard>): (r: seq<KeyRange>)
    ensures |r| == |shards| && forall i | 0 <= i < |shards| :: r[i] == shards[i].range
  {
    if shards == [] then [] else [shards[0].range] + Ranges(shards[1..])
  }

  /** What `ShardCatalog::new` establishes. */
  ghost predicate Validated(shards: seq<Shard>) {
    Tiles(Ranges(shards), FULL)
  }

  method NewCatalog(shards: seq<Shard>) returns (out: Result<seq<Shard>, PartitionError>)
    requires AllValid(Ranges(shards))
    ensures out.Ok? <==> StartOrdered(Ranges(shards)) && OneOwnerEach(Ranges(shards))
    ensures out.Ok? ==> out.value == shards && Validated(shards)
  {
    var err := ValidatePartition(Ranges(shards));
    match err {
      case None => return Ok(shards);
      case Some(e) => return Err(e);
    }
  }

  /** The index of the first shard from `from` on that contains `id`, or the length. */
  function Find(shards: seq<Shard>, id: U64, from: nat): (k: nat)
    requires from <= |shards|
    ensures from <= k <= |shards|
    ensures k < |shards| ==> shards[k].range.Contains(id)
    ensures forall i | from <= i < k :: !shards[i].range.Contains(id)
    decreases |shards| - from
  {
    if from == |shards| || shards[from].range.Contains(id) then from else Find(shards, id, from + 1)
  }

  /** A validated catalog routes every id: the lookup never fails, and no second shard contains the id. */
  lemma {:induction false} RouteTotalAndUnique(shards: seq<Shard>, id: U64)
    requires Validated(shards)
    ensures Find(shards, id, 0) < |shards|
    ensures forall i | 0 <= i < |shards| && shards[i].range.Contains(id) :: i == Find(shards, id, 0)
  {
    var ranges := Ranges(shards);
    TilesOwnExactly(ranges, FULL, id);
    OwnersPositive(ranges, id);
    var k := Find(shards, id, 0);
    forall i | 0 <= i < |shards| && shards[i].range.Contains(id) ensures i == k {
      assert ranges[i].Contains(id);
      if k < i {
        OwnersTwice(ranges, k, i, id);
      }
    }
  }

  function Route(shards: seq<Shard>, id: U64): (s: ShardId)
    requires Validated(shards)
    ensures exists i :: 0 <= i < |shards| && shards[i].range.Contains(id) && shards[i].id == s
  {
    RouteTotalAndUnique(shards, id);
    shards[Find(shards, id, 0)].id
  }

  lemma RouteOf(shards: seq<Shard>, s: Shard, id: U64)
    requires Validated(shards) && s in shards && s.range.Contains(id)
    ensures Route(shards, id) == s.id
  {
    RouteTotalAndUnique(shards, id);
    var i :| 0 <= i < |shards| && shards[i] == s;
  }

  function All(shards: seq<Shard>): set<ShardId> {
    set i | 0 <= i < |shards| :: shards[i].id
  }
}
