/**
Splitting one shard: the operator's check that target ranges partition the source
(`operator/internal/controller/reshard.go`) and what it guarantees for the catalog.
*/
module Reshard {
  import opened Wrappers
  import opened Keyspace
  import opened Catalog

  // The library sort is modelled by insertion into an ordered list; the verdict
  // below does not depend on how equal starts are ordered.

  function InsertByStart(r: KeyRange, sorted: seq<KeyRange>): seq<KeyRange> {
    if sorted == [] || r.start <= sorted[0].start then [r] + sorted
    else [sorted[0]] + InsertByStart(r, sorted[1..])
  }

  function SortByStart(ranges: seq<KeyRange>): seq<KeyRange> {
    if ranges == [] then [] else InsertByStart(ranges[0], SortByStart(ranges[1..]))
  }

  lemma {:induction false} InsertByStartPermutes(r: KeyRange, sorted: seq<KeyRange>)
    ensures multiset(InsertByStart(r, sorted)) == multiset{r} + multiset(sorted)
  {
    if sorted != [] && r.start > sorted[0].start {
      InsertByStartPermutes(r, sorted[1..]);
      assert sorted == [sorted[0]] + sorted[1..];
    }
  }

  lemma {:induction false} InsertByStartOrders(r: KeyRange, sorted: seq<KeyRange>, low: nat)
    requires StartOrdered(sorted) && low <= r.start && (sorted != [] ==> low <= sorted[0].start)
    ensures StartOrdered(InsertByStart(r, sorted))
    ensures forall j | 0 <= j < |InsertByStart(r, sorted)| :: low <= InsertByStart(r, sorted)[j].start
  {
    if sorted != [] && r.start > sorted[0].start {
      assert forall j | 0 <= j < |sorted[1..]| :: sorted[1..][j] == sorted[j + 1];
      InsertByStartOrders(r, sorted[1..], sorted[0].start);
    }
  }

  lemma {:induction false} SortByStartSorts(ranges: seq<KeyRange>)
    ensures StartOrdered(SortByStart(ranges))
    ensures multiset(SortByStart(ranges)) == multiset(ranges)
  {
    if ranges != [] {
      SortByStartSorts(ranges[1..]);
      InsertByStartPermutes(ranges[0], SortByStart(ranges[1..]));
      InsertByStartOrders(ranges[0], SortByStart(ranges[1..]), 0);
      assert ranges == [ranges[0]] + ranges[1..];
    }
  }

  lemma ValidOfPermutation(a: seq<KeyRange>, b: seq<KeyRange>)
    requires multiset(a) == multiset(b) && AllValid(a)
    ensures AllValid(b)
  {
    forall i | 0 <= i < |b| ensures b[i].Valid() {
      assert b[i] in multiset(a);
    }
  }

  /** `targets` own each id of `source` exactly once and own nothing else. */
  ghost predicate ExactlyCovers(targets: seq<KeyRange>, source: KeyRange) {
    forall id: U64 :: Owners(targets, id) == if source.Contains(id) then 1 else 0
  }

  lemma {:induction false} SortedTilesIffCovers(source: KeyRange, targets: seq<KeyRange>)
    requires source.Valid() && AllValid(targets)
    ensures Tiles(SortByStart(targets), source) <==> ExactlyCovers(targets, source)
    ensures |SortByStart(targets)| == |targets| && AllValid(SortByStart(targets))
  {
    var sorted := SortByStart(targets);
    SortByStartSorts(targets);
    ValidOfPermutation(targets, sorted);
    assert |multiset(sorted)| == |multiset(targets)|;
    forall id: U64 ensures Owners(sorted, id) == Owners(targets, id) {
      OwnersOfPermutation(sorted, targets, id);
    }
    if Tiles(sorted, source) {
      forall id: U64 ensures Owners(targets, id) == if source.Contains(id) then 1 else 0 {
        TilesOwnExactly(sorted, source, id);
      }
    }
    if ExactlyCovers(targets, source) {
      OwnersForceTiles(sorted, source);
    }
  }

  datatype ReshardError =
    | TooFew(count: nat)
    | WrongStart(first: KeyRange)
    | UnboundedInside(range: KeyRange)
    | NotContiguous(left: KeyRange, right: KeyRange)
    | WrongEnd(last: KeyRange)

  /** Accepted exactly for two or more ranges that together own every id of the source once, and nothing else. */
  method ValidateReshardPartition(source: KeyRange, targets: seq<KeyRange>) returns (out: Option<ReshardError>)
    requires source.Valid() && AllValid(targets)
    ensures out.None? <==> |targets| >= 2 && ExactlyCovers(targets, source)
  {
    if |targets| < 2 {
      return Some(TooFew(|targets|));
    }
    var sorted := SortByStart(targets);
    SortedTilesIffCovers(source, targets);
    if sorted[0].start != source.start {
      return Some(WrongStart(sorted[0]));
    }
    var i := 0;
    while i < |sorted| - 1
      invariant 0 <= i <= |sorted| - 1
      invariant forall k | 0 <= k < i :: sorted[k].end == Some(sorted[k + 1].start)
    {
      var next := sorted[i + 1];
      if sorted[i].end.None? {
        return Some(UnboundedInside(sorted[i]));
      }
      if sorted[i].end.value != next.start {
        return Some(NotContiguous(sorted[i], next));
      }
      i := i + 1;
    }
    var last := sorted[|sorted| - 1];
    if last.end.Some? != source.end.Some? || (last.end.Some? && last.end.value != source.end.value) {
      return Some(WrongEnd(last));
    }
    assert Tiles(sorted, source);
    return None;
  }

  // ------------------------------------------------- effect on the catalog

  /** `after` is the catalog `before` with shard `k` replaced by `targets`, in start order. */
  ghost predicate Replaces(before: seq<Shard>, k: nat, targets: seq<Shard>, after: seq<Shard>) {
    && k < |before|
    && multiset(after) == multiset(before) - multiset{before[k]} + multiset(targets)
    && StartOrdered(Ranges(after))
  }

  lemma {:induction false} OwnersOfShards(a: seq<Shard>, b: seq<Shard>, id: U64)
    requires multiset(a) == multiset(b)
    ensures Owners(Ranges(a), id) == Owners(Ranges(b), id)
    decreases |a|
  {
    if a == [] {
      assert |multiset(b)| == 0;
    } else {
      assert a[0] in multiset(b);
      var j :| 0 <= j < |b| && b[j] == a[0];
      RemoveAtMultiset(a, 0);
      RemoveAtMultiset(b, j);
      OwnersOfShards(RemoveAt(a, 0), RemoveAt(b, j), id);
      OwnersWithoutShard(a, 0, id);
      OwnersWithoutShard(b, j, id);
    }
  }

  lemma {:induction false} OwnersWithoutShard(s: seq<Shard>, k: nat, id: U64)
    requires k < |s|
    ensures Owners(Ranges(s), id) == Owners(Ranges(RemoveAt(s, k)), id) + if s[k].range.Contains(id) then 1 else 0
  {
    assert Ranges(RemoveAt(s, k)) == RemoveAt(Ranges(s), k);
    OwnersRemoveAt(Ranges(s), k, id);
  }

  lemma AfterIsKeptPlusTargets(before: seq<Shard>, k: nat, targets: seq<Shard>, after: seq<Shard>)
    requires Replaces(before, k, targets, after)
    ensures multiset(after) == multiset(RemoveAt(before, k) + targets)
  {
    RemoveAtMultiset(before, k);
  }

  lemma {:induction false} OwnersAfterReplace(before: seq<Shard>, k: nat, targets: seq<Shard>, after: seq<Shard>, id: U64)
    requires Replaces(before, k, targets, after)
    ensures Owners(Ranges(after), id) + (if before[k].range.Contains(id) then 1 else 0)
         == Owners(Ranges(before), id) + Owners(Ranges(targets), id)
  {
    AfterIsKeptPlusTargets(before, k, targets, after);
    OwnersOfShards(after, RemoveAt(before, k) + targets, id);
    OwnersOfBoth(RemoveAt(before, k), targets, id);
    OwnersWithoutShard(before, k, id);
  }

  lemma {:induction false} OwnersOfBoth(a: seq<Shard>, b: seq<Shard>, id: U64)
    ensures Owners(Ranges(a + b), id) == Owners(Ranges(a), id) + Owners(Ranges(b), id)
  {
    hide Owners, Ranges;
    assert Ranges(a + b) == Ranges(a) + Ranges(b);
    OwnersConcat(Ranges(a), Ranges(b), id);
  }

  /** Every shard other than the split one, and every target, is in the new catalog. */
  lemma ReplaceKeepsShards(before: seq<Shard>, k: nat, targets: seq<Shard>, after: seq<Shard>)
    requires Replaces(before, k, targets, after)
    ensures forall j | 0 <= j < |before| && j != k :: before[j] in after
    ensures forall t | t in targets :: t in after
  {
    AfterIsKeptPlusTargets(before, k, targets, after);
    var both := RemoveAt(before, k) + targets;
    forall s | s in both ensures s in after {
      assert s in multiset(both);
      assert s in multiset(after);
    }
    forall j | 0 <= j < |before| && j != k ensures before[j] in after {
      assert both[if j < k then j else j - 1] == before[j];
    }
    forall t | t in targets ensures t in after {
      assert t in both;
    }
  }

  lemma ShardsOfReplace(before: seq<Shard>, k: nat, targets: seq<Shard>, after: seq<Shard>, s: Shard)
    requires Replaces(before, k, targets, after) && s in after
    ensures s in before || s in targets
  {
    assert s in multiset(after);
  }

  /**
  Replacing a shard of a valid catalog by accepted targets gives, in start order,
  a catalog that passes `validate_partition`.
  */
  lemma {:induction false} ReplaceKeepsPartition(before: seq<Shard>, k: nat, targets: seq<Shard>, after: seq<Shard>)
    requires Validated(before) && Replaces(before, k, targets, after)
    requires AllValid(Ranges(targets)) && ExactlyCovers(Ranges(targets), before[k].range)
    ensures AllValid(Ranges(after)) && OneOwnerEach(Ranges(after)) && Validated(after)
  {
    assert AllValid(Ranges(after)) by {
      forall i | 0 <= i < |after| ensures after[i].range.Valid() {
        ShardsOfReplace(before, k, targets, after, after[i]);
        if after[i] in before {
          var j :| 0 <= j < |before| && before[j] == after[i];
          assert Ranges(before)[j].Valid();
        } else {
          var j :| 0 <= j < |targets| && targets[j] == after[i];
          assert Ranges(targets)[j].Valid();
        }
      }
    }
    forall id: U64 ensures Owners(Ranges(after), id) == 1 {
      TilesOwnExactly(Ranges(before), FULL, id);
      OwnersAfterReplace(before, k, targets, after, id);
    }
    PartitionIffTiles(Ranges(after));
  }

  /** An id outside the split shard keeps its shard; an id inside moves to one of the targets. */
  lemma {:induction false} ReplaceReroutes(before: seq<Shard>, k: nat, targets: seq<Shard>, after: seq<Shard>, id: U64)
    requires Validated(before) && Replaces(before, k, targets, after)
    requires AllValid(Ranges(targets)) && ExactlyCovers(Ranges(targets), before[k].range)
    ensures Validated(after)
    ensures !before[k].range.Contains(id) ==> Route(after, id) == Route(before, id)
    ensures before[k].range.Contains(id) ==>
      exists t :: t in targets && t.range.Contains(id) && Route(after, id) == t.id
  {
    ReplaceKeepsPartition(before, k, targets, after);
    ReplaceKeepsShards(before, k, targets, after);
    RouteTotalAndUnique(before, id);
    if !before[k].range.Contains(id) {
      RouteOf(after, before[Find(before, id, 0)], id);
    } else {
      OwnersPositive(Ranges(targets), id);
      var t :| 0 <= t < |targets| && Ranges(targets)[t].Contains(id);
      assert targets[t] in targets;
      RouteOf(after, targets[t], id);
    }
  }
}
