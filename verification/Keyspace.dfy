/**
The 64-bit keyspace: half-open key ranges, even splits and partition validation
(`crates/pgshard-core/src/keyspace.rs`).

`Owners(ranges, id)` counts the ranges that contain an id. It is the reference
against which the order-sensitive checks of the source are judged: a list of
ranges partitions the keyspace when every id has exactly one owner.
*/
module Keyspace {
  import opened Wrappers

  const TOP: nat := 0x1_0000_0000_0000_0000
  const U32_MAX: nat := 0xFFFF_FFFF
  const U128_TOP: nat := 0x1_0000_0000_0000_0000_0000_0000_0000_0000

  type U64 = n: nat | n < TOP

  /** `end == None` reaches the top of the space. */
  datatype KeyRange = KeyRange(start: U64, end: Option<U64>) {

    ghost predicate Valid() {
      end.Some? ==> start < end.value
    }

    function EndExclusive(): (e: nat)
      ensures e <= TOP
    {
      if end.None? then TOP else end.value
    }

    predicate Contains(id: U64) {
      id >= start && id < EndExclusive()
    }

    predicate Intersects(other: KeyRange) {
      start < other.EndExclusive() && other.start < EndExclusive()
    }
  }

  const FULL: KeyRange := KeyRange(0, None)

  datatype KeyRangeError =
    | EmptyRange(start: U64, end: U64)
    | InvalidBound(bound: string)
    | InvalidSyntax(text: string)
    | InvalidSplit(parts: nat)

  function NewRange(start: U64, end: Option<U64>): (r: Result<KeyRange, KeyRangeError>)
    ensures r.Ok? <==> exists id: U64 :: KeyRange(start, end).Contains(id)
    ensures r.Ok? ==> r.value == KeyRange(start, end) && r.value.Valid()
  {
    if end.Some? && start >= end.value then
      Err(EmptyRange(start, end.value))
    else
      assert KeyRange(start, end).Contains(start);
      Ok(KeyRange(start, end))
  }

  /** `intersects` holds exactly when some id lies in both ranges. */
  lemma IntersectsIffSharedId(a: KeyRange, b: KeyRange)
    requires a.Valid() && b.Valid()
    ensures a.Intersects(b) <==> exists id: U64 :: a.Contains(id) && b.Contains(id)
  {
    if a.Intersects(b) {
      var id := if a.start < b.start then b.start else a.start;
      assert a.Contains(id) && b.Contains(id);
    }
  }

  // ------------------------------------------------------------------ split

  // Products and quotients of two variables are written by repeated addition and
  // subtraction, which keeps every proof below in linear arithmetic;
  // `OffsetIsFloor` ties them to `*` and `/`.

  function Times(a: nat, b: nat): nat {
    if a == 0 then 0 else b + Times(a - 1, b)
  }

  function Quotient(n: nat, p: nat): (q: nat)
    requires p > 0
    ensures q <= n
  {
    if n < p then 0 else 1 + Quotient(n - p, p)
  }

  /** The `i`-th of `parts` boundaries over `width` ids: the floor of `i * width / parts`. */
  function SplitOffset(i: nat, width: nat, parts: nat): nat
    requires parts > 0
  {
    Quotient(Times(i, width), parts)
  }

  lemma {:induction false} TimesIsProduct(a: nat, b: nat)
    ensures Times(a, b) == a * b
  {
    if a > 0 {
      TimesIsProduct(a - 1, b);
      assert a * b == (a - 1) * b + b;
    }
  }

  lemma {:induction false} QuotientBounds(n: nat, p: nat)
    requires p > 0
    ensures Times(Quotient(n, p), p) <= n < Times(Quotient(n, p), p) + p
  {
    if n >= p {
      QuotientBounds(n - p, p);
    }
  }

  /** `SplitOffset` is the largest integer whose `parts`-fold does not exceed `i * width`. */
  lemma OffsetIsFloor(i: nat, width: nat, parts: nat)
    requires parts > 0
    ensures SplitOffset(i, width, parts) * parts <= i * width < SplitOffset(i, width, parts) * parts + parts
  {
    TimesIsProduct(i, width);
    QuotientBounds(Times(i, width), parts);
    TimesIsProduct(SplitOffset(i, width, parts), parts);
  }

  /** Adding `w` moves the quotient by the quotient of `w`, or by one more. */
  lemma {:induction false} QuotientAdd(n: nat, w: nat, p: nat)
    requires p > 0
    ensures Quotient(n, p) + Quotient(w, p) <= Quotient(n + w, p) <= Quotient(n, p) + Quotient(w, p) + 1
    decreases n + w
  {
    if w >= p {
      QuotientAdd(n, w - p, p);
      assert n + w - p == n + (w - p);
    } else if n >= p {
      QuotientAdd(n - p, w, p);
      assert n + w - p == (n - p) + w;
    } else if n + w >= p {
      assert Quotient(n + w - p, p) == 0;
    }
  }

  /** Each part is as wide as the quotient, or one wider. */
  lemma {:induction false} SplitStep(i: nat, width: nat, parts: nat)
    requires parts > 0
    ensures Quotient(width, parts) <= SplitOffset(i + 1, width, parts) - SplitOffset(i, width, parts) <= Quotient(width, parts) + 1
  {
    QuotientAdd(Times(i, width), width, parts);
  }

  lemma {:induction false} QuotientOfMultiple(a: nat, p: nat)
    requires p > 0
    ensures Quotient(Times(a, p), p) == a
  {
    if a > 0 {
      QuotientOfMultiple(a - 1, p);
    }
  }

  lemma {:induction false} TimesCommutes(a: nat, b: nat)
    ensures Times(a, b) == Times(b, a)
    decreases a + b
  {
    if a == 0 {
      TimesZero(b);
    } else {
      TimesCommutes(a - 1, b);
      TimesSucc(b, a - 1);
    }
  }

  lemma {:induction false} TimesZero(b: nat)
    ensures Times(b, 0) == 0
  {
    if b > 0 { TimesZero(b - 1); }
  }

  lemma {:induction false} TimesSucc(b: nat, a: nat)
    ensures Times(b, a + 1) == Times(b, a) + b
  {
    if b > 0 { TimesSucc(b - 1, a); }
  }

  lemma {:induction false} TimesBelow(a: nat, b: nat)
    requires b <= TOP
    ensures Times(a, b) <= a * TOP
  {
    if a > 0 { TimesBelow(a - 1, b); }
  }

  lemma SplitEnds(width: nat, parts: nat)
    requires parts > 0
    ensures SplitOffset(0, width, parts) == 0
    ensures SplitOffset(parts, width, parts) == width
  {
    TimesCommutes(parts, width);
    QuotientOfMultiple(width, parts);
  }

  lemma {:induction false} SplitMonotone(i: nat, j: nat, width: nat, parts: nat)
    requires parts > 0 && i <= j
    ensures SplitOffset(i, width, parts) <= SplitOffset(j, width, parts)
    decreases j - i
  {
    if i < j {
      SplitStep(i, width, parts);
      SplitMonotone(i + 1, j, width, parts);
    }
  }

  function Width(r: KeyRange): nat
    requires r.Valid()
  {
    r.EndExclusive() - r.start
  }

  /** `pieces` tile `r`: valid, in order, contiguous, from its start to its end. */
  ghost predicate Tiles(pieces: seq<KeyRange>, r: KeyRange) {
    && |pieces| > 0
    && (forall i | 0 <= i < |pieces| :: pieces[i].Valid())
    && pieces[0].start == r.start
    && (forall i | 0 <= i < |pieces| - 1 :: pieces[i].end == Some(pieces[i + 1].start))
    && pieces[|pieces| - 1].end == r.end
  }

  /** A truncating cast from a 128-bit intermediate, as the source writes it. */
  function AsU64(n: nat): (r: U64)
    ensures n < TOP ==> r == n
  {
    n % TOP
  }

  /** The `i`-th piece before any cast: its bounds fit 64 bits, except an end at 2^64. */
  lemma PieceFits(r: KeyRange, parts: nat, i: nat)
    requires r.Valid() && i < parts <= U32_MAX && parts <= Width(r)
    ensures Times(i + 1, Width(r)) < U128_TOP
    ensures r.start + SplitOffset(i, Width(r), parts) < r.start + SplitOffset(i + 1, Width(r), parts) <= r.EndExclusive()
    ensures i + 1 < parts <==> r.start + SplitOffset(i + 1, Width(r), parts) < r.EndExclusive()
  {
    var width := Width(r);
    TimesBelow(i + 1, width);
    SplitEnds(width, parts);
    SplitStep(i, width, parts);
    SplitMonotone(i + 1, parts, width, parts);
    if i + 1 < parts {
      SplitStep(i + 1, width, parts);
      SplitMonotone(i + 2, parts, width, parts);
    }
  }

  ghost predicate IsPiece(piece: KeyRange, r: KeyRange, parts: nat, i: nat)
    requires r.Valid() && i < parts
  {
    && piece.Valid()
    && piece.start == r.start + SplitOffset(i, Width(r), parts)
    && piece.EndExclusive() == r.start + SplitOffset(i + 1, Width(r), parts)
    && (piece.end == if i + 1 < parts then Some(r.start + SplitOffset(i + 1, Width(r), parts)) else r.end)
  }

  /** One loop iteration of the split: both bounds pass through a truncating cast. */
  function CutPiece(r: KeyRange, start: nat, lo: nat, hi: nat): KeyRange {
    var end := if start + hi == r.EndExclusive() then r.end else Some(AsU64(start + hi));
    KeyRange(AsU64(start + lo), end)
  }

  lemma CutPieceIsPiece(r: KeyRange, parts: nat, i: nat)
    requires r.Valid() && i < parts <= U32_MAX && parts <= Width(r)
    ensures IsPiece(CutPiece(r, r.start, SplitOffset(i, Width(r), parts), SplitOffset(i + 1, Width(r), parts)), r, parts, i)
  {
    PieceFits(r, parts, i);
  }

  /** `parts` contiguous pieces of `r` at the floor boundaries, no two widths more than one apart. */
  ghost predicate IsEvenSplit(pieces: seq<KeyRange>, r: KeyRange, parts: nat)
    requires r.Valid() && parts > 0
  {
    && |pieces| == parts
    && Tiles(pieces, r)
    && (forall i | 0 <= i < parts :: pieces[i].start == r.start + SplitOffset(i, Width(r), parts))
    && (forall i | 0 <= i < parts ::
          pieces[i].Valid() && Quotient(Width(r), parts) <= Width(pieces[i]) <= Quotient(Width(r), parts) + 1)
  }

  method SplitEvenly(r: KeyRange, parts: nat) returns (out: Result<seq<KeyRange>, KeyRangeError>)
    requires r.Valid() && parts <= U32_MAX
    ensures out.Ok? <==> 0 < parts <= Width(r)
    ensures out.Err? ==> out.error == InvalidSplit(parts)
    ensures out.Ok? ==> IsEvenSplit(out.value, r, parts)
  {
    if parts == 0 {
      return Err(InvalidSplit(parts));
    }
    var start := r.start;
    var width := r.EndExclusive() - start;
    if width < parts {
      return Err(InvalidSplit(parts));
    }
    var ranges: seq<KeyRange> := [];
    for i := 0 to parts
      invariant |ranges| == i
      invariant forall k | 0 <= k < i :: IsPiece(ranges[k], r, parts, k)
    {
      var piece := CutPiece(r, start, SplitOffset(i, width, parts), SplitOffset(i + 1, width, parts));
      CutPieceIsPiece(r, parts, i);
      ranges := ranges + [piece];
    }
    PiecesTile(r, parts, ranges);
    return Ok(ranges);
  }

  lemma PiecesTile(r: KeyRange, parts: nat, pieces: seq<KeyRange>)
    requires r.Valid() && 0 < parts <= Width(r) && |pieces| == parts
    requires forall k | 0 <= k < parts :: IsPiece(pieces[k], r, parts, k)
    ensures IsEvenSplit(pieces, r, parts)
  {
    SplitEnds(Width(r), parts);
    assert IsPiece(pieces[0], r, parts, 0);
    assert IsPiece(pieces[parts - 1], r, parts, parts - 1);
    forall i | 0 <= i < parts
      ensures Quotient(Width(r), parts) <= Width(pieces[i]) <= Quotient(Width(r), parts) + 1
      ensures i + 1 < parts ==> pieces[i].end == Some(pieces[i + 1].start)
    {
      assert IsPiece(pieces[i], r, parts, i);
      SplitStep(i, Width(r), parts);
      if i + 1 < parts {
        assert IsPiece(pieces[i + 1], r, parts, i + 1);
      }
    }
  }

  // ------------------------------------------------------------ partitions

  /** How many of `ranges` contain `id`. */
  ghost function Owners(ranges: seq<KeyRange>, id: U64): nat {
    if ranges == [] then 0
    else (if ranges[0].Contains(id) then 1 else 0) + Owners(ranges[1..], id)
  }

  ghost predicate AllValid(ranges: seq<KeyRange>) {
    forall i | 0 <= i < |ranges| :: ranges[i].Valid()
  }

  ghost predicate StartOrdered(ranges: seq<KeyRange>) {
    forall i, j | 0 <= i < j < |ranges| :: ranges[i].start <= ranges[j].start
  }

  ghost predicate OneOwnerEach(ranges: seq<KeyRange>) {
    forall id: U64 :: Owners(ranges, id) == 1
  }

  lemma {:induction false} OwnersConcat(a: seq<KeyRange>, b: seq<KeyRange>, id: U64)
    ensures Owners(a + b, id) == Owners(a, id) + Owners(b, id)
  {
    if a == [] {
      assert a + b == b;
    } else {
      assert (a + b)[1..] == a[1..] + b;
      OwnersConcat(a[1..], b, id);
    }
  }

  function RemoveAt<T>(s: seq<T>, k: nat): seq<T>
    requires k < |s|
  {
    s[..k] + s[k + 1..]
  }

  lemma RemoveAtMultiset<T>(s: seq<T>, k: nat)
    requires k < |s|
    ensures multiset(RemoveAt(s, k)) == multiset(s) - multiset{s[k]}
  {
    assert s == s[..k] + ([s[k]] + s[k + 1..]);
    assert multiset(s) == multiset(s[..k]) + (multiset{s[k]} + multiset(s[k + 1..]));
  }

  lemma {:induction false} OwnersRemoveAt(s: seq<KeyRange>, k: nat, id: U64)
    requires k < |s|
    ensures Owners(s, id) == Owners(RemoveAt(s, k), id) + if s[k].Contains(id) then 1 else 0
  {
    assert s == s[..k] + ([s[k]] + s[k + 1..]);
    OwnersConcat(s[..k], [s[k]] + s[k + 1..], id);
    OwnersConcat([s[k]], s[k + 1..], id);
    OwnersConcat(s[..k], s[k + 1..], id);
    assert [s[k]][1..] == [];
  }

  /** The owner count does not depend on the order of the ranges. */
  lemma {:induction false} OwnersOfPermutation(a: seq<KeyRange>, b: seq<KeyRange>, id: U64)
    requires multiset(a) == multiset(b)
    ensures Owners(a, id) == Owners(b, id)
    decreases |a|
  {
    if a == [] {
      assert |multiset(b)| == 0;
    } else {
      assert a[0] in multiset(b);
      var k :| 0 <= k < |b| && b[k] == a[0];
      RemoveAtMultiset(a, 0);
      RemoveAtMultiset(b, k);
      OwnersRemoveAt(a, 0, id);
      OwnersRemoveAt(b, k, id);
      OwnersOfPermutation(RemoveAt(a, 0), RemoveAt(b, k), id);
    }
  }

  lemma {:induction false} OwnersPositive(ranges: seq<KeyRange>, id: U64)
    ensures Owners(ranges, id) > 0 <==> exists i :: 0 <= i < |ranges| && ranges[i].Contains(id)
  {
    if ranges != [] {
      OwnersPositive(ranges[1..], id);
      if Owners(ranges, id) > 0 && !ranges[0].Contains(id) {
        var i :| 0 <= i < |ranges[1..]| && ranges[1..][i].Contains(id);
        assert ranges[i + 1].Contains(id);
      }
      if i :| 0 <= i < |ranges| && ranges[i].Contains(id) {
        if i > 0 { assert ranges[1..][i - 1].Contains(id); }
      }
    }
  }

  lemma {:induction false} OwnersTwice(ranges: seq<KeyRange>, i: nat, j: nat, id: U64)
    requires i < j < |ranges| && ranges[i].Contains(id) && ranges[j].Contains(id)
    ensures Owners(ranges, id) >= 2
  {
    if i == 0 {
      assert ranges[1..][j - 1].Contains(id);
      OwnersPositive(ranges[1..], id);
    } else {
      OwnersTwice(ranges[1..], i - 1, j - 1, id);
    }
  }

  /** Tiles of `r` own each id of `r` once and nothing else. */
  lemma {:induction false} TilesOwnExactly(pieces: seq<KeyRange>, r: KeyRange, id: U64)
    requires Tiles(pieces, r)
    ensures Owners(pieces, id) == if r.Contains(id) then 1 else 0
    ensures r.Valid()
  {
    if |pieces| == 1 {
      assert pieces[1..] == [];
    } else {
      var rest := KeyRange(pieces[1].start, r.end);
      assert Tiles(pieces[1..], rest) by {
        forall i | 0 <= i < |pieces[1..]| - 1
          ensures pieces[1..][i].end == Some(pieces[1..][i + 1].start)
        {
          assert pieces[i + 1].end == Some(pieces[i + 2].start);
        }
      }
      TilesOwnExactly(pieces[1..], rest, id);
      assert pieces[0].end == Some(pieces[1].start);
    }
  }

  lemma {:induction false} TilesOrdered(pieces: seq<KeyRange>, r: KeyRange)
    requires Tiles(pieces, r)
    ensures StartOrdered(pieces)
  {
    if |pieces| > 1 {
      var rest := KeyRange(pieces[1].start, r.end);
      assert Tiles(pieces[1..], rest) by {
        forall i | 0 <= i < |pieces[1..]| - 1
          ensures pieces[1..][i].end == Some(pieces[1..][i + 1].start)
        {
          assert pieces[i + 1].end == Some(pieces[i + 2].start);
        }
      }
      TilesOrdered(pieces[1..], rest);
      forall i, j | 0 <= i < j < |pieces| ensures pieces[i].start <= pieces[j].start {
        assert pieces[0].end == Some(pieces[1].start);
        assert pieces[j] == pieces[1..][j - 1];
        if i > 0 {
          assert pieces[i] == pieces[1..][i - 1];
        } else if j > 1 {
          assert pieces[1..][0].start <= pieces[1..][j - 1].start;
        }
      }
    }
  }

  /**
  The converse, for any valid range: an ordered list of valid ranges that owns
  each id of `r` once, and no other id, is contiguous from end to end.
  */
  lemma {:induction false} OwnersForceTiles(pieces: seq<KeyRange>, r: KeyRange)
    requires r.Valid() && AllValid(pieces) && StartOrdered(pieces)
    requires forall id: U64 :: Owners(pieces, id) == if r.Contains(id) then 1 else 0
    ensures Tiles(pieces, r)
  {
    OwnersPositive(pieces, r.start);
    var n := |pieces|;
    FirstStartsAt(pieces, r);
    forall i | 0 <= i < n - 1
      ensures pieces[i].end == Some(pieces[i + 1].start)
    {
      NeighboursMeet(pieces, r, i);
    }
    LastEndsAt(pieces, r);
  }

  lemma {:induction false} FirstStartsAt(pieces: seq<KeyRange>, r: KeyRange)
    requires r.Valid() && AllValid(pieces) && StartOrdered(pieces) && |pieces| > 0
    requires forall id: U64 :: Owners(pieces, id) == if r.Contains(id) then 1 else 0
    ensures pieces[0].start == r.start
  {
    var s := pieces[0].start;
    assert pieces[0].Contains(s);
    OwnersPositive(pieces, s);
    OwnersPositive(pieces, r.start);
    var k :| 0 <= k < |pieces| && pieces[k].Contains(r.start);
    if k > 0 { assert pieces[0].start <= pieces[k].start; }
  }

  lemma {:induction false} NeighboursMeet(pieces: seq<KeyRange>, r: KeyRange, i: nat)
    requires r.Valid() && AllValid(pieces) && StartOrdered(pieces) && i + 1 < |pieces|
    requires forall id: U64 :: Owners(pieces, id) == if r.Contains(id) then 1 else 0
    ensures pieces[i].end == Some(pieces[i + 1].start)
  {
    var next := pieces[i + 1].start;
    assert pieces[i + 1].Contains(next);
    OwnersPositive(pieces, next);
    if pieces[i].EndExclusive() > next {
      assert pieces[i].Contains(next);
      OwnersTwice(pieces, i, i + 1, next);
    }
    if pieces[i].EndExclusive() < next {
      var gap: U64 := pieces[i].EndExclusive();
      assert pieces[i].Contains(pieces[i].start);
      OwnersPositive(pieces, pieces[i].start);
      OwnersPositive(pieces, gap);
      var k :| 0 <= k < |pieces| && pieces[k].Contains(gap);
      if k < i {
        assert pieces[k].start <= pieces[i].start;
        assert pieces[k].Contains(pieces[i].start);
        OwnersTwice(pieces, k, i, pieces[i].start);
      }
    }
  }

  lemma {:induction false} LastEndsAt(pieces: seq<KeyRange>, r: KeyRange)
    requires r.Valid() && AllValid(pieces) && StartOrdered(pieces) && |pieces| > 0
    requires forall id: U64 :: Owners(pieces, id) == if r.Contains(id) then 1 else 0
    ensures pieces[|pieces| - 1].end == r.end
  {
    var n := |pieces| - 1;
    var last := pieces[n];
    var top: U64 := last.EndExclusive() - 1;
    assert last.Contains(top);
    OwnersPositive(pieces, top);
    if last.EndExclusive() < r.EndExclusive() {
      var gap: U64 := last.EndExclusive();
      OwnersPositive(pieces, gap);
      var k :| 0 <= k < |pieces| && pieces[k].Contains(gap);
      assert last.Contains(last.start);
      if k < n {
        assert pieces[k].start <= pieces[n].start;
        assert pieces[k].Contains(last.start);
        OwnersPositive(pieces, last.start);
        OwnersTwice(pieces, k, n, last.start);
      }
    }
    // The end `None` and an exclusive end of 2^64 coincide because `Some` holds a 64-bit value.
    assert last.EndExclusive() == r.EndExclusive();
  }

  datatype PartitionError =
    | EmptyPartition
    | DoesNotStartAtZero(start: U64)
    | GapOrOverlap(index: nat, prevEnd: Option<U64>, nextStart: U64)
    | DoesNotEndAtMax(end: U64)

  /** The checks of `validate_partition` up to and excluding `index` pass. */
  ghost predicate ChainedBelow(ranges: seq<KeyRange>, index: nat) {
    && |ranges| > 0
    && ranges[0].start == 0
    && forall i | 0 < i < index && i < |ranges| :: ranges[i - 1].end == Some(ranges[i].start)
  }

  method ValidatePartition(ranges: seq<KeyRange>) returns (out: Option<PartitionError>)
    requires AllValid(ranges)
    ensures out.None? <==> StartOrdered(ranges) && OneOwnerEach(ranges)
    ensures match out
            case None => Tiles(ranges, FULL)
            case Some(EmptyPartition) => ranges == []
            case Some(DoesNotStartAtZero(s)) => ranges != [] && ranges[0].start == s != 0
            case Some(GapOrOverlap(i, p, n)) =>
              && 0 < i < |ranges| && ChainedBelow(ranges, i)
              && ranges[i - 1].end == p && ranges[i].start == n && p != Some(n)
            case Some(DoesNotEndAtMax(e)) =>
              ChainedBelow(ranges, |ranges|) && ranges[|ranges| - 1].end == Some(e)
  {
    PartitionIffTiles(ranges);
    if |ranges| == 0 {
      return Some(EmptyPartition);
    }
    if ranges[0].start != 0 {
      return Some(DoesNotStartAtZero(ranges[0].start));
    }
    var i := 1;
    while i < |ranges|
      invariant 1 <= i <= |ranges| && ChainedBelow(ranges, i)
    {
      if ranges[i - 1].end != Some(ranges[i].start) {
        return Some(GapOrOverlap(i, ranges[i - 1].end, ranges[i].start));
      }
      i := i + 1;
    }
    match ranges[|ranges| - 1].end {
      case None =>
        assert Tiles(ranges, FULL) by {
          forall k | 0 <= k < |ranges| - 1 ensures ranges[k].end == Some(ranges[k + 1].start) {
            assert 0 < k + 1 < |ranges|;
          }
        }
        return None;
      case Some(end) =>
        return Some(DoesNotEndAtMax(end));
    }
  }

  /** In order, contiguous and complete is the same as: in order, and one owner for every id. */
  lemma PartitionIffTiles(ranges: seq<KeyRange>)
    requires AllValid(ranges)
    ensures Tiles(ranges, FULL) <==> StartOrdered(ranges) && OneOwnerEach(ranges)
  {
    if Tiles(ranges, FULL) {
      TilesOrdered(ranges, FULL);
      forall id: U64 ensures Owners(ranges, id) == 1 {
        TilesOwnExactly(ranges, FULL, id);
      }
    }
    if StartOrdered(ranges) && OneOwnerEach(ranges) {
      OwnersForceTiles(ranges, FULL);
    }
  }
}
