/**
The `pgoutput` decoder (`crates/pgshard-repl/src/pgoutput.rs`) against the layout of
section "Logical Replication Message Formats" of the PostgreSQL 18 documentation.

The functions say what each read yields at a position; the `Reader` and `Decoder`
classes do the reads; `EncodeMsg` is the standard layout.
*/
module PgOutput {
  import opened Wrappers
  import opened Bytes
  import opened Messages

  datatype DecodeError =
    | Truncated(offset: nat, needed: nat)
    | UnknownMessage(tag: Byte)
    | UnknownTupleKind(kind: Byte)
    | UnexpectedTupleMarker(marker: Byte)
    | NegativeLength(length: int)
    | InvalidUtf8
    | TrailingBytes(count: nat)

  /** A value read, and the position after it. */
  datatype Parsed<+T> = Parsed(v: T, next: nat)

  type Read<+T> = Result<Parsed<T>, DecodeError>

  /** The read stayed within the frame and did not go back. */
  predicate Within<T>(b: seq<Byte>, p: nat, r: Read<T>) {
    r.Ok? ==> p <= r.value.next <= |b|
  }

  // -------------------------------------------------------------- integers

  function Pow256(k: nat): nat {
    if k == 0 then 1 else 256 * Pow256(k - 1)
  }

  function FromBe(s: seq<Byte>): (n: nat)
    ensures n < Pow256(|s|)
  {
    if s == [] then 0 else 256 * FromBe(s[..|s| - 1]) + s[|s| - 1]
  }

  function ToBe(n: nat, k: nat): (s: seq<Byte>)
    ensures |s| == k
  {
    if k == 0 then [] else ToBe(n / 256, k - 1) + [n % 256]
  }

  lemma {:induction false} FromToBe(n: nat, k: nat)
    requires n < Pow256(k)
    ensures FromBe(ToBe(n, k)) == n
  {
    if k > 0 {
      FromToBe(n / 256, k - 1);
      var s := ToBe(n, k);
      assert s[..|s| - 1] == ToBe(n / 256, k - 1);
    }
  }

  lemma Widths()
    ensures Pow256(1) == 0x100 && Pow256(2) == 0x1_0000 && Pow256(4) == 0x1_0000_0000
    ensures Pow256(8) == 0x1_0000_0000_0000_0000
  {
    assert Pow256(3) == 0x100_0000;
    assert Pow256(5) == 0x100_0000_0000;
    assert Pow256(7) == 0x100_0000_0000_0000;
  }

  /** Two's complement with the sign bit worth `half`. */
  function Signed(n: nat, half: nat): int {
    if n < half then n else n - 2 * half
  }

  function Unsigned(i: int, half: nat): nat
    requires 0 <= i + half
  {
    if i >= 0 then i else i + 2 * half
  }

  // ------------------------------------------------------------ primitives

  function Take(b: seq<Byte>, p: nat, n: nat): (r: Read<seq<Byte>>)
    requires p <= |b|
    ensures Within(b, p, r)
    ensures r.Ok? ==> |r.value.v| == n
  {
    if p + n <= |b| then Ok(Parsed(b[p..p + n], p + n)) else Err(Truncated(p, n))
  }

  function ReadU8(b: seq<Byte>, p: nat): (r: Read<Byte>)
    requires p <= |b|
    ensures Within(b, p, r)
  {
    var s :- Take(b, p, 1);
    Ok(Parsed(s.v[0], s.next))
  }

  function ReadI16(b: seq<Byte>, p: nat): (r: Read<I16>)
    requires p <= |b|
    ensures Within(b, p, r)
  {
    var s :- Take(b, p, 2);
    Widths();
    Ok(Parsed(Signed(FromBe(s.v), 0x8000), s.next))
  }

  function ReadU32(b: seq<Byte>, p: nat): (r: Read<U32>)
    requires p <= |b|
    ensures Within(b, p, r)
  {
    var s :- Take(b, p, 4);
    Widths();
    Ok(Parsed(FromBe(s.v), s.next))
  }

  function ReadI32(b: seq<Byte>, p: nat): (r: Read<I32>)
    requires p <= |b|
    ensures Within(b, p, r)
  {
    var s :- Take(b, p, 4);
    Widths();
    Ok(Parsed(Signed(FromBe(s.v), 0x8000_0000), s.next))
  }

  function ReadI64(b: seq<Byte>, p: nat): (r: Read<I64>)
    requires p <= |b|
    ensures Within(b, p, r)
  {
    var s :- Take(b, p, 8);
    Widths();
    Ok(Parsed(Signed(FromBe(s.v), 0x8000_0000_0000_0000), s.next))
  }

  function ReadLsn(b: seq<Byte>, p: nat): (r: Read<Lsn>)
    requires p <= |b|
    ensures Within(b, p, r)
  {
    var s :- Take(b, p, 8);
    Widths();
    Ok(Parsed(FromBe(s.v), s.next))
  }

  /** The first zero byte at or after `p`, or the length. */
  function Nul(b: seq<Byte>, p: nat): (q: nat)
    requires p <= |b|
    ensures p <= q <= |b|
    decreases |b| - p
  {
    if p == |b| || b[p] == 0 then p else Nul(b, p + 1)
  }

  lemma {:induction false} NulIs(b: seq<Byte>, p: nat, q: nat)
    requires p <= q < |b| && b[q] == 0 && forall i | p <= i < q :: b[i] != 0
    ensures Nul(b, p) == q
    decreases q - p
  {
    if p < q { NulIs(b, p + 1, q); }
  }

  function ReadText(b: seq<Byte>, p: nat): (r: Read<Text>)
    requires p <= |b|
    ensures Within(b, p, r)
  {
    var q := Nul(b, p);
    if q == |b| then Err(Truncated(p, 1))
    else if !Utf8(b[p..q]) then Err(InvalidUtf8)
    else Ok(Parsed(b[p..q], q + 1))
  }

  function Count(n: I32): Result<nat, DecodeError> {
    if n < 0 then Err(NegativeLength(n)) else Ok(n)
  }

  function ReadSized(b: seq<Byte>, p: nat): (r: Read<seq<Byte>>)
    requires p <= |b|
    ensures Within(b, p, r)
  {
    var n :- ReadI32(b, p);
    var len :- Count(n.v);
    Take(b, n.next, len)
  }

  function ReadXid(b: seq<Byte>, p: nat, inStream: bool): (r: Read<Option<U32>>)
    requires p <= |b|
    ensures Within(b, p, r)
    ensures r.Ok? ==> (r.value.v.Some? <==> inStream)
  {
    if inStream then
      var x :- ReadU32(b, p);
      Ok(Parsed(Some(x.v), x.next))
    else Ok(Parsed(None, p))
  }

  // ------------------------------------------------------------- aggregates

  function ReadColumn(b: seq<Byte>, p: nat): (r: Read<TupleColumn>)
    requires p <= |b|
    ensures Within(b, p, r)
  {
    var kind :- ReadU8(b, p);
    if kind.v == 110 then Ok(Parsed(NullColumn, kind.next))
    else if kind.v == 117 then Ok(Parsed(UnchangedToast, kind.next))
    else if kind.v == 116 then
      var s :- ReadSized(b, kind.next);
      Ok(Parsed(TextColumn(s.v), s.next))
    else if kind.v == 98 then
      var s :- ReadSized(b, kind.next);
      Ok(Parsed(BinaryColumn(s.v), s.next))
    else Err(UnknownTupleKind(kind.v))
  }

  /** `n` items one after the other, each read where the one before it ended. */
  function ReadMany<T>(at: nat -> Read<T>, p: nat, n: nat): (r: Read<seq<T>>)
    ensures r.Ok? ==> |r.value.v| == n
  {
    if n == 0 then Ok(Parsed([], p))
    else
      var before :- ReadMany(at, p, n - 1);
      var last :- at(before.next);
      Ok(Parsed(before.v + [last.v], last.next))
  }

  lemma {:induction false} ManyWithin<T>(b: seq<Byte>, at: nat -> Read<T>, p: nat, n: nat)
    requires p <= |b| && forall q: nat | q <= |b| :: Within(b, q, at(q))
    ensures Within(b, p, ReadMany(at, p, n))
  {
    if n > 0 {
      ManyWithin(b, at, p, n - 1);
    }
  }

  function ColumnsOf(b: seq<Byte>): nat -> Read<TupleColumn> {
    (q: nat) => if q <= |b| then ReadColumn(b, q) else Err(Truncated(q, 1))
  }

  function ReadTuple(b: seq<Byte>, p: nat): (r: Read<Tuple>)
    requires p <= |b|
    ensures Within(b, p, r)
  {
    var n :- ReadI16(b, p);
    var len :- Count(n.v);
    ManyWithin(b, ColumnsOf(b), n.next, len);
    ReadMany(ColumnsOf(b), n.next, len)
  }

  function ReadRelationColumn(b: seq<Byte>, p: nat): (r: Read<RelationColumn>)
    requires p <= |b|
    ensures Within(b, p, r)
  {
    var flags :- ReadU8(b, p);
    var name :- ReadText(b, flags.next);
    var typeOid :- ReadU32(b, name.next);
    var modifier :- ReadI32(b, typeOid.next);
    Ok(Parsed(RelationColumn(flags.v, name.v, typeOid.v, modifier.v), modifier.next))
  }

  function RelationColumnsOf(b: seq<Byte>): nat -> Read<RelationColumn> {
    (q: nat) => if q <= |b| then ReadRelationColumn(b, q) else Err(Truncated(q, 1))
  }

  function ReadRelationColumns(b: seq<Byte>, p: nat): (r: Read<seq<RelationColumn>>)
    requires p <= |b|
    ensures Within(b, p, r)
  {
    var n :- ReadI16(b, p);
    var len :- Count(n.v);
    ManyWithin(b, RelationColumnsOf(b), n.next, len);
    ReadMany(RelationColumnsOf(b), n.next, len)
  }

  function OidsOf(b: seq<Byte>): nat -> Read<U32> {
    (q: nat) => if q <= |b| then ReadU32(b, q) else Err(Truncated(q, 4))
  }

  // --------------------------------------------------------------- messages

  function ReadBegin(b: seq<Byte>, p: nat): (r: Read<Msg>)
    requires p <= |b|
    ensures Within(b, p, r)
    ensures r.Ok? ==> r.value.v.Begin?
  {
    var lsn :- ReadLsn(b, p);
    var at :- ReadI64(b, lsn.next);
    var xid :- ReadU32(b, at.next);
    Ok(Parsed(Begin(lsn.v, at.v, xid.v), xid.next))
  }

  function ReadMessageRest(b: seq<Byte>, p: nat, xid: Option<U32>): (r: Read<Msg>)
    requires p <= |b|
    ensures Within(b, p, r)
    ensures r.Ok? ==> r.value.v.Message? && r.value.v.xid == xid
  {
    var flags :- ReadU8(b, p);
    var lsn :- ReadLsn(b, flags.next);
    var prefix :- ReadText(b, lsn.next);
    var content :- ReadSized(b, prefix.next);
    Ok(Parsed(Message(xid, flags.v % 2 == 1, lsn.v, prefix.v, content.v), content.next))
  }

  function ReadMessage(b: seq<Byte>, p: nat, inStream: bool): (r: Read<Msg>)
    requires p <= |b|
    ensures Within(b, p, r)
    ensures r.Ok? ==> r.value.v.Message? && (r.value.v.xid.Some? <==> inStream)
  {
    var xid :- ReadXid(b, p, inStream);
    ReadMessageRest(b, xid.next, xid.v)
  }

  function ReadCommit(b: seq<Byte>, p: nat): (r: Read<Msg>)
    requires p <= |b|
    ensures Within(b, p, r)
    ensures r.Ok? ==> r.value.v.Commit?
  {
    var flags :- ReadU8(b, p);
    var lsn :- ReadLsn(b, flags.next);
    var end :- ReadLsn(b, lsn.next);
    var at :- ReadI64(b, end.next);
    Ok(Parsed(Commit(lsn.v, end.v, at.v), at.next))
  }

  function ReadOrigin(b: seq<Byte>, p: nat): (r: Read<Msg>)
    requires p <= |b|
    ensures Within(b, p, r)
    ensures r.Ok? ==> r.value.v.Origin?
  {
    var lsn :- ReadLsn(b, p);
    var name :- ReadText(b, lsn.next);
    Ok(Parsed(Origin(lsn.v, name.v), name.next))
  }

  function ReadRelationTail(b: seq<Byte>, p: nat, xid: Option<U32>, oid: U32, namespace: Text): (r: Read<Msg>)
    requires p <= |b|
    ensures Within(b, p, r)
    ensures r.Ok? ==> r.value.v.Relation? && r.value.v.xid == xid
  {
    var name :- ReadText(b, p);
    var identity :- ReadU8(b, name.next);
    var columns :- ReadRelationColumns(b, identity.next);
    Ok(Parsed(Relation(xid, oid, namespace, name.v, identity.v, columns.v), columns.next))
  }

  function ReadRelationRest(b: seq<Byte>, p: nat, xid: Option<U32>): (r: Read<Msg>)
    requires p <= |b|
    ensures Within(b, p, r)
    ensures r.Ok? ==> r.value.v.Relation? && r.value.v.xid == xid
  {
    var oid :- ReadU32(b, p);
    var namespace :- ReadText(b, oid.next);
    ReadRelationTail(b, namespace.next, xid, oid.v, namespace.v)
  }

  function ReadRelation(b: seq<Byte>, p: nat, inStream: bool): (r: Read<Msg>)
    requires p <= |b|
    ensures Within(b, p, r)
    ensures r.Ok? ==> r.value.v.Relation? && (r.value.v.xid.Some? <==> inStream)
  {
    var xid :- ReadXid(b, p, inStream);
    ReadRelationRest(b, xid.next, xid.v)
  }

  function ReadTypeDeclRest(b: seq<Byte>, p: nat, xid: Option<U32>): (r: Read<Msg>)
    requires p <= |b|
    ensures Within(b, p, r)
    ensures r.Ok? ==> r.value.v.TypeDecl? && r.value.v.xid == xid
  {
    var oid :- ReadU32(b, p);
    var namespace :- ReadText(b, oid.next);
    var name :- ReadText(b, namespace.next);
    Ok(Parsed(TypeDecl(xid, oid.v, namespace.v, name.v), name.next))
  }

  function ReadTypeDecl(b: seq<Byte>, p: nat, inStream: bool): (r: Read<Msg>)
    requires p <= |b|
    ensures Within(b, p, r)
    ensures r.Ok? ==> r.value.v.TypeDecl? && (r.value.v.xid.Some? <==> inStream)
  {
    var xid :- ReadXid(b, p, inStream);
    ReadTypeDeclRest(b, xid.next, xid.v)
  }

  function ReadInsertRest(b: seq<Byte>, p: nat, xid: Option<U32>): (r: Read<Msg>)
    requires p <= |b|
    ensures Within(b, p, r)
    ensures r.Ok? ==> r.value.v.Insert? && r.value.v.xid == xid
  {
    var oid :- ReadU32(b, p);
    var marker :- ReadU8(b, oid.next);
    if marker.v != 78 then Err(UnexpectedTupleMarker(marker.v))
    else
      var t :- ReadTuple(b, marker.next);
      Ok(Parsed(Insert(xid, oid.v, t.v), t.next))
  }

  function ReadInsert(b: seq<Byte>, p: nat, inStream: bool): (r: Read<Msg>)
    requires p <= |b|
    ensures Within(b, p, r)
    ensures r.Ok? ==> r.value.v.Insert? && (r.value.v.xid.Some? <==> inStream)
  {
    var xid :- ReadXid(b, p, inStream);
    ReadInsertRest(b, xid.next, xid.v)
  }

  /** An optional old image (`K` or `O`), then the byte that follows it. */
  datatype OldImage = OldImage(key: Option<Tuple>, full: Option<Tuple>, marker: Byte)

  function ReadOldImage(b: seq<Byte>, p: nat): (r: Read<OldImage>)
    requires p <= |b|
    ensures Within(b, p, r)
  {
    var m :- ReadU8(b, p);
    if m.v == 75 || m.v == 79 then
      var t :- ReadTuple(b, m.next);
      var after :- ReadU8(b, t.next);
      if m.v == 75 then Ok(Parsed(OldImage(Some(t.v), None, after.v), after.next))
      else Ok(Parsed(OldImage(None, Some(t.v), after.v), after.next))
    else Ok(Parsed(OldImage(None, None, m.v), m.next))
  }

  function ReadUpdateRest(b: seq<Byte>, p: nat, xid: Option<U32>): (r: Read<Msg>)
    requires p <= |b|
    ensures Within(b, p, r)
    ensures r.Ok? ==> r.value.v.Update? && r.value.v.xid == xid
  {
    var oid :- ReadU32(b, p);
    var image :- ReadOldImage(b, oid.next);
    if image.v.marker != 78 then Err(UnexpectedTupleMarker(image.v.marker))
    else
      var t :- ReadTuple(b, image.next);
      Ok(Parsed(Update(xid, oid.v, image.v.key, image.v.full, t.v), t.next))
  }

  function ReadUpdate(b: seq<Byte>, p: nat, inStream: bool): (r: Read<Msg>)
    requires p <= |b|
    ensures Within(b, p, r)
    ensures r.Ok? ==> r.value.v.Update? && (r.value.v.xid.Some? <==> inStream)
  {
    var xid :- ReadXid(b, p, inStream);
    ReadUpdateRest(b, xid.next, xid.v)
  }

  function ReadDeleteRest(b: seq<Byte>, p: nat, xid: Option<U32>): (r: Read<Msg>)
    requires p <= |b|
    ensures Within(b, p, r)
    ensures r.Ok? ==> r.value.v.Delete? && r.value.v.xid == xid
  {
    var oid :- ReadU32(b, p);
    var m :- ReadU8(b, oid.next);
    if m.v == 75 then
      var t :- ReadTuple(b, m.next);
      Ok(Parsed(Delete(xid, oid.v, Some(t.v), None), t.next))
    else if m.v == 79 then
      var t :- ReadTuple(b, m.next);
      Ok(Parsed(Delete(xid, oid.v, None, Some(t.v)), t.next))
    else Err(UnexpectedTupleMarker(m.v))
  }

  function ReadDelete(b: seq<Byte>, p: nat, inStream: bool): (r: Read<Msg>)
    requires p <= |b|
    ensures Within(b, p, r)
    ensures r.Ok? ==> r.value.v.Delete? && (r.value.v.xid.Some? <==> inStream)
  {
    var xid :- ReadXid(b, p, inStream);
    ReadDeleteRest(b, xid.next, xid.v)
  }

  function ReadTruncateRest(b: seq<Byte>, p: nat, xid: Option<U32>): (r: Read<Msg>)
    requires p <= |b|
    ensures Within(b, p, r)
    ensures r.Ok? ==> r.value.v.Truncate? && r.value.v.xid == xid
  {
    var n :- ReadI32(b, p);
    var len :- Count(n.v);
    var options :- ReadU8(b, n.next);
    ManyWithin(b, OidsOf(b), options.next, len);
    var oids :- ReadMany(OidsOf(b), options.next, len);
    Ok(Parsed(Truncate(xid, options.v, oids.v), oids.next))
  }

  function ReadTruncate(b: seq<Byte>, p: nat, inStream: bool): (r: Read<Msg>)
    requires p <= |b|
    ensures Within(b, p, r)
    ensures r.Ok? ==> r.value.v.Truncate? && (r.value.v.xid.Some? <==> inStream)
  {
    var xid :- ReadXid(b, p, inStream);
    ReadTruncateRest(b, xid.next, xid.v)
  }

  function ReadStreamStart(b: seq<Byte>, p: nat): (r: Read<Msg>)
    requires p <= |b|
    ensures Within(b, p, r)
    ensures r.Ok? ==> r.value.v.StreamStart?
  {
    var xid :- ReadU32(b, p);
    var first :- ReadU8(b, xid.next);
    Ok(Parsed(StreamStart(xid.v, first.v != 0), first.next))
  }

  function ReadStreamCommit(b: seq<Byte>, p: nat): (r: Read<Msg>)
    requires p <= |b|
    ensures Within(b, p, r)
    ensures r.Ok? ==> r.value.v.StreamCommit?
  {
    var xid :- ReadU32(b, p);
    var flags :- ReadU8(b, xid.next);
    var lsn :- ReadLsn(b, flags.next);
    var end :- ReadLsn(b, lsn.next);
    var at :- ReadI64(b, end.next);
    Ok(Parsed(StreamCommit(xid.v, lsn.v, end.v, at.v), at.next))
  }

  function ReadStreamAbort(b: seq<Byte>, p: nat, parallel: bool): (r: Read<Msg>)
    requires p <= |b|
    ensures Within(b, p, r)
    ensures r.Ok? ==> r.value.v.StreamAbort?
  {
    var xid :- ReadU32(b, p);
    var sub :- ReadU32(b, xid.next);
    if parallel then
      var lsn :- ReadLsn(b, sub.next);
      var at :- ReadI64(b, lsn.next);
      Ok(Parsed(StreamAbort(xid.v, sub.v, Some(lsn.v), Some(at.v)), at.next))
    else Ok(Parsed(StreamAbort(xid.v, sub.v, None, None), sub.next))
  }

  function ReadPrepared(b: seq<Byte>, p: nat, hasFlags: bool): (r: Read<PreparedTxn>)
    requires p <= |b|
    ensures Within(b, p, r)
  {
    var q :- if hasFlags then ReadU8(b, p) else Ok(Parsed(0, p));
    var lsn :- ReadLsn(b, q.next);
    var end :- ReadLsn(b, lsn.next);
    var at :- ReadI64(b, end.next);
    var xid :- ReadU32(b, at.next);
    var gid :- ReadText(b, xid.next);
    Ok(Parsed(PreparedTxn(lsn.v, end.v, at.v, xid.v, gid.v), gid.next))
  }

  function ReadRollback(b: seq<Byte>, p: nat): (r: Read<Msg>)
    requires p <= |b|
    ensures Within(b, p, r)
    ensures r.Ok? ==> r.value.v.RollbackPrepared?
  {
    var flags :- ReadU8(b, p);
    var prepared :- ReadLsn(b, flags.next);
    var rolled :- ReadLsn(b, prepared.next);
    var at :- ReadI64(b, rolled.next);
    var rolledAt :- ReadI64(b, at.next);
    var xid :- ReadU32(b, rolledAt.next);
    var gid :- ReadText(b, xid.next);
    Ok(Parsed(RollbackPrepared(prepared.v, rolled.v, at.v, rolledAt.v, xid.v, gid.v), gid.next))
  }

  function Map<T>(r: Read<T>, wrap: T -> Msg): Read<Msg> {
    if r.Err? then Err(r.error) else Ok(Parsed(wrap(r.value.v), r.value.next))
  }

  /** The message a tag announces, read from just after the tag. */
  function ReadBody(b: seq<Byte>, p: nat, tag: Byte, inStream: bool, parallel: bool): (r: Read<Msg>)
    requires p <= |b|
    ensures Within(b, p, r)
    ensures r.Ok? && IsChange(r.value.v) ==> (r.value.v.xid.Some? <==> inStream)
  {
    if tag == 66 then ReadBegin(b, p)
    else if tag == 77 then ReadMessage(b, p, inStream)
    else if tag == 67 then ReadCommit(b, p)
    else if tag == 79 then ReadOrigin(b, p)
    else if tag == 82 then ReadRelation(b, p, inStream)
    else if tag == 89 then ReadTypeDecl(b, p, inStream)
    else if tag == 73 then ReadInsert(b, p, inStream)
    else if tag == 85 then ReadUpdate(b, p, inStream)
    else if tag == 68 then ReadDelete(b, p, inStream)
    else if tag == 84 then ReadTruncate(b, p, inStream)
    else if tag == 83 then ReadStreamStart(b, p)
    else if tag == 69 then Ok(Parsed(StreamStop, p))
    else if tag == 99 then ReadStreamCommit(b, p)
    else if tag == 65 then ReadStreamAbort(b, p, parallel)
    else if tag == 98 then Map(ReadPrepared(b, p, false), t => BeginPrepare(t))
    else if tag == 80 then Map(ReadPrepared(b, p, true), t => Prepare(t))
    else if tag == 75 then Map(ReadPrepared(b, p, true), t => CommitPrepared(t))
    else if tag == 112 then Map(ReadPrepared(b, p, true), t => StreamPrepare(t))
    else if tag == 114 then ReadRollback(b, p)
    else Err(UnknownMessage(tag))
  }

  /** One frame: the message, or why it is rejected. */
  function DecodeFrame(b: seq<Byte>, inStream: bool, parallel: bool): (r: Result<Msg, DecodeError>) {
    var tag :- ReadU8(b, 0);
    var msg :- ReadBody(b, tag.next, tag.v, inStream, parallel);
    if msg.next != |b| then Err(TrailingBytes(|b| - msg.next)) else Ok(msg.v)
  }

  /** The stream bracket after a message. */
  function BracketAfter(msg: Msg, inStream: bool): bool {
    if msg.StreamStart? then true else if msg.StreamStop? then false else inStream
  }

  // ------------------------------------------------------ the standard layout

  function EncodeU32(n: U32): seq<Byte> { ToBe(n, 4) }

  function EncodeI16(i: I16): seq<Byte> { ToBe(Unsigned(i, 0x8000), 2) }

  function EncodeI32(i: I32): seq<Byte> { ToBe(Unsigned(i, 0x8000_0000), 4) }

  function EncodeI64(i: I64): seq<Byte> { ToBe(Unsigned(i, 0x8000_0000_0000_0000), 8) }

  function EncodeLsn(n: Lsn): seq<Byte> { ToBe(n, 8) }

  function EncodeText(t: Text): seq<Byte> { t + [0] }

  function EncodeSized(s: seq<Byte>): seq<Byte>
    requires |s| < 0x8000_0000
  {
    EncodeI32(|s|) + s
  }

  function EncodeXid(xid: Option<U32>): seq<Byte> {
    if xid.Some? then EncodeU32(xid.value) else []
  }

  predicate GoodText(t: Text) {
    0 !in t && Utf8(t)
  }

  predicate GoodColumn(c: TupleColumn) {
    (c.TextColumn? || c.BinaryColumn?) ==> |c.bytes| < 0x8000_0000
  }

  predicate GoodTuple(t: Tuple) {
    |t| < 0x8000 && forall i | 0 <= i < |t| :: GoodColumn(t[i])
  }

  function EncodeColumn(c: TupleColumn): seq<Byte>
    requires GoodColumn(c)
  {
    match c
    case NullColumn => [110]
    case UnchangedToast => [117]
    case TextColumn(s) => [116] + EncodeSized(s)
    case BinaryColumn(s) => [98] + EncodeSized(s)
  }

  function Join(parts: seq<seq<Byte>>): seq<Byte> {
    if parts == [] then [] else Join(parts[..|parts| - 1]) + parts[|parts| - 1]
  }

  function ColumnParts(t: Tuple): (parts: seq<seq<Byte>>)
    requires forall i | 0 <= i < |t| :: GoodColumn(t[i])
    ensures |parts| == |t| && forall i | 0 <= i < |t| :: parts[i] == EncodeColumn(t[i])
  {
    seq(|t|, i requires 0 <= i < |t| => EncodeColumn(t[i]))
  }

  function EncodeColumns(t: Tuple): seq<Byte>
    requires forall i | 0 <= i < |t| :: GoodColumn(t[i])
  {
    Join(ColumnParts(t))
  }

  function EncodeTuple(t: Tuple): seq<Byte>
    requires GoodTuple(t)
  {
    EncodeI16(|t|) + EncodeColumns(t)
  }

  function EncodeRelationColumn(c: RelationColumn): seq<Byte> {
    [c.flags] + (EncodeText(c.name) + (EncodeU32(c.typeOid) + EncodeI32(c.typeModifier)))
  }

  function RelationColumnParts(cs: seq<RelationColumn>): (parts: seq<seq<Byte>>)
    ensures |parts| == |cs| && forall i | 0 <= i < |cs| :: parts[i] == EncodeRelationColumn(cs[i])
  {
    seq(|cs|, i requires 0 <= i < |cs| => EncodeRelationColumn(cs[i]))
  }

  function EncodeRelationColumns(cs: seq<RelationColumn>): seq<Byte> {
    Join(RelationColumnParts(cs))
  }

  function OidParts(oids: seq<U32>): (parts: seq<seq<Byte>>)
    ensures |parts| == |oids| && forall i | 0 <= i < |oids| :: parts[i] == EncodeU32(oids[i])
  {
    seq(|oids|, i requires 0 <= i < |oids| => EncodeU32(oids[i]))
  }

  function EncodeOids(oids: seq<U32>): seq<Byte> {
    Join(OidParts(oids))
  }

  function EncodePrepared(t: PreparedTxn): seq<Byte> {
    EncodeLsn(t.lsn) + (EncodeLsn(t.endLsn) + (EncodeI64(t.timestamp) + (EncodeU32(t.xid) + EncodeText(t.gid))))
  }

  predicate GoodOld(key: Option<Tuple>, full: Option<Tuple>) {
    && (key.None? || full.None?)
    && (key.Some? ==> GoodTuple(key.value))
    && (full.Some? ==> GoodTuple(full.value))
  }

  function EncodeOld(key: Option<Tuple>, full: Option<Tuple>): seq<Byte>
    requires GoodOld(key, full)
  {
    if key.Some? then [75] + EncodeTuple(key.value)
    else if full.Some? then [79] + EncodeTuple(full.value)
    else []
  }

  /** What the layout can carry, in or out of a streamed transaction. */
  predicate WellFormed(m: Msg, inStream: bool, parallel: bool) {
    match m
    case Begin(_, _, _) => true
    case Message(xid, _, _, prefix, content) => (xid.Some? <==> inStream) && GoodText(prefix) && |content| < 0x8000_0000
    case Commit(_, _, _) => true
    case Origin(_, name) => GoodText(name)
    case Relation(xid, _, namespace, name, _, columns) =>
      && (xid.Some? <==> inStream) && GoodText(namespace) && GoodText(name) && |columns| < 0x8000
      && forall i | 0 <= i < |columns| :: GoodText(columns[i].name)
    case TypeDecl(xid, _, namespace, name) => (xid.Some? <==> inStream) && GoodText(namespace) && GoodText(name)
    case Insert(xid, _, t) => (xid.Some? <==> inStream) && GoodTuple(t)
    case Update(xid, _, key, full, t) => (xid.Some? <==> inStream) && GoodOld(key, full) && GoodTuple(t)
    case Delete(xid, _, key, full) => (xid.Some? <==> inStream) && GoodOld(key, full) && (key.Some? || full.Some?)
    case Truncate(xid, _, oids) => (xid.Some? <==> inStream) && |oids| < 0x8000_0000
    case StreamStart(_, _) => true
    case StreamStop => true
    case StreamCommit(_, _, _, _) => true
    case StreamAbort(_, _, lsn, at) => (lsn.Some? <==> parallel) && (at.Some? <==> parallel)
    case BeginPrepare(t) => GoodText(t.gid)
    case Prepare(t) => GoodText(t.gid)
    case CommitPrepared(t) => GoodText(t.gid)
    case StreamPrepare(t) => GoodText(t.gid)
    case RollbackPrepared(_, _, _, _, _, gid) => GoodText(gid)
  }

  function Tag(m: Msg): Byte {
    match m
    case Begin(_, _, _) => 66
    case Message(_, _, _, _, _) => 77
    case Commit(_, _, _) => 67
    case Origin(_, _) => 79
    case Relation(_, _, _, _, _, _) => 82
    case TypeDecl(_, _, _, _) => 89
    case Insert(_, _, _) => 73
    case Update(_, _, _, _, _) => 85
    case Delete(_, _, _, _) => 68
    case Truncate(_, _, _) => 84
    case StreamStart(_, _) => 83
    case StreamStop => 69
    case StreamCommit(_, _, _, _) => 99
    case StreamAbort(_, _, _, _) => 65
    case BeginPrepare(_) => 98
    case Prepare(_) => 80
    case CommitPrepared(_) => 75
    case StreamPrepare(_) => 112
    case RollbackPrepared(_, _, _, _, _, _) => 114
  }

  /** The fields of a change after its transaction prefix. */
  function EncodeChange(m: Msg, flags: Byte, inStream: bool): seq<Byte>
    requires IsChange(m) && WellFormed(m, inStream, false)
  {
    match m
    case Message(_, _, lsn, prefix, content) =>
      [flags] + (EncodeLsn(lsn) + (EncodeText(prefix) + EncodeSized(content)))
    case Relation(_, oid, namespace, name, identity, columns) =>
      EncodeU32(oid) + (EncodeText(namespace) + (EncodeText(name)
        + ([identity] + (EncodeI16(|columns|) + EncodeRelationColumns(columns)))))
    case TypeDecl(_, oid, namespace, name) => EncodeU32(oid) + (EncodeText(namespace) + EncodeText(name))
    case Insert(_, oid, t) => EncodeU32(oid) + ([78] + EncodeTuple(t))
    case Update(_, oid, key, full, t) => EncodeU32(oid) + (EncodeOld(key, full) + ([78] + EncodeTuple(t)))
    case Delete(_, oid, key, full) => EncodeU32(oid) + EncodeOld(key, full)
    case Truncate(_, options, oids) => EncodeI32(|oids|) + ([options] + EncodeOids(oids))
  }

  /** The messages that carry their transaction's id inside a streamed transaction. */
  predicate IsChange(m: Msg) {
    m.Message? || m.Relation? || m.TypeDecl? || m.Insert? || m.Update? || m.Delete? || m.Truncate?
  }

  function EncodeBody(m: Msg, flags: Byte, inStream: bool, parallel: bool): seq<Byte>
    requires WellFormed(m, inStream, parallel)
  {
    if IsChange(m) then EncodeXid(m.xid) + EncodeChange(m, flags, inStream)
    else EncodeOther(m, flags, parallel)
  }

  function EncodeOther(m: Msg, flags: Byte, parallel: bool): seq<Byte>
    requires !IsChange(m) && WellFormed(m, false, parallel)
  {
    match m
    case Begin(lsn, at, xid) => EncodeLsn(lsn) + (EncodeI64(at) + EncodeU32(xid))
    case Commit(lsn, end, at) => [flags] + (EncodeLsn(lsn) + (EncodeLsn(end) + EncodeI64(at)))
    case Origin(lsn, name) => EncodeLsn(lsn) + EncodeText(name)
    case StreamStart(xid, _) => EncodeU32(xid) + [flags]
    case StreamStop => []
    case StreamCommit(xid, lsn, end, at) => EncodeU32(xid) + ([flags] + (EncodeLsn(lsn) + (EncodeLsn(end) + EncodeI64(at))))
    case StreamAbort(xid, sub, lsn, at) =>
      EncodeU32(xid) + (EncodeU32(sub) + if parallel then EncodeLsn(lsn.value) + EncodeI64(at.value) else [])
    case BeginPrepare(t) => EncodePrepared(t)
    case Prepare(t) => [flags] + EncodePrepared(t)
    case CommitPrepared(t) => [flags] + EncodePrepared(t)
    case StreamPrepare(t) => [flags] + EncodePrepared(t)
    case RollbackPrepared(prepared, rolled, at, rolledAt, xid, gid) =>
      [flags] + (EncodeLsn(prepared) + (EncodeLsn(rolled) + (EncodeI64(at) + (EncodeI64(rolledAt)
        + (EncodeU32(xid) + EncodeText(gid))))))
  }

  /** The layout of a message with its flag byte, if it has one. */
  function EncodeMsg(m: Msg, flags: Byte, inStream: bool, parallel: bool): seq<Byte>
    requires WellFormed(m, inStream, parallel)
  {
    [Tag(m)] + EncodeBody(m, flags, inStream, parallel)
  }

  /** The flag byte says what the message says; the flags of commits and prepares are unused. */
  predicate FlagFits(m: Msg, flags: Byte) {
    match m
    case Message(_, transactional, _, _, _) => transactional <==> flags % 2 == 1
    case StreamStart(_, first) => first <==> flags != 0
    case _ => true
  }

  /** The frame is a layout of the message. */
  ghost predicate Lays(frame: seq<Byte>, m: Msg, inStream: bool, parallel: bool) {
    WellFormed(m, inStream, parallel) && exists flags :: FlagFits(m, flags) && frame == EncodeMsg(m, flags, inStream, parallel)
  }

  // ---------------------------------------- reading back what was written

  /** The bytes `e` stand at position `p`. */
  ghost predicate At(b: seq<Byte>, p: nat, e: seq<Byte>) {
    p + |e| <= |b| && b[p..p + |e|] == e
  }

  ghost predicate Reads<T>(r: Read<T>, v: T, next: nat) {
    r.Ok? && r.value.v == v && r.value.next == next
  }

  lemma AtSplit(b: seq<Byte>, p: nat, x: seq<Byte>, y: seq<Byte>)
    requires At(b, p, x + y)
    ensures At(b, p, x) && At(b, p + |x|, y)
  {
    assert b[p..p + |x|] == (x + y)[..|x|];
    assert b[p + |x|..p + |x| + |y|] == (x + y)[|x|..];
  }

  lemma U8At(b: seq<Byte>, p: nat, n: Byte)
    requires At(b, p, [n])
    ensures Reads(ReadU8(b, p), n, p + 1)
  {
  }

  lemma U32At(b: seq<Byte>, p: nat, n: U32)
    requires At(b, p, EncodeU32(n))
    ensures Reads(ReadU32(b, p), n, p + 4)
  {
    Widths();
    FromToBe(n, 4);
  }

  lemma I16At(b: seq<Byte>, p: nat, i: I16)
    requires At(b, p, EncodeI16(i))
    ensures Reads(ReadI16(b, p), i, p + 2)
  {
    Widths();
    FromToBe(Unsigned(i, 0x8000), 2);
  }

  lemma I32At(b: seq<Byte>, p: nat, i: I32)
    requires At(b, p, EncodeI32(i))
    ensures Reads(ReadI32(b, p), i, p + 4)
  {
    Widths();
    FromToBe(Unsigned(i, 0x8000_0000), 4);
  }

  lemma I64At(b: seq<Byte>, p: nat, i: I64)
    requires At(b, p, EncodeI64(i))
    ensures Reads(ReadI64(b, p), i, p + 8)
  {
    Widths();
    FromToBe(Unsigned(i, 0x8000_0000_0000_0000), 8);
  }

  lemma LsnAt(b: seq<Byte>, p: nat, n: Lsn)
    requires At(b, p, EncodeLsn(n))
    ensures Reads(ReadLsn(b, p), n, p + 8)
  {
    Widths();
    FromToBe(n, 8);
  }

  lemma TextAt(b: seq<Byte>, p: nat, t: Text)
    requires At(b, p, EncodeText(t)) && GoodText(t)
    ensures Reads(ReadText(b, p), t, p + |t| + 1)
  {
    forall i | p <= i < p + |t| ensures b[i] != 0 {
      assert b[p..p + |t| + 1][i - p] == t[i - p];
    }
    assert EncodeText(t)[|t|] == 0;
    assert b[p..p + |t|] == EncodeText(t)[..|t|];
    NulIs(b, p, p + |t|);
  }

  lemma SizedAt(b: seq<Byte>, p: nat, s: seq<Byte>)
    requires |s| < 0x8000_0000 && At(b, p, EncodeSized(s))
    ensures Reads(ReadSized(b, p), s, p + |EncodeSized(s)|)
  {
    AtSplit(b, p, EncodeI32(|s|), s);
    I32At(b, p, |s|);
  }

  lemma XidAt(b: seq<Byte>, p: nat, xid: Option<U32>)
    requires At(b, p, EncodeXid(xid))
    ensures Reads(ReadXid(b, p, xid.Some?), xid, p + |EncodeXid(xid)|)
  {
    if xid.Some? { U32At(b, p, xid.value); }
  }

  lemma ColumnAt(b: seq<Byte>, p: nat, c: TupleColumn)
    requires GoodColumn(c) && At(b, p, EncodeColumn(c))
    ensures Reads(ReadColumn(b, p), c, p + |EncodeColumn(c)|)
  {
    match c
    case NullColumn => U8At(b, p, 110);
    case UnchangedToast => U8At(b, p, 117);
    case TextColumn(s) =>
      AtSplit(b, p, [116], EncodeSized(s));
      U8At(b, p, 116);
      SizedAt(b, p + 1, s);
    case BinaryColumn(s) =>
      AtSplit(b, p, [98], EncodeSized(s));
      U8At(b, p, 98);
      SizedAt(b, p + 1, s);
  }

  lemma JoinPrefix(b: seq<Byte>, p: nat, parts: seq<seq<Byte>>, n: nat)
    requires n < |parts| && At(b, p, Join(parts[..n + 1]))
    ensures At(b, p, Join(parts[..n])) && At(b, p + |Join(parts[..n])|, parts[n])
    ensures |Join(parts[..n + 1])| == |Join(parts[..n])| + |parts[n]|
  {
    assert parts[..n + 1][..n] == parts[..n];
    AtSplit(b, p, Join(parts[..n]), parts[n]);
  }

  /** Each part reads back as its item. */
  ghost predicate ReadsBack<T>(b: seq<Byte>, at: nat -> Read<T>, xs: seq<T>, parts: seq<seq<Byte>>) {
    && |parts| == |xs|
    && forall i, q: nat | 0 <= i < |xs| && At(b, q, parts[i]) :: Reads(at(q), xs[i], q + |parts[i]|)
  }

  lemma {:induction false} JoinedAt<T>(b: seq<Byte>, p: nat, at: nat -> Read<T>, xs: seq<T>, parts: seq<seq<Byte>>, n: nat)
    requires ReadsBack(b, at, xs, parts) && n <= |parts| && At(b, p, Join(parts[..n]))
    ensures Reads(ReadMany(at, p, n), xs[..n], p + |Join(parts[..n])|)
  {
    if n > 0 {
      JoinPrefix(b, p, parts, n - 1);
      JoinedAt(b, p, at, xs, parts, n - 1);
      assert xs[..n - 1] + [xs[n - 1]] == xs[..n];
    }
  }

  lemma {:induction false} JoinedAll<T>(b: seq<Byte>, p: nat, at: nat -> Read<T>, xs: seq<T>, parts: seq<seq<Byte>>)
    requires ReadsBack(b, at, xs, parts) && At(b, p, Join(parts))
    ensures Reads(ReadMany(at, p, |xs|), xs, p + |Join(parts)|)
  {
    assert parts[..|xs|] == parts && xs[..|xs|] == xs;
    JoinedAt(b, p, at, xs, parts, |xs|);
  }

  lemma ColumnsReadBack(b: seq<Byte>, t: Tuple)
    requires forall i | 0 <= i < |t| :: GoodColumn(t[i])
    ensures ReadsBack(b, ColumnsOf(b), t, ColumnParts(t))
  {
    var parts := ColumnParts(t);
    forall i, q: nat | 0 <= i < |t| && At(b, q, parts[i])
      ensures Reads(ColumnsOf(b)(q), t[i], q + |parts[i]|)
    {
      ColumnAt(b, q, t[i]);
    }
  }

  lemma {:induction false} ColumnsAt(b: seq<Byte>, p: nat, t: Tuple)
    requires (forall i | 0 <= i < |t| :: GoodColumn(t[i])) && At(b, p, EncodeColumns(t))
    ensures Reads(ReadMany(ColumnsOf(b), p, |t|), t, p + |EncodeColumns(t)|)
  {
    ColumnsReadBack(b, t);
    JoinedAll(b, p, ColumnsOf(b), t, ColumnParts(t));
  }

  lemma TupleAt(b: seq<Byte>, p: nat, t: Tuple)
    requires GoodTuple(t) && At(b, p, EncodeTuple(t))
    ensures Reads(ReadTuple(b, p), t, p + |EncodeTuple(t)|)
  {
    AtSplit(b, p, EncodeI16(|t|), EncodeColumns(t));
    I16At(b, p, |t|);
    ColumnsAt(b, p + 2, t);
  }

  lemma RelationColumnAt(b: seq<Byte>, p: nat, c: RelationColumn)
    requires GoodText(c.name) && At(b, p, EncodeRelationColumn(c))
    ensures Reads(ReadRelationColumn(b, p), c, p + |EncodeRelationColumn(c)|)
  {
    hide At, ReadU8, ReadText, ReadU32, ReadI32;
    var types := EncodeU32(c.typeOid) + EncodeI32(c.typeModifier);
    AtSplit(b, p, [c.flags], EncodeText(c.name) + types);
    AtSplit(b, p + 1, EncodeText(c.name), types);
    var q := p + 1 + |c.name| + 1;
    AtSplit(b, q, EncodeU32(c.typeOid), EncodeI32(c.typeModifier));
    U8At(b, p, c.flags);
    TextAt(b, p + 1, c.name);
    U32At(b, q, c.typeOid);
    I32At(b, q + 4, c.typeModifier);
  }

  lemma RelationColumnsReadBack(b: seq<Byte>, cs: seq<RelationColumn>)
    requires forall i | 0 <= i < |cs| :: GoodText(cs[i].name)
    ensures ReadsBack(b, RelationColumnsOf(b), cs, RelationColumnParts(cs))
  {
    var parts := RelationColumnParts(cs);
    forall i, q: nat | 0 <= i < |cs| && At(b, q, parts[i])
      ensures Reads(RelationColumnsOf(b)(q), cs[i], q + |parts[i]|)
    {
      RelationColumnAt(b, q, cs[i]);
    }
  }

  lemma {:induction false} RelationColumnsAt(b: seq<Byte>, p: nat, cs: seq<RelationColumn>)
    requires (forall i | 0 <= i < |cs| :: GoodText(cs[i].name)) && At(b, p, EncodeRelationColumns(cs))
    ensures Reads(ReadMany(RelationColumnsOf(b), p, |cs|), cs, p + |EncodeRelationColumns(cs)|)
  {
    RelationColumnsReadBack(b, cs);
    JoinedAll(b, p, RelationColumnsOf(b), cs, RelationColumnParts(cs));
  }

  lemma RelationColumnListAt(b: seq<Byte>, p: nat, cs: seq<RelationColumn>)
    requires |cs| < 0x8000 && forall i | 0 <= i < |cs| :: GoodText(cs[i].name)
    requires At(b, p, EncodeI16(|cs|)) && At(b, p + 2, EncodeRelationColumns(cs))
    ensures Reads(ReadRelationColumns(b, p), cs, p + 2 + |EncodeRelationColumns(cs)|)
  {
    I16At(b, p, |cs|);
    RelationColumnsAt(b, p + 2, cs);
  }

  lemma OidsReadBack(b: seq<Byte>, oids: seq<U32>)
    ensures ReadsBack(b, OidsOf(b), oids, OidParts(oids))
  {
    var parts := OidParts(oids);
    forall i, q: nat | 0 <= i < |oids| && At(b, q, parts[i])
      ensures Reads(OidsOf(b)(q), oids[i], q + |parts[i]|)
    {
      U32At(b, q, oids[i]);
    }
  }

  lemma {:induction false} OidsAt(b: seq<Byte>, p: nat, oids: seq<U32>)
    requires At(b, p, EncodeOids(oids))
    ensures Reads(ReadMany(OidsOf(b), p, |oids|), oids, p + |EncodeOids(oids)|)
  {
    OidsReadBack(b, oids);
    JoinedAll(b, p, OidsOf(b), oids, OidParts(oids));
  }

  lemma PreparedAt(b: seq<Byte>, p: nat, t: PreparedTxn)
    requires GoodText(t.gid) && At(b, p, EncodePrepared(t))
    ensures Reads(ReadPrepared(b, p, false), t, p + |EncodePrepared(t)|)
  {
    var e3 := EncodeU32(t.xid) + EncodeText(t.gid);
    var e2 := EncodeI64(t.timestamp) + e3;
    AtSplit(b, p, EncodeLsn(t.lsn), EncodeLsn(t.endLsn) + e2);
    AtSplit(b, p + 8, EncodeLsn(t.endLsn), e2);
    AtSplit(b, p + 16, EncodeI64(t.timestamp), e3);
    AtSplit(b, p + 24, EncodeU32(t.xid), EncodeText(t.gid));
    LsnAt(b, p, t.lsn);
    LsnAt(b, p + 8, t.endLsn);
    I64At(b, p + 16, t.timestamp);
    U32At(b, p + 24, t.xid);
    TextAt(b, p + 28, t.gid);
  }

  lemma FlaggedPreparedAt(b: seq<Byte>, p: nat, t: PreparedTxn, flags: Byte)
    requires GoodText(t.gid) && At(b, p, [flags] + EncodePrepared(t))
    ensures Reads(ReadPrepared(b, p, true), t, p + 1 + |EncodePrepared(t)|)
  {
    AtSplit(b, p, [flags], EncodePrepared(t));
    U8At(b, p, flags);
    PreparedAt(b, p + 1, t);
  }
}
