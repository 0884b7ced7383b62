/**
The decoder accepts nothing but the standard layout: a frame it takes is a layout of the message
it returns (`crates/pgshard-repl/src/pgoutput.rs`).
*/
module PgExact {
  import opened Wrappers
  import opened Bytes
  import opened Messages
  import opened PgOutput
  import opened PgRoundTrip

  // ------------------------------------------------------------- primitives

  /** The bytes from `p` to `q` are `e`. */
  ghost predicate Was(b: seq<Byte>, p: nat, q: nat, e: seq<Byte>) {
    p <= q <= |b| && b[p..q] == e
  }

  lemma WasJoin(b: seq<Byte>, p: nat, q: nat, r: nat, x: seq<Byte>, y: seq<Byte>)
    requires Was(b, p, q, x) && Was(b, q, r, y)
    ensures Was(b, p, r, x + y)
  {
    assert b[p..r] == b[p..q] + b[q..r];
  }

  lemma {:induction false} ToFromBe(s: seq<Byte>)
    ensures ToBe(FromBe(s), |s|) == s
  {
    if s != [] {
      var n := |s| - 1;
      ToFromBe(s[..n]);
      assert FromBe(s) / 256 == FromBe(s[..n]) && FromBe(s) % 256 == s[n];
      assert s == s[..n] + [s[n]];
    }
  }

  lemma SignedBack(n: nat, half: nat)
    requires n < 2 * half
    ensures Unsigned(Signed(n, half), half) == n
  {
  }

  lemma U8Was(b: seq<Byte>, p: nat)
    requires p <= |b| && ReadU8(b, p).Ok?
    ensures var r := ReadU8(b, p).value; Was(b, p, r.next, [r.v])
  {
  }

  lemma U32Was(b: seq<Byte>, p: nat)
    requires p <= |b| && ReadU32(b, p).Ok?
    ensures var r := ReadU32(b, p).value; Was(b, p, r.next, EncodeU32(r.v))
  {
    ToFromBe(b[p..p + 4]);
  }

  lemma I16Was(b: seq<Byte>, p: nat)
    requires p <= |b| && ReadI16(b, p).Ok?
    ensures var r := ReadI16(b, p).value; Was(b, p, r.next, EncodeI16(r.v))
  {
    Widths();
    ToFromBe(b[p..p + 2]);
    SignedBack(FromBe(b[p..p + 2]), 0x8000);
  }

  lemma I32Was(b: seq<Byte>, p: nat)
    requires p <= |b| && ReadI32(b, p).Ok?
    ensures var r := ReadI32(b, p).value; Was(b, p, r.next, EncodeI32(r.v))
  {
    Widths();
    ToFromBe(b[p..p + 4]);
    SignedBack(FromBe(b[p..p + 4]), 0x8000_0000);
  }

  lemma I64Was(b: seq<Byte>, p: nat)
    requires p <= |b| && ReadI64(b, p).Ok?
    ensures var r := ReadI64(b, p).value; Was(b, p, r.next, EncodeI64(r.v))
  {
    Widths();
    ToFromBe(b[p..p + 8]);
    SignedBack(FromBe(b[p..p + 8]), 0x8000_0000_0000_0000);
  }

  lemma LsnWas(b: seq<Byte>, p: nat)
    requires p <= |b| && ReadLsn(b, p).Ok?
    ensures var r := ReadLsn(b, p).value; Was(b, p, r.next, EncodeLsn(r.v))
  {
    ToFromBe(b[p..p + 8]);
  }

  lemma {:induction false} NulFirst(b: seq<Byte>, p: nat)
    requires p <= |b|
    ensures forall i | p <= i < Nul(b, p) :: b[i] != 0
    ensures Nul(b, p) < |b| ==> b[Nul(b, p)] == 0
    decreases |b| - p
  {
    if p < |b| && b[p] != 0 { NulFirst(b, p + 1); }
  }

  lemma TextWas(b: seq<Byte>, p: nat)
    requires p <= |b| && ReadText(b, p).Ok?
    ensures var r := ReadText(b, p).value; Was(b, p, r.next, EncodeText(r.v)) && GoodText(r.v)
  {
    hide Utf8;
    var q := Nul(b, p);
    NulFirst(b, p);
    assert b[p..q + 1] == b[p..q] + [b[q]];
    forall i | 0 <= i < |b[p..q]| ensures b[p..q][i] != 0 { assert b[p..q][i] == b[p + i]; }
  }

  lemma SizedWas(b: seq<Byte>, p: nat)
    requires p <= |b| && ReadSized(b, p).Ok?
    ensures var r := ReadSized(b, p).value; |r.v| < 0x8000_0000 && Was(b, p, r.next, EncodeSized(r.v))
  {
    I32Was(b, p);
    var n := ReadI32(b, p).value;
    var s := Take(b, n.next, n.v).value;
    hide EncodeI32, ReadI32;
    WasJoin(b, p, n.next, s.next, EncodeI32(n.v), s.v);
  }

  lemma XidWas(b: seq<Byte>, p: nat, inStream: bool)
    requires p <= |b| && ReadXid(b, p, inStream).Ok?
    ensures var r := ReadXid(b, p, inStream).value; Was(b, p, r.next, EncodeXid(r.v))
  {
    if inStream { U32Was(b, p); }
  }

  // ------------------------------------------------------------- aggregates

  lemma ColumnWas(b: seq<Byte>, p: nat)
    requires p <= |b| && ReadColumn(b, p).Ok?
    ensures var r := ReadColumn(b, p).value; GoodColumn(r.v) && Was(b, p, r.next, EncodeColumn(r.v))
  {
    hide ReadSized, EncodeSized;
    U8Was(b, p);
    var kind := ReadU8(b, p).value;
    if kind.v == 116 || kind.v == 98 {
      SizedWas(b, kind.next);
      var s := ReadSized(b, kind.next).value;
      WasJoin(b, p, kind.next, s.next, [kind.v], EncodeSized(s.v));
    }
  }

  lemma JoinMore(parts: seq<seq<Byte>>, part: seq<Byte>)
    ensures Join(parts + [part]) == Join(parts) + part
  {
    assert (parts + [part])[..|parts|] == parts;
  }

  lemma NothingWas(b: seq<Byte>, p: nat)
    requires p <= |b|
    ensures Was(b, p, p, []) && EncodeColumns([]) == [] && EncodeRelationColumns([]) == []
  {
  }

  lemma {:induction false} ColumnsWas(b: seq<Byte>, p: nat, n: nat)
    requires p <= |b| && ReadMany(ColumnsOf(b), p, n).Ok?
    ensures var r := ReadMany(ColumnsOf(b), p, n).value;
      (forall i | 0 <= i < |r.v| :: GoodColumn(r.v[i])) && Was(b, p, r.next, EncodeColumns(r.v))
  {
    if n == 0 {
      NothingWas(b, p);
    } else {
      hide ReadColumn, EncodeColumn, GoodColumn, EncodeColumns, Was;
      ColumnsWas(b, p, n - 1);
      var before := ReadMany(ColumnsOf(b), p, n - 1).value;
      ColumnWas(b, before.next);
      var last := ReadColumn(b, before.next).value;
      WasJoin(b, p, before.next, last.next, EncodeColumns(before.v), EncodeColumn(last.v));
      ColumnsMore(before.v, last.v);
    }
  }

  lemma ColumnsMore(t: Tuple, c: TupleColumn)
    requires (forall i | 0 <= i < |t| :: GoodColumn(t[i])) && GoodColumn(c)
    ensures (forall i | 0 <= i < |t + [c]| :: GoodColumn((t + [c])[i])) && EncodeColumns(t + [c]) == EncodeColumns(t) + EncodeColumn(c)
  {
    hide GoodColumn, EncodeColumn;
    JoinMore(ColumnParts(t), EncodeColumn(c));
    assert ColumnParts(t + [c]) == ColumnParts(t) + [EncodeColumn(c)];
  }

  lemma TupleWas(b: seq<Byte>, p: nat)
    requires p <= |b| && ReadTuple(b, p).Ok?
    ensures var r := ReadTuple(b, p).value; GoodTuple(r.v) && Was(b, p, r.next, EncodeTuple(r.v))
  {
    I16Was(b, p);
    var n := ReadI16(b, p).value;
    ColumnsWas(b, n.next, n.v);
    var r := ReadMany(ColumnsOf(b), n.next, n.v).value;
    hide EncodeColumns, ReadMany, EncodeI16, ReadI16;
    WasJoin(b, p, n.next, r.next, EncodeI16(n.v), EncodeColumns(r.v));
  }

  lemma RelationColumnWas(b: seq<Byte>, p: nat)
    requires p <= |b| && ReadRelationColumn(b, p).Ok?
    ensures var r := ReadRelationColumn(b, p).value; GoodText(r.v.name) && Was(b, p, r.next, EncodeRelationColumn(r.v))
  {
    hide Was, ReadText, ReadU32, ReadI32, ReadU8, EncodeU32, EncodeI32, EncodeText, GoodText;
    var flags := ReadU8(b, p).value;
    var name := ReadText(b, flags.next).value;
    var typeOid := ReadU32(b, name.next).value;
    var modifier := ReadI32(b, typeOid.next).value;
    U8Was(b, p);
    TextWas(b, flags.next);
    U32Was(b, name.next);
    I32Was(b, typeOid.next);
    var types := EncodeU32(typeOid.v) + EncodeI32(modifier.v);
    WasJoin(b, name.next, typeOid.next, modifier.next, EncodeU32(typeOid.v), EncodeI32(modifier.v));
    WasJoin(b, flags.next, name.next, modifier.next, EncodeText(name.v), types);
    WasJoin(b, p, flags.next, modifier.next, [flags.v], EncodeText(name.v) + types);
  }

  ghost predicate AllNamed(cs: seq<RelationColumn>) {
    forall i | 0 <= i < |cs| :: GoodText(cs[i].name)
  }

  lemma {:induction false} RelationColumnsWas(b: seq<Byte>, p: nat, n: nat)
    requires p <= |b| && ReadMany(RelationColumnsOf(b), p, n).Ok?
    ensures var r := ReadMany(RelationColumnsOf(b), p, n).value;
      AllNamed(r.v) && Was(b, p, r.next, EncodeRelationColumns(r.v))
  {
    if n == 0 {
      NothingWas(b, p);
    } else {
      hide ReadRelationColumn, EncodeRelationColumn, GoodText, EncodeRelationColumns, Was, AllNamed;
      RelationColumnsWas(b, p, n - 1);
      var before := ReadMany(RelationColumnsOf(b), p, n - 1).value;
      RelationColumnWas(b, before.next);
      var last := ReadRelationColumn(b, before.next).value;
      WasJoin(b, p, before.next, last.next, EncodeRelationColumns(before.v), EncodeRelationColumn(last.v));
      RelationColumnsMore(before.v, last.v);
    }
  }

  lemma RelationColumnsMore(cs: seq<RelationColumn>, c: RelationColumn)
    ensures AllNamed(cs) && GoodText(c.name) ==> AllNamed(cs + [c])
    ensures EncodeRelationColumns(cs + [c]) == EncodeRelationColumns(cs) + EncodeRelationColumn(c)
  {
    hide EncodeRelationColumn, GoodText;
    JoinMore(RelationColumnParts(cs), EncodeRelationColumn(c));
    assert RelationColumnParts(cs + [c]) == RelationColumnParts(cs) + [EncodeRelationColumn(c)];
  }

  lemma {:induction false} OidsWas(b: seq<Byte>, p: nat, n: nat)
    requires p <= |b| && ReadMany(OidsOf(b), p, n).Ok?
    ensures var r := ReadMany(OidsOf(b), p, n).value; Was(b, p, r.next, EncodeOids(r.v))
  {
    if n > 0 {
      hide ReadU32, EncodeU32;
      OidsWas(b, p, n - 1);
      var before := ReadMany(OidsOf(b), p, n - 1).value;
      U32Was(b, before.next);
      var last := ReadU32(b, before.next).value;
      WasJoin(b, p, before.next, last.next, EncodeOids(before.v), EncodeU32(last.v));
      JoinMore(OidParts(before.v), EncodeU32(last.v));
      assert OidParts(before.v + [last.v]) == OidParts(before.v) + [EncodeU32(last.v)];
    }
  }

  // --------------------------------------------------------------- messages

  lemma Was3(b: seq<Byte>, p0: nat, p1: nat, p2: nat, p3: nat, e1: seq<Byte>, e2: seq<Byte>, e3: seq<Byte>)
    requires Was(b, p0, p1, e1) && Was(b, p1, p2, e2) && Was(b, p2, p3, e3)
    ensures Was(b, p0, p3, e1 + (e2 + e3))
  {
    hide Was;
    WasJoin(b, p1, p2, p3, e2, e3);
    WasJoin(b, p0, p1, p3, e1, e2 + e3);
  }

  lemma Was4(b: seq<Byte>, p0: nat, p1: nat, p2: nat, p3: nat, p4: nat, e1: seq<Byte>, e2: seq<Byte>, e3: seq<Byte>, e4: seq<Byte>)
    requires Was(b, p0, p1, e1) && Was(b, p1, p2, e2) && Was(b, p2, p3, e3) && Was(b, p3, p4, e4)
    ensures Was(b, p0, p4, e1 + (e2 + (e3 + e4)))
  {
    hide Was;
    Was3(b, p1, p2, p3, p4, e2, e3, e4);
    WasJoin(b, p0, p1, p4, e1, e2 + (e3 + e4));
  }

  lemma BeginWas(b: seq<Byte>, p: nat)
    requires p <= |b| && ReadBegin(b, p).Ok?
    ensures var r := ReadBegin(b, p).value; Was(b, p, r.next, EncodeOther(r.v, 0, false))
  {
    hide Was, ReadLsn, ReadI64, ReadU32, EncodeLsn, EncodeI64, EncodeU32;
    var lsn := ReadLsn(b, p).value;
    var at := ReadI64(b, lsn.next).value;
    var xid := ReadU32(b, at.next).value;
    LsnWas(b, p);
    I64Was(b, lsn.next);
    U32Was(b, at.next);
    Was3(b, p, lsn.next, at.next, xid.next, EncodeLsn(lsn.v), EncodeI64(at.v), EncodeU32(xid.v));
  }

  lemma MessageWas(b: seq<Byte>, p: nat, xid: Option<U32>) returns (flags: Byte)
    requires p <= |b| && ReadMessageRest(b, p, xid).Ok?
    ensures var r := ReadMessageRest(b, p, xid).value;
      WellFormed(r.v, xid.Some?, false) && FlagFits(r.v, flags) && Was(b, p, r.next, EncodeChange(r.v, flags, xid.Some?))
  {
    hide Was, ReadU8, ReadLsn, ReadText, ReadSized, EncodeLsn, EncodeText, EncodeSized, GoodText;
    var flag := ReadU8(b, p).value;
    var lsn := ReadLsn(b, flag.next).value;
    var prefix := ReadText(b, lsn.next).value;
    var content := ReadSized(b, prefix.next).value;
    flags := flag.v;
    U8Was(b, p);
    LsnWas(b, flag.next);
    TextWas(b, lsn.next);
    SizedWas(b, prefix.next);
    Was4(b, p, flag.next, lsn.next, prefix.next, content.next, [flags], EncodeLsn(lsn.v), EncodeText(prefix.v), EncodeSized(content.v));
  }

  lemma CommitWas(b: seq<Byte>, p: nat) returns (flags: Byte)
    requires p <= |b| && ReadCommit(b, p).Ok?
    ensures var r := ReadCommit(b, p).value; Was(b, p, r.next, EncodeOther(r.v, flags, false))
  {
    hide Was, ReadU8, ReadLsn, ReadI64, EncodeLsn, EncodeI64;
    var flag := ReadU8(b, p).value;
    var lsn := ReadLsn(b, flag.next).value;
    var end := ReadLsn(b, lsn.next).value;
    var at := ReadI64(b, end.next).value;
    flags := flag.v;
    U8Was(b, p);
    LsnWas(b, flag.next);
    LsnWas(b, lsn.next);
    I64Was(b, end.next);
    Was4(b, p, flag.next, lsn.next, end.next, at.next, [flags], EncodeLsn(lsn.v), EncodeLsn(end.v), EncodeI64(at.v));
  }

  lemma OriginWas(b: seq<Byte>, p: nat)
    requires p <= |b| && ReadOrigin(b, p).Ok?
    ensures var r := ReadOrigin(b, p).value; GoodText(r.v.name) && Was(b, p, r.next, EncodeOther(r.v, 0, false))
  {
    hide Was, ReadLsn, ReadText, EncodeLsn, EncodeText, GoodText;
    var lsn := ReadLsn(b, p).value;
    var name := ReadText(b, lsn.next).value;
    LsnWas(b, p);
    TextWas(b, lsn.next);
    WasJoin(b, p, lsn.next, name.next, EncodeLsn(lsn.v), EncodeText(name.v));
  }

  lemma ColumnListWas(b: seq<Byte>, p: nat)
    requires p <= |b| && ReadRelationColumns(b, p).Ok?
    ensures var r := ReadRelationColumns(b, p).value;
      |r.v| < 0x8000 && AllNamed(r.v) && Was(b, p, r.next, EncodeI16(|r.v|) + EncodeRelationColumns(r.v))
  {
    I16Was(b, p);
    var n := ReadI16(b, p).value;
    RelationColumnsWas(b, n.next, n.v);
    var r := ReadMany(RelationColumnsOf(b), n.next, n.v).value;
    hide EncodeRelationColumns, ReadMany, EncodeI16, ReadI16;
    WasJoin(b, p, n.next, r.next, EncodeI16(n.v), EncodeRelationColumns(r.v));
  }

  lemma RelationWas(b: seq<Byte>, p: nat, xid: Option<U32>)
    requires p <= |b| && ReadRelationRest(b, p, xid).Ok?
    ensures var r := ReadRelationRest(b, p, xid).value;
      WellFormed(r.v, xid.Some?, false) && Was(b, p, r.next, EncodeChange(r.v, 0, xid.Some?))
  {
    hide Was, ReadU8, ReadU32, ReadText, ReadRelationColumns, EncodeU32, EncodeText, EncodeI16, EncodeRelationColumns, GoodText;
    var oid := ReadU32(b, p).value;
    var namespace := ReadText(b, oid.next).value;
    var name := ReadText(b, namespace.next).value;
    var identity := ReadU8(b, name.next).value;
    var columns := ReadRelationColumns(b, identity.next).value;
    U32Was(b, p);
    TextWas(b, oid.next);
    TextWas(b, namespace.next);
    U8Was(b, name.next);
    ColumnListWas(b, identity.next);
    var list := EncodeI16(|columns.v|) + EncodeRelationColumns(columns.v);
    Was3(b, namespace.next, name.next, identity.next, columns.next, EncodeText(name.v), [identity.v], list);
    Was3(b, p, oid.next, namespace.next, columns.next, EncodeU32(oid.v), EncodeText(namespace.v), EncodeText(name.v) + ([identity.v] + list));
  }

  lemma TypeDeclWas(b: seq<Byte>, p: nat, xid: Option<U32>)
    requires p <= |b| && ReadTypeDeclRest(b, p, xid).Ok?
    ensures var r := ReadTypeDeclRest(b, p, xid).value;
      WellFormed(r.v, xid.Some?, false) && Was(b, p, r.next, EncodeChange(r.v, 0, xid.Some?))
  {
    hide Was, ReadU32, ReadText, EncodeU32, EncodeText, GoodText;
    var oid := ReadU32(b, p).value;
    var namespace := ReadText(b, oid.next).value;
    var name := ReadText(b, namespace.next).value;
    U32Was(b, p);
    TextWas(b, oid.next);
    TextWas(b, namespace.next);
    Was3(b, p, oid.next, namespace.next, name.next, EncodeU32(oid.v), EncodeText(namespace.v), EncodeText(name.v));
  }

  lemma InsertWas(b: seq<Byte>, p: nat, xid: Option<U32>)
    requires p <= |b| && ReadInsertRest(b, p, xid).Ok?
    ensures var r := ReadInsertRest(b, p, xid).value;
      WellFormed(r.v, xid.Some?, false) && Was(b, p, r.next, EncodeChange(r.v, 0, xid.Some?))
  {
    hide Was, ReadU32, ReadU8, ReadTuple, EncodeU32, EncodeTuple, GoodTuple;
    var oid := ReadU32(b, p).value;
    var marker := ReadU8(b, oid.next).value;
    var t := ReadTuple(b, marker.next).value;
    U32Was(b, p);
    U8Was(b, oid.next);
    TupleWas(b, marker.next);
    Was3(b, p, oid.next, marker.next, t.next, EncodeU32(oid.v), [78], EncodeTuple(t.v));
  }

  lemma OldImageWas(b: seq<Byte>, p: nat)
    requires p <= |b| && ReadOldImage(b, p).Ok?
    ensures var r := ReadOldImage(b, p).value;
      GoodOld(r.v.key, r.v.full) && Was(b, p, r.next, EncodeOld(r.v.key, r.v.full) + [r.v.marker])
  {
    hide Was, ReadU8, ReadTuple, EncodeTuple, GoodTuple;
    var m := ReadU8(b, p).value;
    U8Was(b, p);
    if m.v == 75 || m.v == 79 {
      var t := ReadTuple(b, m.next).value;
      TupleWas(b, m.next);
      U8Was(b, t.next);
      WasJoin(b, p, m.next, t.next, [m.v], EncodeTuple(t.v));
      WasJoin(b, p, t.next, ReadU8(b, t.next).value.next, [m.v] + EncodeTuple(t.v), [ReadU8(b, t.next).value.v]);
    } else {
      assert [] + [m.v] == [m.v];
    }
  }

  lemma UpdateWas(b: seq<Byte>, p: nat, xid: Option<U32>)
    requires p <= |b| && ReadUpdateRest(b, p, xid).Ok?
    ensures var r := ReadUpdateRest(b, p, xid).value;
      WellFormed(r.v, xid.Some?, false) && Was(b, p, r.next, EncodeChange(r.v, 0, xid.Some?))
  {
    hide Was, ReadU32, ReadOldImage, ReadTuple, EncodeU32, EncodeTuple, EncodeOld, GoodOld, GoodTuple;
    var oid := ReadU32(b, p).value;
    var image := ReadOldImage(b, oid.next).value;
    var t := ReadTuple(b, image.next).value;
    U32Was(b, p);
    OldImageWas(b, oid.next);
    TupleWas(b, image.next);
    var old_ := EncodeOld(image.v.key, image.v.full);
    Was3(b, p, oid.next, image.next, t.next, EncodeU32(oid.v), old_ + [78], EncodeTuple(t.v));
    assert (old_ + [78]) + EncodeTuple(t.v) == old_ + ([78] + EncodeTuple(t.v));
  }

  lemma DeleteWas(b: seq<Byte>, p: nat, xid: Option<U32>)
    requires p <= |b| && ReadDeleteRest(b, p, xid).Ok?
    ensures var r := ReadDeleteRest(b, p, xid).value;
      WellFormed(r.v, xid.Some?, false) && Was(b, p, r.next, EncodeChange(r.v, 0, xid.Some?))
  {
    hide Was, ReadU32, ReadU8, ReadTuple, EncodeU32, EncodeTuple, GoodTuple;
    var oid := ReadU32(b, p).value;
    var m := ReadU8(b, oid.next).value;
    var t := ReadTuple(b, m.next).value;
    U32Was(b, p);
    U8Was(b, oid.next);
    TupleWas(b, m.next);
    Was3(b, p, oid.next, m.next, t.next, EncodeU32(oid.v), [m.v], EncodeTuple(t.v));
  }

  lemma TruncateWas(b: seq<Byte>, p: nat, xid: Option<U32>)
    requires p <= |b| && ReadTruncateRest(b, p, xid).Ok?
    ensures var r := ReadTruncateRest(b, p, xid).value;
      WellFormed(r.v, xid.Some?, false) && Was(b, p, r.next, EncodeChange(r.v, 0, xid.Some?))
  {
    hide Was, ReadI32, ReadU8, ReadMany, EncodeI32, EncodeOids;
    var n := ReadI32(b, p).value;
    var options := ReadU8(b, n.next).value;
    I32Was(b, p);
    U8Was(b, n.next);
    OidsWas(b, options.next, n.v);
    var oids := ReadMany(OidsOf(b), options.next, n.v).value;
    Was3(b, p, n.next, options.next, oids.next, EncodeI32(n.v), [options.v], EncodeOids(oids.v));
  }

  lemma StreamStartWas(b: seq<Byte>, p: nat) returns (flags: Byte)
    requires p <= |b| && ReadStreamStart(b, p).Ok?
    ensures var r := ReadStreamStart(b, p).value; FlagFits(r.v, flags) && Was(b, p, r.next, EncodeOther(r.v, flags, false))
  {
    hide Was, ReadU32, ReadU8, EncodeU32;
    var xid := ReadU32(b, p).value;
    U32Was(b, p);
    U8Was(b, xid.next);
    flags := ReadU8(b, xid.next).value.v;
    WasJoin(b, p, xid.next, ReadU8(b, xid.next).value.next, EncodeU32(xid.v), [flags]);
  }

  lemma StreamCommitWas(b: seq<Byte>, p: nat) returns (flags: Byte)
    requires p <= |b| && ReadStreamCommit(b, p).Ok?
    ensures var r := ReadStreamCommit(b, p).value; Was(b, p, r.next, EncodeOther(r.v, flags, false))
  {
    hide Was, ReadU32, ReadU8, ReadLsn, ReadI64, EncodeU32, EncodeLsn, EncodeI64;
    var xid := ReadU32(b, p).value;
    var flag := ReadU8(b, xid.next).value;
    var lsn := ReadLsn(b, flag.next).value;
    var end := ReadLsn(b, lsn.next).value;
    var at := ReadI64(b, end.next).value;
    flags := flag.v;
    U32Was(b, p);
    U8Was(b, xid.next);
    LsnWas(b, flag.next);
    LsnWas(b, lsn.next);
    I64Was(b, end.next);
    Was4(b, xid.next, flag.next, lsn.next, end.next, at.next, [flags], EncodeLsn(lsn.v), EncodeLsn(end.v), EncodeI64(at.v));
    WasJoin(b, p, xid.next, at.next, EncodeU32(xid.v), [flags] + (EncodeLsn(lsn.v) + (EncodeLsn(end.v) + EncodeI64(at.v))));
  }

  lemma StreamAbortWas(b: seq<Byte>, p: nat, parallel: bool)
    requires p <= |b| && ReadStreamAbort(b, p, parallel).Ok?
    ensures var r := ReadStreamAbort(b, p, parallel).value;
      WellFormed(r.v, false, parallel) && Was(b, p, r.next, EncodeOther(r.v, 0, parallel))
  {
    hide Was, ReadU32, ReadLsn, ReadI64, EncodeU32, EncodeLsn, EncodeI64;
    var xid := ReadU32(b, p).value;
    var sub := ReadU32(b, xid.next).value;
    U32Was(b, p);
    U32Was(b, xid.next);
    if parallel {
      var lsn := ReadLsn(b, sub.next).value;
      var at := ReadI64(b, lsn.next).value;
      LsnWas(b, sub.next);
      I64Was(b, lsn.next);
      Was4(b, p, xid.next, sub.next, lsn.next, at.next, EncodeU32(xid.v), EncodeU32(sub.v), EncodeLsn(lsn.v), EncodeI64(at.v));
    } else {
      WasJoin(b, p, xid.next, sub.next, EncodeU32(xid.v), EncodeU32(sub.v));
      assert EncodeU32(sub.v) + [] == EncodeU32(sub.v);
    }
  }

  lemma PreparedWas(b: seq<Byte>, p: nat)
    requires p <= |b| && ReadPrepared(b, p, false).Ok?
    ensures var r := ReadPrepared(b, p, false).value; GoodText(r.v.gid) && Was(b, p, r.next, EncodePrepared(r.v))
  {
    hide Was, ReadU32, ReadLsn, ReadI64, ReadText, EncodeU32, EncodeLsn, EncodeI64, EncodeText, GoodText;
    var lsn := ReadLsn(b, p).value;
    var end := ReadLsn(b, lsn.next).value;
    var at := ReadI64(b, end.next).value;
    var xid := ReadU32(b, at.next).value;
    var gid := ReadText(b, xid.next).value;
    LsnWas(b, p);
    LsnWas(b, lsn.next);
    I64Was(b, end.next);
    U32Was(b, at.next);
    TextWas(b, xid.next);
    var tail := EncodeU32(xid.v) + EncodeText(gid.v);
    WasJoin(b, at.next, xid.next, gid.next, EncodeU32(xid.v), EncodeText(gid.v));
    Was4(b, p, lsn.next, end.next, at.next, gid.next, EncodeLsn(lsn.v), EncodeLsn(end.v), EncodeI64(at.v), tail);
  }

  lemma FlaggedPreparedWas(b: seq<Byte>, p: nat) returns (flags: Byte)
    requires p <= |b| && ReadPrepared(b, p, true).Ok?
    ensures var r := ReadPrepared(b, p, true).value; GoodText(r.v.gid) && Was(b, p, r.next, [flags] + EncodePrepared(r.v))
  {
    var flag := ReadU8(b, p).value;
    flags := flag.v;
    U8Was(b, p);
    hide Was, ReadU8, ReadU32, ReadLsn, ReadI64, ReadText, EncodePrepared, GoodText;
    PreparedWas(b, flag.next);
    var r := ReadPrepared(b, flag.next, false).value;
    WasJoin(b, p, flag.next, r.next, [flags], EncodePrepared(r.v));
  }

  lemma RollbackWas(b: seq<Byte>, p: nat) returns (flags: Byte)
    requires p <= |b| && ReadRollback(b, p).Ok?
    ensures var r := ReadRollback(b, p).value; GoodText(r.v.gid) && Was(b, p, r.next, EncodeOther(r.v, flags, false))
  {
    hide Was, ReadU8, ReadU32, ReadLsn, ReadI64, ReadText, EncodeU32, EncodeLsn, EncodeI64, EncodeText, GoodText;
    var flag := ReadU8(b, p).value;
    var prepared := ReadLsn(b, flag.next).value;
    var rolled := ReadLsn(b, prepared.next).value;
    var at := ReadI64(b, rolled.next).value;
    var rolledAt := ReadI64(b, at.next).value;
    var xid := ReadU32(b, rolledAt.next).value;
    var gid := ReadText(b, xid.next).value;
    flags := flag.v;
    U8Was(b, p);
    LsnWas(b, flag.next);
    LsnWas(b, prepared.next);
    I64Was(b, rolled.next);
    I64Was(b, at.next);
    U32Was(b, rolledAt.next);
    TextWas(b, xid.next);
    var tail := EncodeI64(rolledAt.v) + (EncodeU32(xid.v) + EncodeText(gid.v));
    Was3(b, at.next, rolledAt.next, xid.next, gid.next, EncodeI64(rolledAt.v), EncodeU32(xid.v), EncodeText(gid.v));
    Was3(b, prepared.next, rolled.next, at.next, gid.next, EncodeLsn(rolled.v), EncodeI64(at.v), tail);
    Was3(b, p, flag.next, prepared.next, gid.next, [flags], EncodeLsn(prepared.v), EncodeLsn(rolled.v) + (EncodeI64(at.v) + tail));
  }

  // ------------------------------------------------------------- one frame

  ghost predicate IsChangeTag(tag: Byte) {
    tag == 77 || tag == 82 || tag == 89 || tag == 73 || tag == 85 || tag == 68 || tag == 84
  }

  /** The read of a change is its prefix and its fields. */
  lemma ChangeBodyWas(b: seq<Byte>, p: nat, tag: Byte, inStream: bool, parallel: bool) returns (flags: Byte)
    requires p <= |b| && IsChangeTag(tag) && ReadBody(b, p, tag, inStream, parallel).Ok?
    ensures var r := ReadBody(b, p, tag, inStream, parallel).value;
      && IsChange(r.v) && Tag(r.v) == tag && WellFormed(r.v, inStream, false) && FlagFits(r.v, flags)
      && Was(b, p, r.next, EncodeXid(r.v.xid) + EncodeChange(r.v, flags, inStream))
  {
    hide Was, ReadXid, EncodeXid, WellFormed, EncodeChange;
    hide ReadMessageRest, ReadRelationRest, ReadTypeDeclRest, ReadInsertRest, ReadUpdateRest, ReadDeleteRest, ReadTruncateRest;
    XidWas(b, p, inStream);
    var xid := ReadXid(b, p, inStream).value;
    var r := ReadBody(b, p, tag, inStream, parallel).value;
    flags := 0;
    if tag == 77 { flags := MessageWas(b, xid.next, xid.v); }
    else if tag == 82 { RelationWas(b, xid.next, xid.v); }
    else if tag == 89 { TypeDeclWas(b, xid.next, xid.v); }
    else if tag == 73 { InsertWas(b, xid.next, xid.v); }
    else if tag == 85 { UpdateWas(b, xid.next, xid.v); }
    else if tag == 68 { DeleteWas(b, xid.next, xid.v); }
    else { TruncateWas(b, xid.next, xid.v); }
    WasJoin(b, p, xid.next, r.next, EncodeXid(xid.v), EncodeChange(r.v, flags, inStream));
  }

  lemma OtherBodyWas(b: seq<Byte>, p: nat, tag: Byte, inStream: bool, parallel: bool) returns (flags: Byte)
    requires p <= |b| && !IsChangeTag(tag) && ReadBody(b, p, tag, inStream, parallel).Ok?
    ensures var r := ReadBody(b, p, tag, inStream, parallel).value;
      && !IsChange(r.v) && Tag(r.v) == tag && WellFormed(r.v, false, parallel) && FlagFits(r.v, flags)
      && Was(b, p, r.next, EncodeOther(r.v, flags, parallel))
  {
    hide ReadBegin, ReadCommit, ReadOrigin, ReadStreamStart, ReadStreamCommit, ReadStreamAbort, ReadPrepared, ReadRollback;
    hide EncodePrepared, EncodeLsn, EncodeI64, EncodeU32, EncodeText, GoodText;
    flags := 0;
    if tag == 66 { BeginWas(b, p); }
    else if tag == 67 { flags := CommitWas(b, p); }
    else if tag == 79 { OriginWas(b, p); }
    else if tag == 83 { flags := StreamStartWas(b, p); }
    else if tag == 69 { }
    else if tag == 99 { flags := StreamCommitWas(b, p); }
    else if tag == 65 { StreamAbortWas(b, p, parallel); }
    else if tag == 98 { PreparedWas(b, p); }
    else if tag == 80 || tag == 75 || tag == 112 { flags := FlaggedPreparedWas(b, p); }
    else { flags := RollbackWas(b, p); }
  }

  lemma SameWellFormed(m: Msg, inStream: bool, parallel: bool)
    ensures IsChange(m) ==> (WellFormed(m, inStream, parallel) <==> WellFormed(m, inStream, false))
    ensures !IsChange(m) ==> (WellFormed(m, inStream, parallel) <==> WellFormed(m, false, parallel))
  {
  }

  lemma BodyWas(b: seq<Byte>, p: nat, tag: Byte, inStream: bool, parallel: bool) returns (flags: Byte)
    requires p <= |b| && ReadBody(b, p, tag, inStream, parallel).Ok?
    ensures var r := ReadBody(b, p, tag, inStream, parallel).value;
      && Tag(r.v) == tag && WellFormed(r.v, inStream, parallel) && FlagFits(r.v, flags)
      && Was(b, p, r.next, EncodeBody(r.v, flags, inStream, parallel))
  {
    hide ReadBody, WellFormed, EncodeChange, EncodeOther, Was;
    SameWellFormed(ReadBody(b, p, tag, inStream, parallel).value.v, inStream, parallel);
    if IsChangeTag(tag) {
      flags := ChangeBodyWas(b, p, tag, inStream, parallel);
    } else {
      flags := OtherBodyWas(b, p, tag, inStream, parallel);
    }
  }

  /** Accepted exactly: a frame decodes to a message if and only if it is a layout of it. */
  lemma DecodesIffLaid(b: seq<Byte>, m: Msg, inStream: bool, parallel: bool)
    ensures DecodeFrame(b, inStream, parallel) == Ok(m) <==> Lays(b, m, inStream, parallel)
  {
    hide ReadBody, EncodeBody, WellFormed, FlagFits;
    if Lays(b, m, inStream, parallel) { DecodeLaid(b, m, inStream, parallel); }
    if DecodeFrame(b, inStream, parallel) == Ok(m) {
      U8Was(b, 0);
      var tag := ReadU8(b, 0).value;
      var flags := BodyWas(b, tag.next, tag.v, inStream, parallel);
      WasJoin(b, 0, tag.next, |b|, [tag.v], EncodeBody(m, flags, inStream, parallel));
      assert b[0..|b|] == b;
    }
  }

  /** The bracket before frame `i`, from what was decoded. */
  ghost function StateAt(out: seq<Result<Msg, DecodeError>>, inStream: bool, i: nat): bool
    requires i <= |out|
  {
    if i == 0 then inStream
    else
      var before := StateAt(out, inStream, i - 1);
      if out[i - 1].Ok? then BracketAfter(out[i - 1].value, before) else before
  }

  lemma {:induction false} StateTail(out: seq<Result<Msg, DecodeError>>, inStream: bool, i: nat)
    requires i < |out|
    ensures var r := out[0];
      StateAt(out[1..], if r.Ok? then BracketAfter(r.value, inStream) else inStream, i) == StateAt(out, inStream, i + 1)
  {
    if i > 0 { StateTail(out, inStream, i - 1); }
  }

  /** Over any frames, rejected ones among them: each is accepted as `m` exactly if it lays `m` out under the bracket then open. */
  lemma {:induction false} StreamDecodesIff(frames: seq<seq<Byte>>, inStream: bool, parallel: bool, i: nat, m: Msg)
    requires i < |frames|
    ensures var out := DecodeAll(frames, inStream, parallel);
      out[i] == Ok(m) <==> Lays(frames[i], m, StateAt(out, inStream, i), parallel)
  {
    hide DecodeFrame, Lays;
    var out := DecodeAll(frames, inStream, parallel);
    var r := out[0];
    if i == 0 {
      DecodesIffLaid(frames[0], m, inStream, parallel);
    } else {
      var next := if r.Ok? then BracketAfter(r.value, inStream) else inStream;
      StreamDecodesIff(frames[1..], next, parallel, i - 1, m);
      assert out[1..] == DecodeAll(frames[1..], next, parallel);
      StateTail(out, inStream, i - 1);
    }
  }
}
