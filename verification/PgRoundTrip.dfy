/**
Decoding inverts the standard `pgoutput` layout, frame by frame and over whole
sequences of frames (`crates/pgshard-repl/src/pgoutput.rs`).
*/
module PgRoundTrip {
  import opened Wrappers
  import opened Bytes
  import opened Messages
  import opened PgOutput

  // ------------------------------------------------------- message by message

  lemma BeginAt(b: seq<Byte>, p: nat, m: Msg, flags: Byte)
    requires m.Begin? && At(b, p, EncodeOther(m, flags, false))
    ensures Reads(ReadBegin(b, p), m, p + |EncodeOther(m, flags, false)|)
  {
    var tail := EncodeI64(m.commitTimestamp) + EncodeU32(m.beginXid);
    AtSplit(b, p, EncodeLsn(m.finalLsn), tail);
    AtSplit(b, p + 8, EncodeI64(m.commitTimestamp), EncodeU32(m.beginXid));
    LsnAt(b, p, m.finalLsn);
    I64At(b, p + 8, m.commitTimestamp);
    U32At(b, p + 16, m.beginXid);
  }

  lemma MessageReads(b: seq<Byte>, q: nat, xid: Option<U32>, flag: Byte, lsn: Lsn, prefix: Text, content: seq<Byte>, s: nat, u: nat)
    requires q + 9 <= |b| && s <= |b|
    requires Reads(ReadU8(b, q), flag, q + 1) && Reads(ReadLsn(b, q + 1), lsn, q + 9)
    requires Reads(ReadText(b, q + 9), prefix, s) && Reads(ReadSized(b, s), content, u)
    ensures Reads(ReadMessageRest(b, q, xid), Message(xid, flag % 2 == 1, lsn, prefix, content), u)
  {
  }

  lemma MessageAt(b: seq<Byte>, q: nat, m: Msg, flags: Byte, inStream: bool)
    requires m.Message? && FlagFits(m, flags) && WellFormed(m, inStream, false) && At(b, q, EncodeChange(m, flags, inStream))
    ensures Reads(ReadMessageRest(b, q, m.xid), m, q + |EncodeChange(m, flags, inStream)|)
  {
    hide EncodeSized, ReadMessageRest, ReadText, ReadSized, ReadLsn, ReadU8, Utf8;
    var e4 := EncodeText(m.prefix) + EncodeSized(m.content);
    var e3 := EncodeLsn(m.lsn) + e4;
    AtSplit(b, q, [flags], e3);
    AtSplit(b, q + 1, EncodeLsn(m.lsn), e4);
    AtSplit(b, q + 9, EncodeText(m.prefix), EncodeSized(m.content));
    U8At(b, q, flags);
    LsnAt(b, q + 1, m.lsn);
    TextAt(b, q + 9, m.prefix);
    var s := q + 9 + |m.prefix| + 1;
    SizedAt(b, s, m.content);
    MessageReads(b, q, m.xid, flags, m.lsn, m.prefix, m.content, s, s + |EncodeSized(m.content)|);
  }

  lemma CommitAt(b: seq<Byte>, p: nat, m: Msg, flags: Byte)
    requires m.Commit? && At(b, p, EncodeOther(m, flags, false))
    ensures Reads(ReadCommit(b, p), m, p + |EncodeOther(m, flags, false)|)
  {
    var e3 := EncodeLsn(m.endLsn) + EncodeI64(m.commitTimestamp);
    AtSplit(b, p, [flags], EncodeLsn(m.commitLsn) + e3);
    AtSplit(b, p + 1, EncodeLsn(m.commitLsn), e3);
    AtSplit(b, p + 9, EncodeLsn(m.endLsn), EncodeI64(m.commitTimestamp));
    U8At(b, p, flags);
    LsnAt(b, p + 1, m.commitLsn);
    LsnAt(b, p + 9, m.endLsn);
    I64At(b, p + 17, m.commitTimestamp);
  }

  lemma OriginAt(b: seq<Byte>, p: nat, m: Msg, flags: Byte)
    requires m.Origin? && GoodText(m.name) && At(b, p, EncodeOther(m, flags, false))
    ensures Reads(ReadOrigin(b, p), m, p + |EncodeOther(m, flags, false)|)
  {
    AtSplit(b, p, EncodeLsn(m.originLsn), EncodeText(m.name));
    LsnAt(b, p, m.originLsn);
    TextAt(b, p + 8, m.name);
  }

  lemma RelationTailReads(b: seq<Byte>, s: nat, m: Msg, u: nat, end: nat)
    requires m.Relation? && s <= |b| && u + 1 <= |b| && end <= |b|
    requires Reads(ReadText(b, s), m.name, u) && Reads(ReadU8(b, u), m.replicaIdentity, u + 1)
    requires Reads(ReadRelationColumns(b, u + 1), m.columns, end)
    ensures Reads(ReadRelationTail(b, s, m.xid, m.oid, m.namespace), m, end)
  {
  }

  lemma RelationReads(b: seq<Byte>, q: nat, m: Msg, s: nat, end: nat)
    requires m.Relation? && q + 4 <= |b| && s <= |b| && end <= |b|
    requires Reads(ReadU32(b, q), m.oid, q + 4) && Reads(ReadText(b, q + 4), m.namespace, s)
    requires Reads(ReadRelationTail(b, s, m.xid, m.oid, m.namespace), m, end)
    ensures Reads(ReadRelationRest(b, q, m.xid), m, end)
  {
  }

  lemma RelationSplit(b: seq<Byte>, q: nat, e1: seq<Byte>, e2: seq<Byte>, e3: seq<Byte>, e4: seq<Byte>, e5: seq<Byte>, e6: seq<Byte>)
    requires At(b, q, e1 + (e2 + (e3 + (e4 + (e5 + e6)))))
    ensures At(b, q, e1) && At(b, q + |e1|, e2) && At(b, q + |e1| + |e2|, e3) && At(b, q + |e1| + |e2| + |e3|, e4)
    ensures At(b, q + |e1| + |e2| + |e3| + |e4|, e5) && At(b, q + |e1| + |e2| + |e3| + |e4| + |e5|, e6)
  {
    AtSplit(b, q, e1, e2 + (e3 + (e4 + (e5 + e6))));
    AtSplit(b, q + |e1|, e2, e3 + (e4 + (e5 + e6)));
    AtSplit(b, q + |e1| + |e2|, e3, e4 + (e5 + e6));
    AtSplit(b, q + |e1| + |e2| + |e3|, e4, e5 + e6);
    AtSplit(b, q + |e1| + |e2| + |e3| + |e4|, e5, e6);
  }

  lemma RelationTailAt(b: seq<Byte>, s: nat, m: Msg)
    requires m.Relation? && GoodText(m.name) && |m.columns| < 0x8000
    requires forall i | 0 <= i < |m.columns| :: GoodText(m.columns[i].name)
    requires var u := s + |m.name| + 1;
      && At(b, s, EncodeText(m.name)) && At(b, u, [m.replicaIdentity])
      && At(b, u + 1, EncodeI16(|m.columns|)) && At(b, u + 3, EncodeRelationColumns(m.columns))
    ensures Reads(ReadRelationTail(b, s, m.xid, m.oid, m.namespace), m, s + |m.name| + 4 + |EncodeRelationColumns(m.columns)|)
  {
    var u := s + |m.name| + 1;
    TextAt(b, s, m.name);
    U8At(b, u, m.replicaIdentity);
    RelationColumnListAt(b, u + 1, m.columns);
    RelationTailReads(b, s, m, u, u + 3 + |EncodeRelationColumns(m.columns)|);
  }

  lemma RelationAt(b: seq<Byte>, q: nat, m: Msg, flags: Byte, inStream: bool)
    requires m.Relation? && WellFormed(m, inStream, false) && At(b, q, EncodeChange(m, flags, inStream))
    ensures Reads(ReadRelationRest(b, q, m.xid), m, q + |EncodeChange(m, flags, inStream)|)
  {
    hide EncodeRelationColumns, ReadRelationRest, ReadRelationTail, ReadText, ReadU32, Utf8;
    RelationSplit(b, q, EncodeU32(m.oid), EncodeText(m.namespace), EncodeText(m.name), [m.replicaIdentity],
                  EncodeI16(|m.columns|), EncodeRelationColumns(m.columns));
    var s := q + 4 + |m.namespace| + 1;
    U32At(b, q, m.oid);
    TextAt(b, q + 4, m.namespace);
    RelationTailAt(b, s, m);
    RelationReads(b, q, m, s, s + |m.name| + 4 + |EncodeRelationColumns(m.columns)|);
  }

  lemma TypeDeclReads(b: seq<Byte>, q: nat, m: Msg, s: nat, end: nat)
    requires m.TypeDecl? && q + 4 <= |b| && s <= |b| && end <= |b|
    requires Reads(ReadU32(b, q), m.oid, q + 4) && Reads(ReadText(b, q + 4), m.namespace, s)
    requires Reads(ReadText(b, s), m.name, end)
    ensures Reads(ReadTypeDeclRest(b, q, m.xid), m, end)
  {
  }

  lemma TypeDeclAt(b: seq<Byte>, q: nat, m: Msg, flags: Byte, inStream: bool)
    requires m.TypeDecl? && WellFormed(m, inStream, false) && At(b, q, EncodeChange(m, flags, inStream))
    ensures Reads(ReadTypeDeclRest(b, q, m.xid), m, q + |EncodeChange(m, flags, inStream)|)
  {
    var id, first, second := EncodeU32(m.oid), EncodeText(m.namespace), EncodeText(m.name);
    AtSplit(b, q, id, first + second);
    AtSplit(b, q + 4, first, second);
    U32At(b, q, m.oid);
    TextAt(b, q + 4, m.namespace);
    var s := q + 4 + |m.namespace| + 1;
    TextAt(b, s, m.name);
    TypeDeclReads(b, q, m, s, s + |m.name| + 1);
  }

  lemma InsertAt(b: seq<Byte>, q: nat, m: Msg, flags: Byte, inStream: bool)
    requires m.Insert? && WellFormed(m, inStream, false) && At(b, q, EncodeChange(m, flags, inStream))
    ensures Reads(ReadInsertRest(b, q, m.xid), m, q + |EncodeChange(m, flags, inStream)|)
  {
    var e3 := [78] + EncodeTuple(m.newTuple);
    AtSplit(b, q, EncodeU32(m.relOid), e3);
    AtSplit(b, q + 4, [78], EncodeTuple(m.newTuple));
    U32At(b, q, m.relOid);
    U8At(b, q + 4, 78);
    TupleAt(b, q + 5, m.newTuple);
  }

  function ImageOf(tag: Byte, t: Tuple): OldImage {
    if tag == 75 then OldImage(Some(t), None, 78) else OldImage(None, Some(t), 78)
  }

  lemma ImageReads(b: seq<Byte>, p: nat, tag: Byte, t: Tuple, q: nat)
    requires (tag == 75 || tag == 79) && p + 1 <= |b| && q <= |b|
    requires Reads(ReadU8(b, p), tag, p + 1) && Reads(ReadTuple(b, p + 1), t, q) && Reads(ReadU8(b, q), 78, q + 1)
    ensures Reads(ReadOldImage(b, p), ImageOf(tag, t), q + 1)
  {
  }

  lemma SomeImageAt(b: seq<Byte>, p: nat, tag: Byte, t: Tuple)
    requires (tag == 75 || tag == 79) && GoodTuple(t)
    requires At(b, p, [tag] + EncodeTuple(t)) && At(b, p + 1 + |EncodeTuple(t)|, [78])
    ensures Reads(ReadOldImage(b, p), ImageOf(tag, t), p + 2 + |EncodeTuple(t)|)
  {
    hide EncodeTuple, ReadTuple, ReadU8, ReadOldImage, GoodTuple;
    AtSplit(b, p, [tag], EncodeTuple(t));
    U8At(b, p, tag);
    TupleAt(b, p + 1, t);
    U8At(b, p + 1 + |EncodeTuple(t)|, 78);
    ImageReads(b, p, tag, t, p + 1 + |EncodeTuple(t)|);
  }

  lemma OldImageAt(b: seq<Byte>, p: nat, key: Option<Tuple>, full: Option<Tuple>)
    requires GoodOld(key, full) && At(b, p, EncodeOld(key, full) + [78])
    ensures Reads(ReadOldImage(b, p), OldImage(key, full, 78), p + |EncodeOld(key, full)| + 1)
  {
    AtSplit(b, p, EncodeOld(key, full), [78]);
    if key.Some? {
      SomeImageAt(b, p, 75, key.value);
    } else if full.Some? {
      SomeImageAt(b, p, 79, full.value);
    } else {
      U8At(b, p, 78);
    }
  }

  lemma UpdateReads(b: seq<Byte>, q: nat, m: Msg, s: nat, end: nat)
    requires m.Update? && q + 4 <= |b| && s <= |b| && end <= |b|
    requires Reads(ReadU32(b, q), m.relOid, q + 4)
    requires Reads(ReadOldImage(b, q + 4), OldImage(m.key, m.oldTuple, 78), s)
    requires Reads(ReadTuple(b, s), m.newTuple, end)
    ensures Reads(ReadUpdateRest(b, q, m.xid), m, end)
  {
  }

  lemma UpdateSplit(b: seq<Byte>, q: nat, id: seq<Byte>, before: seq<Byte>, after: seq<Byte>)
    requires At(b, q, id + (before + ([78] + after)))
    ensures At(b, q, id) && At(b, q + |id|, before + [78]) && At(b, q + |id| + |before| + 1, after)
  {
    AtSplit(b, q, id, before + ([78] + after));
    assert before + ([78] + after) == (before + [78]) + after;
    AtSplit(b, q + |id|, before + [78], after);
  }

  lemma UpdateAt(b: seq<Byte>, q: nat, m: Msg, flags: Byte, inStream: bool)
    requires m.Update? && WellFormed(m, inStream, false) && At(b, q, EncodeChange(m, flags, inStream))
    ensures Reads(ReadUpdateRest(b, q, m.xid), m, q + |EncodeChange(m, flags, inStream)|)
  {
    hide EncodeTuple, EncodeOld, ReadUpdateRest, ReadTuple, ReadOldImage, ReadU32;
    var id, before, after := EncodeU32(m.relOid), EncodeOld(m.key, m.oldTuple), EncodeTuple(m.newTuple);
    UpdateSplit(b, q, id, before, after);
    U32At(b, q, m.relOid);
    OldImageAt(b, q + 4, m.key, m.oldTuple);
    var s := q + 4 + |before| + 1;
    TupleAt(b, s, m.newTuple);
    UpdateReads(b, q, m, s, s + |after|);
  }

  lemma DeleteAt(b: seq<Byte>, q: nat, m: Msg, flags: Byte, inStream: bool)
    requires m.Delete? && WellFormed(m, inStream, false) && At(b, q, EncodeChange(m, flags, inStream))
    ensures Reads(ReadDeleteRest(b, q, m.xid), m, q + |EncodeChange(m, flags, inStream)|)
  {
    hide EncodeTuple, ReadTuple, ReadU32, ReadU8;
    var tag, t := if m.key.Some? then 75 else 79, if m.key.Some? then m.key.value else m.oldTuple.value;
    var e3 := [tag] + EncodeTuple(t);
    assert e3 == EncodeOld(m.key, m.oldTuple);
    AtSplit(b, q, EncodeU32(m.relOid), e3);
    AtSplit(b, q + 4, [tag], EncodeTuple(t));
    U32At(b, q, m.relOid);
    U8At(b, q + 4, tag);
    TupleAt(b, q + 5, t);
  }

  lemma TruncateAt(b: seq<Byte>, q: nat, m: Msg, flags: Byte, inStream: bool)
    requires m.Truncate? && WellFormed(m, inStream, false) && At(b, q, EncodeChange(m, flags, inStream))
    ensures Reads(ReadTruncateRest(b, q, m.xid), m, q + |EncodeChange(m, flags, inStream)|)
  {
    var e3 := [m.options] + EncodeOids(m.relations);
    AtSplit(b, q, EncodeI32(|m.relations|), e3);
    AtSplit(b, q + 4, [m.options], EncodeOids(m.relations));
    I32At(b, q, |m.relations|);
    U8At(b, q + 4, m.options);
    OidsAt(b, q + 5, m.relations);
  }

  lemma StreamStartAt(b: seq<Byte>, p: nat, m: Msg, flags: Byte)
    requires m.StreamStart? && FlagFits(m, flags) && At(b, p, EncodeOther(m, flags, false))
    ensures Reads(ReadStreamStart(b, p), m, p + |EncodeOther(m, flags, false)|)
  {
    AtSplit(b, p, EncodeU32(m.streamXid), [flags]);
    U32At(b, p, m.streamXid);
    U8At(b, p + 4, flags);
  }

  lemma StreamCommitAt(b: seq<Byte>, p: nat, m: Msg, flags: Byte)
    requires m.StreamCommit? && At(b, p, EncodeOther(m, flags, false))
    ensures Reads(ReadStreamCommit(b, p), m, p + |EncodeOther(m, flags, false)|)
  {
    var e4 := EncodeLsn(m.endLsn) + EncodeI64(m.commitTimestamp);
    var e3 := EncodeLsn(m.commitLsn) + e4;
    AtSplit(b, p, EncodeU32(m.streamXid), [flags] + e3);
    AtSplit(b, p + 4, [flags], e3);
    AtSplit(b, p + 5, EncodeLsn(m.commitLsn), e4);
    AtSplit(b, p + 13, EncodeLsn(m.endLsn), EncodeI64(m.commitTimestamp));
    U32At(b, p, m.streamXid);
    U8At(b, p + 4, flags);
    LsnAt(b, p + 5, m.commitLsn);
    LsnAt(b, p + 13, m.endLsn);
    I64At(b, p + 21, m.commitTimestamp);
  }

  lemma StreamAbortAt(b: seq<Byte>, p: nat, m: Msg, flags: Byte, parallel: bool)
    requires m.StreamAbort? && WellFormed(m, false, parallel) && At(b, p, EncodeOther(m, flags, parallel))
    ensures Reads(ReadStreamAbort(b, p, parallel), m, p + |EncodeOther(m, flags, parallel)|)
  {
    var tail := if parallel then EncodeLsn(m.abortLsn.value) + EncodeI64(m.abortTimestamp.value) else [];
    AtSplit(b, p, EncodeU32(m.streamXid), EncodeU32(m.subXid) + tail);
    AtSplit(b, p + 4, EncodeU32(m.subXid), tail);
    U32At(b, p, m.streamXid);
    U32At(b, p + 4, m.subXid);
    if parallel {
      AtSplit(b, p + 8, EncodeLsn(m.abortLsn.value), EncodeI64(m.abortTimestamp.value));
      LsnAt(b, p + 8, m.abortLsn.value);
      I64At(b, p + 16, m.abortTimestamp.value);
    }
  }

  lemma RollbackAt(b: seq<Byte>, p: nat, m: Msg, flags: Byte)
    requires m.RollbackPrepared? && GoodText(m.gid) && At(b, p, EncodeOther(m, flags, false))
    ensures Reads(ReadRollback(b, p), m, p + |EncodeOther(m, flags, false)|)
  {
    var e6 := EncodeU32(m.rollbackXid) + EncodeText(m.gid);
    var e5 := EncodeI64(m.rollbackTimestamp) + e6;
    var e4 := EncodeI64(m.prepareTimestamp) + e5;
    var e3 := EncodeLsn(m.rollbackEndLsn) + e4;
    AtSplit(b, p, [flags], EncodeLsn(m.preparedEndLsn) + e3);
    AtSplit(b, p + 1, EncodeLsn(m.preparedEndLsn), e3);
    AtSplit(b, p + 9, EncodeLsn(m.rollbackEndLsn), e4);
    AtSplit(b, p + 17, EncodeI64(m.prepareTimestamp), e5);
    AtSplit(b, p + 25, EncodeI64(m.rollbackTimestamp), e6);
    AtSplit(b, p + 33, EncodeU32(m.rollbackXid), EncodeText(m.gid));
    U8At(b, p, flags);
    LsnAt(b, p + 1, m.preparedEndLsn);
    LsnAt(b, p + 9, m.rollbackEndLsn);
    I64At(b, p + 17, m.prepareTimestamp);
    I64At(b, p + 25, m.rollbackTimestamp);
    U32At(b, p + 33, m.rollbackXid);
    TextAt(b, p + 37, m.gid);
  }

  // ------------------------------------------------------------- one frame

  lemma ChangeBodyAt(b: seq<Byte>, q: nat, m: Msg, flags: Byte, inStream: bool, p: nat)
    requires IsChange(m) && FlagFits(m, flags) && WellFormed(m, inStream, false) && At(b, q, EncodeChange(m, flags, inStream))
    requires p <= |b| && Reads(ReadXid(b, p, inStream), m.xid, q)
    ensures Reads(ReadBody(b, p, Tag(m), inStream, false), m, q + |EncodeChange(m, flags, inStream)|)
    ensures Reads(ReadBody(b, p, Tag(m), inStream, true), m, q + |EncodeChange(m, flags, inStream)|)
  {
    hide ReadMessageRest, ReadRelationRest, ReadTypeDeclRest, ReadInsertRest, ReadUpdateRest, ReadDeleteRest, ReadTruncateRest;
    hide EncodeChange, WellFormed, ReadXid;
    match m
    case Message(_, _, _, _, _) => MessageAt(b, q, m, flags, inStream);
    case Relation(_, _, _, _, _, _) => RelationAt(b, q, m, flags, inStream);
    case TypeDecl(_, _, _, _) => TypeDeclAt(b, q, m, flags, inStream);
    case Insert(_, _, _) => InsertAt(b, q, m, flags, inStream);
    case Update(_, _, _, _, _) => UpdateAt(b, q, m, flags, inStream);
    case Delete(_, _, _, _) => DeleteAt(b, q, m, flags, inStream);
    case Truncate(_, _, _) => TruncateAt(b, q, m, flags, inStream);
  }

  lemma OtherBodyAt(b: seq<Byte>, p: nat, m: Msg, flags: Byte, inStream: bool, parallel: bool)
    requires !IsChange(m) && FlagFits(m, flags) && WellFormed(m, false, parallel) && At(b, p, EncodeOther(m, flags, parallel))
    ensures Reads(ReadBody(b, p, Tag(m), inStream, parallel), m, p + |EncodeOther(m, flags, parallel)|)
  {
    hide ReadBegin, ReadCommit, ReadOrigin, ReadStreamStart, ReadStreamCommit, ReadStreamAbort, ReadPrepared, ReadRollback;
    hide EncodePrepared, EncodeLsn, EncodeI64, EncodeU32, EncodeText, GoodText;
    match m
    case Begin(_, _, _) => BeginAt(b, p, m, flags);
    case Commit(_, _, _) => CommitAt(b, p, m, flags);
    case Origin(_, _) => OriginAt(b, p, m, flags);
    case StreamStart(_, _) => StreamStartAt(b, p, m, flags);
    case StreamStop =>
    case StreamCommit(_, _, _, _) => StreamCommitAt(b, p, m, flags);
    case StreamAbort(_, _, _, _) => StreamAbortAt(b, p, m, flags, parallel);
    case BeginPrepare(t) => PreparedAt(b, p, t);
    case Prepare(t) => FlaggedPreparedAt(b, p, t, flags);
    case CommitPrepared(t) => FlaggedPreparedAt(b, p, t, flags);
    case StreamPrepare(t) => FlaggedPreparedAt(b, p, t, flags);
    case RollbackPrepared(_, _, _, _, _, _) => RollbackAt(b, p, m, flags);
  }

  lemma BodyAt(b: seq<Byte>, p: nat, m: Msg, flags: Byte, inStream: bool, parallel: bool)
    requires WellFormed(m, inStream, parallel) && FlagFits(m, flags) && At(b, p, EncodeBody(m, flags, inStream, parallel))
    ensures Reads(ReadBody(b, p, Tag(m), inStream, parallel), m, p + |EncodeBody(m, flags, inStream, parallel)|)
  {
    hide ReadBody, EncodeChange, EncodeOther;
    if IsChange(m) {
      AtSplit(b, p, EncodeXid(m.xid), EncodeChange(m, flags, inStream));
      XidAt(b, p, m.xid);
      ChangeBodyAt(b, p + |EncodeXid(m.xid)|, m, flags, inStream, p);
    } else {
      OtherBodyAt(b, p, m, flags, inStream, parallel);
    }
  }

  lemma FrameReads(b: seq<Byte>, tag: Byte, m: Msg, inStream: bool, parallel: bool)
    requires Reads(ReadU8(b, 0), tag, 1) && 1 <= |b|
    requires Reads(ReadBody(b, 1, tag, inStream, parallel), m, |b|)
    ensures DecodeFrame(b, inStream, parallel).Ok? && DecodeFrame(b, inStream, parallel).value == m
  {
  }

  /** Decoding an encoded message returns it, inside or outside a streamed transaction. */
  lemma DecodeEncode(m: Msg, flags: Byte, inStream: bool, parallel: bool)
    requires WellFormed(m, inStream, parallel) && FlagFits(m, flags)
    ensures DecodeFrame(EncodeMsg(m, flags, inStream, parallel), inStream, parallel).Ok?
    ensures DecodeFrame(EncodeMsg(m, flags, inStream, parallel), inStream, parallel).value == m
  {
    hide ReadBody, EncodeBody, DecodeFrame, WellFormed;
    var b := EncodeMsg(m, flags, inStream, parallel);
    assert At(b, 0, [Tag(m)] + EncodeBody(m, flags, inStream, parallel));
    AtSplit(b, 0, [Tag(m)], EncodeBody(m, flags, inStream, parallel));
    U8At(b, 0, Tag(m));
    BodyAt(b, 1, m, flags, inStream, parallel);
    FrameReads(b, Tag(m), m, inStream, parallel);
  }

  lemma DecodeLaid(frame: seq<Byte>, m: Msg, inStream: bool, parallel: bool)
    requires Lays(frame, m, inStream, parallel)
    ensures DecodeFrame(frame, inStream, parallel).Ok? && DecodeFrame(frame, inStream, parallel).value == m
  {
    hide DecodeFrame, WellFormed, FlagFits, EncodeMsg;
    var flags :| FlagFits(m, flags) && frame == EncodeMsg(m, flags, inStream, parallel);
    DecodeEncode(m, flags, inStream, parallel);
  }

  // ------------------------------------------------------ sequences of frames

  /** The decoder over frames: each frame's result, with the bracket state carried along. */
  function DecodeAll(frames: seq<seq<Byte>>, inStream: bool, parallel: bool): (out: seq<Result<Msg, DecodeError>>)
    ensures |out| == |frames|
  {
    if frames == [] then []
    else
      var r := DecodeFrame(frames[0], inStream, parallel);
      [r] + DecodeAll(frames[1..], if r.Ok? then BracketAfter(r.value, inStream) else inStream, parallel)
  }

  /** The bracket state before message `i` of a sequence. */
  function Bracket(msgs: seq<Msg>, inStream: bool, i: nat): bool
    requires i <= |msgs|
  {
    if i == 0 then inStream else BracketAfter(msgs[i - 1], Bracket(msgs, inStream, i - 1))
  }

  ghost predicate Encoded(frames: seq<seq<Byte>>, msgs: seq<Msg>, inStream: bool, parallel: bool) {
    && |frames| == |msgs|
    && forall i | 0 <= i < |msgs| :: Lays(frames[i], msgs[i], Bracket(msgs, inStream, i), parallel)
  }

  lemma {:induction false} BracketTail(msgs: seq<Msg>, inStream: bool, i: nat)
    requires i < |msgs|
    ensures Bracket(msgs[1..], BracketAfter(msgs[0], inStream), i) == Bracket(msgs, inStream, i + 1)
  {
    if i > 0 { BracketTail(msgs, inStream, i - 1); }
  }

  /** Every sequence of well-formed messages decodes to itself. */
  lemma {:induction false} DecodeAllEncoded(frames: seq<seq<Byte>>, msgs: seq<Msg>, inStream: bool, parallel: bool)
    requires Encoded(frames, msgs, inStream, parallel)
    ensures forall i | 0 <= i < |msgs| ::
      DecodeAll(frames, inStream, parallel)[i].Ok? && DecodeAll(frames, inStream, parallel)[i].value == msgs[i]
  {
    hide Lays, DecodeFrame;
    if msgs != [] {
      assert Bracket(msgs, inStream, 0) == inStream;
      DecodeLaid(frames[0], msgs[0], inStream, parallel);
      var next := BracketAfter(msgs[0], inStream);
      assert Encoded(frames[1..], msgs[1..], next, parallel) by {
        forall i | 0 <= i < |msgs| - 1
          ensures Lays(frames[1..][i], msgs[1..][i], Bracket(msgs[1..], next, i), parallel)
        {
          BracketTail(msgs, inStream, i);
          assert Lays(frames[i + 1], msgs[i + 1], Bracket(msgs, inStream, i + 1), parallel);
        }
      }
      DecodeAllEncoded(frames[1..], msgs[1..], next, parallel);
      var out := DecodeAll(frames, inStream, parallel);
      forall i | 0 <= i < |msgs| ensures out[i].Ok? && out[i].value == msgs[i] {
        if i > 0 {
          assert msgs[i] == msgs[1..][i - 1] && out[i] == DecodeAll(frames[1..], next, parallel)[i - 1];
        }
      }
    }
  }

  // -------------------------------------------------- the prefix and the bracket

  /** The last stream marker accepted before frame `i` is a start. */
  ghost predicate Between(out: seq<Result<Msg, DecodeError>>, inStream: bool, i: nat)
    requires i <= |out|
  {
    if i == 0 then inStream
    else if out[i - 1].Ok? && out[i - 1].value.StreamStart? then true
    else if out[i - 1].Ok? && out[i - 1].value.StreamStop? then false
    else Between(out, inStream, i - 1)
  }

  lemma PrefixIffInStream(b: seq<Byte>, inStream: bool, parallel: bool)
    requires DecodeFrame(b, inStream, parallel).Ok?
    ensures var m := DecodeFrame(b, inStream, parallel).value;
      IsChange(m) ==> (m.xid.Some? <==> inStream)
  {
    hide ReadBody;
  }

  lemma {:induction false} BetweenTail(out: seq<Result<Msg, DecodeError>>, inStream: bool, i: nat)
    requires i < |out|
    ensures var r := out[0];
      Between(out[1..], if r.Ok? then BracketAfter(r.value, inStream) else inStream, i) == Between(out, inStream, i + 1)
  {
    if i > 0 { BetweenTail(out, inStream, i - 1); }
  }

  /**
  On any frames at all, rejected ones included, an accepted change carries a
  transaction id exactly when the last stream marker accepted before it is a start.
  */
  lemma {:induction false} PrefixExactlyInStream(frames: seq<seq<Byte>>, inStream: bool, parallel: bool, i: nat)
    requires i < |frames|
    ensures var out := DecodeAll(frames, inStream, parallel);
      out[i].Ok? && IsChange(out[i].value) ==> (out[i].value.xid.Some? <==> Between(out, inStream, i))
  {
    hide DecodeFrame;
    var out := DecodeAll(frames, inStream, parallel);
    var r := out[0];
    if i == 0 {
      if r.Ok? { PrefixIffInStream(frames[0], inStream, parallel); }
    } else {
      var next := if r.Ok? then BracketAfter(r.value, inStream) else inStream;
      PrefixExactlyInStream(frames[1..], next, parallel, i - 1);
      assert out[1..] == DecodeAll(frames[1..], next, parallel);
      BetweenTail(out, inStream, i - 1);
    }
  }
}
