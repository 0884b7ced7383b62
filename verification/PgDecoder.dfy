/**
The bounds-checked reader and the stateful decoder
(`crates/pgshard-repl/src/pgoutput.rs`), proved against the reads of `PgOutput`.
*/
module PgDecoder {
  import opened Wrappers
  import opened Bytes
  import opened Messages
  import opened PgOutput

  /** A reader did what the specified read does: same value, position and failure. */
  ghost predicate Did<T>(spec: Read<T>, r: Result<T, DecodeError>, pos: nat) {
    match spec
    case Ok(p) => r.Ok? && r.value == p.v && pos == p.next
    case Err(e) => r.Err? && r.error == e
  }

  /** A cursor over a frame. Every read advances within the buffer or fails. */
  class Reader {
    const buf: seq<Byte>
    var pos: nat

    ghost predicate Valid()
      reads this
    {
      pos <= |buf|
    }

    constructor(buf: seq<Byte>)
      ensures this.buf == buf && pos == 0 && Valid()
    {
      this.buf := buf;
      pos := 0;
    }

    method TakeBytes(n: nat) returns (r: Result<seq<Byte>, DecodeError>)
      requires Valid()
      modifies this
      ensures Valid() && Did(Take(buf, old(pos), n), r, pos)
    {
      if pos + n > |buf| {
        return Err(Truncated(pos, n));
      }
      var slice := buf[pos..pos + n];
      pos := pos + n;
      return Ok(slice);
    }

    method U8() returns (r: Result<Byte, DecodeError>)
      requires Valid()
      modifies this
      ensures Valid() && Did(ReadU8(buf, old(pos)), r, pos)
    {
      var s :- TakeBytes(1);
      return Ok(s[0]);
    }

    method I16() returns (r: Result<I16, DecodeError>)
      requires Valid()
      modifies this
      ensures Valid() && Did(ReadI16(buf, old(pos)), r, pos)
    {
      var s :- TakeBytes(2);
      Widths();
      return Ok(Signed(FromBe(s), 0x8000));
    }

    method U32() returns (r: Result<U32, DecodeError>)
      requires Valid()
      modifies this
      ensures Valid() && Did(ReadU32(buf, old(pos)), r, pos)
    {
      var s :- TakeBytes(4);
      Widths();
      return Ok(FromBe(s));
    }

    method I32() returns (r: Result<I32, DecodeError>)
      requires Valid()
      modifies this
      ensures Valid() && Did(ReadI32(buf, old(pos)), r, pos)
    {
      var s :- TakeBytes(4);
      Widths();
      return Ok(Signed(FromBe(s), 0x8000_0000));
    }

    method I64() returns (r: Result<I64, DecodeError>)
      requires Valid()
      modifies this
      ensures Valid() && Did(ReadI64(buf, old(pos)), r, pos)
    {
      var s :- TakeBytes(8);
      Widths();
      return Ok(Signed(FromBe(s), 0x8000_0000_0000_0000));
    }

    method Lsn() returns (r: Result<Lsn, DecodeError>)
      requires Valid()
      modifies this
      ensures Valid() && Did(ReadLsn(buf, old(pos)), r, pos)
    {
      var s :- TakeBytes(8);
      Widths();
      return Ok(FromBe(s));
    }

    method Cstr() returns (r: Result<Text, DecodeError>)
      requires Valid()
      modifies this
      ensures Valid() && Did(ReadText(buf, old(pos)), r, pos)
    {
      var nul := pos;
      while nul < |buf| && buf[nul] != 0
        invariant pos <= nul <= |buf|
        invariant Nul(buf, pos) == Nul(buf, nul)
      {
        nul := nul + 1;
      }
      if nul == |buf| {
        return Err(Truncated(pos, 1));
      }
      var text := buf[pos..nul];
      if !Utf8(text) {
        return Err(InvalidUtf8);
      }
      pos := nul + 1;
      return Ok(text);
    }

    method Sized() returns (r: Result<seq<Byte>, DecodeError>)
      requires Valid()
      modifies this
      ensures Valid() && Did(ReadSized(buf, old(pos)), r, pos)
    {
      hide ReadI32;
      var n :- I32();
      var len :- Count(n);
      r := TakeBytes(len);
    }

    method StreamXid(inStream: bool) returns (r: Result<Option<U32>, DecodeError>)
      requires Valid()
      modifies this
      ensures Valid() && Did(ReadXid(buf, old(pos), inStream), r, pos)
    {
      hide ReadU32;
      if inStream {
        var xid :- U32();
        return Ok(Some(xid));
      }
      return Ok(None);
    }

    method Column() returns (r: Result<TupleColumn, DecodeError>)
      requires Valid()
      modifies this
      ensures Valid() && Did(ReadColumn(buf, old(pos)), r, pos)
    {
      hide ReadU8, ReadSized;
      var kind :- U8();
      if kind == 110 {
        return Ok(NullColumn);
      } else if kind == 117 {
        return Ok(UnchangedToast);
      } else if kind == 116 {
        var s :- Sized();
        return Ok(TextColumn(s));
      } else if kind == 98 {
        var s :- Sized();
        return Ok(BinaryColumn(s));
      }
      return Err(UnknownTupleKind(kind));
    }

    method TupleData() returns (r: Result<Tuple, DecodeError>)
      requires Valid()
      modifies this
      ensures Valid() && Did(ReadTuple(buf, old(pos)), r, pos)
    {
      hide ReadI16, ReadColumn;
      var n :- I16();
      var len :- Count(n);
      var columns: Tuple := [];
      ghost var start := pos;
      for i := 0 to len
        invariant Valid()
        invariant Did(ReadMany(ColumnsOf(buf), start, i), Ok(columns), pos)
      {
        var column := Column();
        if column.Err? {
          ManyFails(ColumnsOf(buf), start, i + 1, len);
          return Err(column.error);
        }
        columns := columns + [column.value];
      }
      return Ok(columns);
    }

    method RelationColumn() returns (r: Result<RelationColumn, DecodeError>)
      requires Valid()
      modifies this
      ensures Valid() && Did(ReadRelationColumn(buf, old(pos)), r, pos)
    {
      hide ReadU8, ReadText, ReadU32, ReadI32;
      var flags :- U8();
      var name :- Cstr();
      var typeOid :- U32();
      var modifier :- I32();
      return Ok(Messages.RelationColumn(flags, name, typeOid, modifier));
    }

    method RelationColumns() returns (r: Result<seq<RelationColumn>, DecodeError>)
      requires Valid()
      modifies this
      ensures Valid() && Did(ReadRelationColumns(buf, old(pos)), r, pos)
    {
      hide ReadI16, ReadRelationColumn;
      var n :- I16();
      var len :- Count(n);
      var columns: seq<RelationColumn> := [];
      ghost var start := pos;
      for i := 0 to len
        invariant Valid()
        invariant Did(ReadMany(RelationColumnsOf(buf), start, i), Ok(columns), pos)
      {
        var column := RelationColumn();
        if column.Err? {
          ManyFails(RelationColumnsOf(buf), start, i + 1, len);
          return Err(column.error);
        }
        columns := columns + [column.value];
      }
      return Ok(columns);
    }

    method Oids(len: nat) returns (r: Result<seq<U32>, DecodeError>)
      requires Valid()
      modifies this
      ensures Valid() && Did(ReadMany(OidsOf(buf), old(pos), len), r, pos)
    {
      hide ReadU32;
      var oids: seq<U32> := [];
      ghost var start := pos;
      for i := 0 to len
        invariant Valid()
        invariant Did(ReadMany(OidsOf(buf), start, i), Ok(oids), pos)
      {
        var oid := U32();
        if oid.Err? {
          ManyFails(OidsOf(buf), start, i + 1, len);
          return Err(oid.error);
        }
        oids := oids + [oid.value];
      }
      return Ok(oids);
    }
  }

  /** Once an item fails, the whole list fails with its error. */
  lemma {:induction false} ManyFails<T>(at: nat -> Read<T>, p: nat, n: nat, len: nat)
    requires n <= len && ReadMany(at, p, n).Err?
    ensures ReadMany(at, p, len).Err? && ReadMany(at, p, len).error == ReadMany(at, p, n).error
    decreases len
  {
    if n < len { ManyFails(at, p, n, len - 1); }
  }

  method DecodeBegin(r: Reader) returns (out: Result<Msg, DecodeError>)
    requires r.Valid()
    modifies r
    ensures r.Valid() && Did(ReadBegin(r.buf, old(r.pos)), out, r.pos)
  {
    hide ReadLsn, ReadI64, ReadU32;
    var lsn :- r.Lsn();
    var at :- r.I64();
    var xid :- r.U32();
    return Ok(Begin(lsn, at, xid));
  }

  method DecodeMessage(r: Reader, inStream: bool) returns (out: Result<Msg, DecodeError>)
    requires r.Valid()
    modifies r
    ensures r.Valid() && Did(ReadMessage(r.buf, old(r.pos), inStream), out, r.pos)
  {
    hide ReadXid, ReadU8, ReadLsn, ReadText, ReadSized;
    var xid :- r.StreamXid(inStream);
    var flags :- r.U8();
    var lsn :- r.Lsn();
    var prefix :- r.Cstr();
    var content :- r.Sized();
    return Ok(Message(xid, flags % 2 == 1, lsn, prefix, content));
  }

  method DecodeCommit(r: Reader) returns (out: Result<Msg, DecodeError>)
    requires r.Valid()
    modifies r
    ensures r.Valid() && Did(ReadCommit(r.buf, old(r.pos)), out, r.pos)
  {
    hide ReadU8, ReadLsn, ReadI64;
    var _ :- r.U8();
    var lsn :- r.Lsn();
    var end :- r.Lsn();
    var at :- r.I64();
    return Ok(Commit(lsn, end, at));
  }

  method DecodeOrigin(r: Reader) returns (out: Result<Msg, DecodeError>)
    requires r.Valid()
    modifies r
    ensures r.Valid() && Did(ReadOrigin(r.buf, old(r.pos)), out, r.pos)
  {
    hide ReadLsn, ReadText;
    var lsn :- r.Lsn();
    var name :- r.Cstr();
    return Ok(Origin(lsn, name));
  }

  method DecodeRelation(r: Reader, inStream: bool) returns (out: Result<Msg, DecodeError>)
    requires r.Valid()
    modifies r
    ensures r.Valid() && Did(ReadRelation(r.buf, old(r.pos), inStream), out, r.pos)
  {
    hide ReadXid, ReadU32, ReadText, ReadU8, ReadRelationColumns;
    var xid :- r.StreamXid(inStream);
    var oid :- r.U32();
    var namespace :- r.Cstr();
    var name :- r.Cstr();
    var identity :- r.U8();
    var columns :- r.RelationColumns();
    return Ok(Relation(xid, oid, namespace, name, identity, columns));
  }

  method DecodeType(r: Reader, inStream: bool) returns (out: Result<Msg, DecodeError>)
    requires r.Valid()
    modifies r
    ensures r.Valid() && Did(ReadTypeDecl(r.buf, old(r.pos), inStream), out, r.pos)
  {
    hide ReadXid, ReadU32, ReadText;
    var xid :- r.StreamXid(inStream);
    var oid :- r.U32();
    var namespace :- r.Cstr();
    var name :- r.Cstr();
    return Ok(TypeDecl(xid, oid, namespace, name));
  }

  method DecodeInsert(r: Reader, inStream: bool) returns (out: Result<Msg, DecodeError>)
    requires r.Valid()
    modifies r
    ensures r.Valid() && Did(ReadInsert(r.buf, old(r.pos), inStream), out, r.pos)
  {
    hide ReadXid, ReadU32, ReadU8, ReadTuple;
    var xid :- r.StreamXid(inStream);
    var oid :- r.U32();
    var marker :- r.U8();
    if marker != 78 {
      return Err(UnexpectedTupleMarker(marker));
    }
    var t :- r.TupleData();
    return Ok(Insert(xid, oid, t));
  }

  method DecodeUpdate(r: Reader, inStream: bool) returns (out: Result<Msg, DecodeError>)
    requires r.Valid()
    modifies r
    ensures r.Valid() && Did(ReadUpdate(r.buf, old(r.pos), inStream), out, r.pos)
  {
    hide ReadXid, ReadU32, ReadU8, ReadTuple;
    var xid :- r.StreamXid(inStream);
    var oid :- r.U32();
    var key: Option<Tuple>, full: Option<Tuple> := None, None;
    var marker :- r.U8();
    if marker == 75 {
      var t :- r.TupleData();
      key := Some(t);
      marker :- r.U8();
    } else if marker == 79 {
      var t :- r.TupleData();
      full := Some(t);
      marker :- r.U8();
    }
    if marker != 78 {
      return Err(UnexpectedTupleMarker(marker));
    }
    var t :- r.TupleData();
    return Ok(Update(xid, oid, key, full, t));
  }

  method DecodeDelete(r: Reader, inStream: bool) returns (out: Result<Msg, DecodeError>)
    requires r.Valid()
    modifies r
    ensures r.Valid() && Did(ReadDelete(r.buf, old(r.pos), inStream), out, r.pos)
  {
    hide ReadXid, ReadU32, ReadU8, ReadTuple;
    var xid :- r.StreamXid(inStream);
    var oid :- r.U32();
    var marker :- r.U8();
    if marker == 75 {
      var t :- r.TupleData();
      return Ok(Delete(xid, oid, Some(t), None));
    } else if marker == 79 {
      var t :- r.TupleData();
      return Ok(Delete(xid, oid, None, Some(t)));
    }
    return Err(UnexpectedTupleMarker(marker));
  }

  method DecodeTruncate(r: Reader, inStream: bool) returns (out: Result<Msg, DecodeError>)
    requires r.Valid()
    modifies r
    ensures r.Valid() && Did(ReadTruncate(r.buf, old(r.pos), inStream), out, r.pos)
  {
    hide ReadXid, ReadI32, ReadU8, ReadU32;
    var xid :- r.StreamXid(inStream);
    var n :- r.I32();
    var len :- Count(n);
    var options :- r.U8();
    var oids :- r.Oids(len);
    return Ok(Truncate(xid, options, oids));
  }

  method DecodeStreamStart(r: Reader) returns (out: Result<Msg, DecodeError>)
    requires r.Valid()
    modifies r
    ensures r.Valid() && Did(ReadStreamStart(r.buf, old(r.pos)), out, r.pos)
  {
    hide ReadU32, ReadU8;
    var xid :- r.U32();
    var first :- r.U8();
    return Ok(StreamStart(xid, first != 0));
  }

  method DecodeStreamCommit(r: Reader) returns (out: Result<Msg, DecodeError>)
    requires r.Valid()
    modifies r
    ensures r.Valid() && Did(ReadStreamCommit(r.buf, old(r.pos)), out, r.pos)
  {
    hide ReadU32, ReadU8, ReadLsn, ReadI64;
    var xid :- r.U32();
    var _ :- r.U8();
    var lsn :- r.Lsn();
    var end :- r.Lsn();
    var at :- r.I64();
    return Ok(StreamCommit(xid, lsn, end, at));
  }

  method DecodeStreamAbort(r: Reader, parallel: bool) returns (out: Result<Msg, DecodeError>)
    requires r.Valid()
    modifies r
    ensures r.Valid() && Did(ReadStreamAbort(r.buf, old(r.pos), parallel), out, r.pos)
  {
    hide ReadU32, ReadLsn, ReadI64;
    var xid :- r.U32();
    var sub :- r.U32();
    if parallel {
      var lsn :- r.Lsn();
      var at :- r.I64();
      return Ok(StreamAbort(xid, sub, Some(lsn), Some(at)));
    }
    return Ok(StreamAbort(xid, sub, None, None));
  }

  method DecodePrepared(r: Reader, hasFlags: bool) returns (out: Result<PreparedTxn, DecodeError>)
    requires r.Valid()
    modifies r
    ensures r.Valid() && Did(ReadPrepared(r.buf, old(r.pos), hasFlags), out, r.pos)
  {
    hide ReadU8, ReadLsn, ReadI64, ReadU32, ReadText;
    if hasFlags {
      var _ :- r.U8();
    }
    var lsn :- r.Lsn();
    var end :- r.Lsn();
    var at :- r.I64();
    var xid :- r.U32();
    var gid :- r.Cstr();
    return Ok(PreparedTxn(lsn, end, at, xid, gid));
  }

  method DecodeRollback(r: Reader) returns (out: Result<Msg, DecodeError>)
    requires r.Valid()
    modifies r
    ensures r.Valid() && Did(ReadRollback(r.buf, old(r.pos)), out, r.pos)
  {
    hide ReadU8, ReadLsn, ReadI64, ReadU32, ReadText;
    var _ :- r.U8();
    var prepared :- r.Lsn();
    var rolled :- r.Lsn();
    var at :- r.I64();
    var rolledAt :- r.I64();
    var xid :- r.U32();
    var gid :- r.Cstr();
    return Ok(RollbackPrepared(prepared, rolled, at, rolledAt, xid, gid));
  }

  datatype StreamMode = Off | On | Parallel

  /** Decodes frames one after the other, tracking the streamed-transaction bracket. */
  class Decoder {
    const protocolVersion: U32
    const streamMode: StreamMode
    var inStream: bool

    constructor(protocolVersion: U32, streamMode: StreamMode)
      ensures !inStream && this.streamMode == streamMode && this.protocolVersion == protocolVersion
    {
      this.protocolVersion := protocolVersion;
      this.streamMode := streamMode;
      inStream := false;
    }

    /** One frame: its message, and the bracket moved only if the whole frame is accepted. */
    method Decode(bytes: seq<Byte>) returns (out: Result<Msg, DecodeError>)
      modifies this
      ensures out == DecodeFrame(bytes, old(inStream), streamMode.Parallel?)
      ensures out.Ok? ==> inStream == BracketAfter(out.value, old(inStream))
      ensures out.Err? ==> inStream == old(inStream)
    {
      hide ReadBody;
      var r := new Reader(bytes);
      var tag :- r.U8();
      var msg :- this.Body(r, tag);
      if r.pos != |bytes| {
        return Err(TrailingBytes(|bytes| - r.pos));
      }
      if msg.StreamStart? {
        inStream := true;
      } else if msg.StreamStop? {
        inStream := false;
      }
      return Ok(msg);
    }

    method Body(r: Reader, tag: Byte) returns (out: Result<Msg, DecodeError>)
      requires r.Valid()
      modifies r
      ensures r.Valid() && Did(ReadBody(r.buf, old(r.pos), tag, inStream, streamMode.Parallel?), out, r.pos)
    {
      hide ReadBegin, ReadMessage, ReadCommit, ReadOrigin, ReadRelation, ReadTypeDecl, ReadInsert, ReadUpdate, ReadDelete;
      hide ReadTruncate, ReadStreamStart, ReadStreamCommit, ReadStreamAbort, ReadPrepared, ReadRollback;
      match tag
      case 66 => out := DecodeBegin(r);
      case 77 => out := DecodeMessage(r, inStream);
      case 67 => out := DecodeCommit(r);
      case 79 => out := DecodeOrigin(r);
      case 82 => out := DecodeRelation(r, inStream);
      case 89 => out := DecodeType(r, inStream);
      case 73 => out := DecodeInsert(r, inStream);
      case 85 => out := DecodeUpdate(r, inStream);
      case 68 => out := DecodeDelete(r, inStream);
      case 84 => out := DecodeTruncate(r, inStream);
      case 83 => out := DecodeStreamStart(r);
      case 69 => out := Ok(StreamStop);
      case 99 => out := DecodeStreamCommit(r);
      case 65 => out := DecodeStreamAbort(r, streamMode.Parallel?);
      case 98 =>
        var t :- DecodePrepared(r, false);
        out := Ok(BeginPrepare(t));
      case 80 =>
        var t :- DecodePrepared(r, true);
        out := Ok(Prepare(t));
      case 75 =>
        var t :- DecodePrepared(r, true);
        out := Ok(CommitPrepared(t));
      case 112 =>
        var t :- DecodePrepared(r, true);
        out := Ok(StreamPrepare(t));
      case 114 => out := DecodeRollback(r);
      case _ => out := Err(UnknownMessage(tag));
    }
  }
}
