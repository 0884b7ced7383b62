/** The decoded `pgoutput` messages (`crates/pgshard-repl/src/pgoutput.rs`). */
module Messages {
  import opened Wrappers
  import opened Bytes
  import opened Keyspace

  type U32 = n: nat | n < 0x1_0000_0000
  type I16 = n: int | -0x8000 <= n < 0x8000
  type I32 = n: int | -0x8000_0000 <= n < 0x8000_0000
  type I64 = n: int | -0x8000_0000_0000_0000 <= n < 0x8000_0000_0000_0000

  type Lsn = U64
  type Text = seq<Byte>

  datatype TupleColumn =
    | NullColumn
    | UnchangedToast
    | TextColumn(bytes: seq<Byte>)
    | BinaryColumn(bytes: seq<Byte>)

  type Tuple = seq<TupleColumn>

  datatype RelationColumn = RelationColumn(flags: Byte, name: Text, typeOid: U32, typeModifier: I32) {
    predicate IsKey() {
      flags % 2 == 1
    }
  }

  datatype PreparedTxn = PreparedTxn(lsn: Lsn, endLsn: Lsn, timestamp: I64, xid: U32, gid: Text)

  datatype Msg =
    | Begin(finalLsn: Lsn, commitTimestamp: I64, beginXid: U32)
    | Message(xid: Option<U32>, transactional: bool, lsn: Lsn, prefix: Text, content: seq<Byte>)
    | Commit(commitLsn: Lsn, endLsn: Lsn, commitTimestamp: I64)
    | Origin(originLsn: Lsn, name: Text)
    | Relation(xid: Option<U32>, oid: U32, namespace: Text, name: Text, replicaIdentity: Byte, columns: seq<RelationColumn>)
    | TypeDecl(xid: Option<U32>, oid: U32, namespace: Text, name: Text)
    | Insert(xid: Option<U32>, relOid: U32, newTuple: Tuple)
    | Update(xid: Option<U32>, relOid: U32, key: Option<Tuple>, oldTuple: Option<Tuple>, newTuple: Tuple)
    | Delete(xid: Option<U32>, relOid: U32, key: Option<Tuple>, oldTuple: Option<Tuple>)
    | Truncate(xid: Option<U32>, options: Byte, relations: seq<U32>)
    | StreamStart(streamXid: U32, firstSegment: bool)
    | StreamStop
    | StreamCommit(streamXid: U32, commitLsn: Lsn, endLsn: Lsn, commitTimestamp: I64)
    | StreamAbort(streamXid: U32, subXid: U32, abortLsn: Option<Lsn>, abortTimestamp: Option<I64>)
    | BeginPrepare(txn: PreparedTxn)
    | Prepare(txn: PreparedTxn)
    | CommitPrepared(txn: PreparedTxn)
    | StreamPrepare(txn: PreparedTxn)
    | RollbackPrepared(preparedEndLsn: Lsn, rollbackEndLsn: Lsn, prepareTimestamp: I64, rollbackTimestamp: I64,
                       rollbackXid: U32, gid: Text)
}
