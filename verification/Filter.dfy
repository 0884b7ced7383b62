/**
The keep-or-skip decision shared by the snapshot copy and the stream
(`crates/pgshard-repl/src/filter.rs`).
*/
module Filter {
  import opened Wrappers
  import opened Bytes
  import opened Keyspace
  import Scalar
  import M = Messages

  datatype FilterError =
    | ColumnOutOfRange(index: nat, len: nat)
    | UnroutableCell
    | BinaryCell
    | InvalidUtf8
    | Uncoercible(value: seq<Byte>, ty: Scalar.ScalarType)

  /** A shard function: any total map from canonical values to keyspace ids. */
  type ShardFn = Scalar.ScalarValue -> U64

  function TextKeyspaceId(text: seq<Byte>, ty: Scalar.ScalarType, hash: ShardFn): Result<U64, FilterError> {
    var canonical := Scalar.Coerce(ty, Scalar.Text(text));
    if canonical.None? then Err(Uncoercible(text, ty)) else Ok(hash(canonical.value))
  }

  /** Bytes that must first prove to be UTF-8. */
  function BytesKeyspaceId(bytes: seq<Byte>, ty: Scalar.ScalarType, hash: ShardFn): Result<U64, FilterError> {
    if !Utf8(bytes) then Err(InvalidUtf8) else TextKeyspaceId(bytes, ty, hash)
  }

  function CellKeyspaceId(cell: M.TupleColumn, ty: Scalar.ScalarType, hash: ShardFn): Result<U64, FilterError> {
    match cell
    case TextColumn(bytes) => BytesKeyspaceId(bytes, ty, hash)
    case BinaryColumn(_) => Err(BinaryCell)
    case NullColumn => Err(UnroutableCell)
    case UnchangedToast => Err(UnroutableCell)
  }

  function TupleInRange(tuple: M.Tuple, index: nat, ty: Scalar.ScalarType, hash: ShardFn, range: KeyRange): Result<bool, FilterError> {
    if index >= |tuple| then Err(ColumnOutOfRange(index, |tuple|))
    else
      var id := CellKeyspaceId(tuple[index], ty, hash);
      if id.Err? then Err(id.error) else Ok(range.Contains(id.value))
  }
}
