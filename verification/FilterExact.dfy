/**
Which rows the filter keeps, said on the bytes of the row and on the range
(`crates/pgshard-repl/src/filter.rs`).
*/
module FilterExact {
  import opened Wrappers
  import opened Bytes
  import opened Keyspace
  import opened Scalar
  import opened ScalarText
  import opened Filter
  import Unicode
  import M = Messages

  /** The bytes spell the key `v` of a column of the type. */
  ghost predicate Spells(ty: ScalarType, bytes: seq<Byte>, v: ScalarValue) {
    match ty
    case IntType => v.Int64? && I64_MIN <= v.i < I64_TOP && IntPadded(bytes, v.i)
    case TextType => v == Text(bytes)
    case UuidType => v.Uuid? && UuidPadded(bytes, v.b)
    case ByteaType => v.Bytea? && |bytes| >= 2 && bytes[..2] == [92, 120] && HexText(bytes[2..], v.b)
  }

  lemma SpellsIff(ty: ScalarType, bytes: seq<Byte>, v: ScalarValue)
    ensures Coerce(ty, Text(bytes)) == Some(v) <==> Spells(ty, bytes, v)
  {
    hide IntPadded, UuidPadded, HexText, CoerceInt, CoerceUuid, CoerceBytea;
    match ty
    case IntType => if v.Int64? { IntTextIff(bytes, v.i); }
    case TextType =>
    case UuidType => if v.Uuid? { UuidTextIff(bytes, v.b); }
    case ByteaType => if v.Bytea? { ByteaTextIff(bytes, v.b); }
  }

  /** The key column of the row is sent as text, in UTF-8, and spells the key `v`. */
  ghost predicate HasKey(tuple: M.Tuple, index: nat, ty: ScalarType, v: ScalarValue) {
    && index < |tuple| && tuple[index].TextColumn? && Spells(ty, tuple[index].bytes, v)
    && exists cs :: Unicode.AllScalar(cs) && tuple[index].bytes == Unicode.EncodeAll(cs)
  }

  /**
  A row is kept exactly if its key column spells a key whose id lies in the range, skipped exactly
  if it spells one outside it, and refused exactly if it spells none.
  */
  lemma KeptIff(tuple: M.Tuple, index: nat, ty: ScalarType, hash: ShardFn, range: KeyRange)
    ensures var r := TupleInRange(tuple, index, ty, hash, range);
      && (r == Ok(true) <==> exists v :: HasKey(tuple, index, ty, v) && range.start <= hash(v) < range.EndExclusive())
      && (r == Ok(false) <==> exists v :: HasKey(tuple, index, ty, v) && !(range.start <= hash(v) < range.EndExclusive()))
      && (r.Err? <==> forall v :: !HasKey(tuple, index, ty, v))
  {
    hide Coerce, Spells, Utf8;
    if index < |tuple| && tuple[index].TextColumn? {
      var bytes := tuple[index].bytes;
      Unicode.Utf8Iff(bytes);
      forall v ensures Coerce(ty, Text(bytes)) == Some(v) <==> Spells(ty, bytes, v) { SpellsIff(ty, bytes, v); }
    }
  }
}
