/**
Shard-key values and their coercion to the column's declared type
(`crates/pgshard-core/src/shardfn.rs`). The hash itself is a parameter wherever
a keyspace id is needed.
*/
module Scalar {
  import opened Wrappers
  import opened Bytes

  const I64_MIN: int := -0x8000_0000_0000_0000
  const I64_TOP: int := 0x8000_0000_0000_0000

  /** Text is its UTF-8 bytes. */
  datatype ScalarValue =
    | Int16(i: int)
    | Int32(i: int)
    | Int64(i: int)
    | Text(s: seq<Byte>)
    | Uuid(b: seq<Byte>)
    | Bytea(b: seq<Byte>)

  datatype ScalarType = IntType | TextType | UuidType | ByteaType

  // ------------------------------------------------------------- trimming

  // The characters of Unicode White_Space, by the length of their UTF-8 encoding.

  predicate Space1(a: Byte) {
    9 <= a <= 13 || a == 32
  }

  predicate Space2(a: Byte, b: Byte) {
    a == 0xC2 && (b == 0x85 || b == 0xA0)
  }

  predicate Space3(a: Byte, b: Byte, c: Byte) {
    || (a == 0xE1 && b == 0x9A && c == 0x80)
    || (a == 0xE2 && b == 0x80 && (0x80 <= c <= 0x8A || c == 0xA8 || c == 0xA9 || c == 0xAF))
    || (a == 0xE2 && b == 0x81 && c == 0x9F)
    || (a == 0xE3 && b == 0x80 && c == 0x80)
  }

  /** Length of the white-space character at the front of `s`, or 0. */
  function SpaceAt(s: seq<Byte>): (n: nat)
    ensures n <= |s|
  {
    if |s| >= 1 && Space1(s[0]) then 1
    else if |s| >= 2 && Space2(s[0], s[1]) then 2
    else if |s| >= 3 && Space3(s[0], s[1], s[2]) then 3
    else 0
  }

  /** Length of the white-space character at the end of `s`, or 0. */
  function SpaceBefore(s: seq<Byte>): (n: nat)
    ensures n <= |s|
  {
    var n := |s|;
    if n >= 1 && Space1(s[n - 1]) then 1
    else if n >= 2 && Space2(s[n - 2], s[n - 1]) then 2
    else if n >= 3 && Space3(s[n - 3], s[n - 2], s[n - 1]) then 3
    else 0
  }

  function TrimStart(s: seq<Byte>): seq<Byte> {
    if SpaceAt(s) == 0 then s else TrimStart(s[SpaceAt(s)..])
  }

  function TrimEnd(s: seq<Byte>): seq<Byte> {
    if SpaceBefore(s) == 0 then s else TrimEnd(s[..|s| - SpaceBefore(s)])
  }

  function Trim(s: seq<Byte>): seq<Byte> {
    TrimEnd(TrimStart(s))
  }

  // ------------------------------------------------------------- coercions

  predicate IsDigit(b: Byte) {
    48 <= b <= 57
  }

  predicate AllDigits(s: seq<Byte>) {
    forall i | 0 <= i < |s| :: IsDigit(s[i])
  }

  function DigitValue(b: Byte): (v: nat)
    requires IsDigit(b)
    ensures v < 10
  {
    (b as int) - 48
  }

  function DecimalValue(s: seq<Byte>): nat
    requires AllDigits(s)
  {
    if s == [] then 0 else 10 * DecimalValue(s[..|s| - 1]) + DigitValue(s[|s| - 1])
  }

  /** An optional sign and at least one digit, in the 64-bit range. */
  function CoerceInt(s: seq<Byte>): (r: Option<int>)
    ensures r.Some? ==> I64_MIN <= r.value < I64_TOP
  {
    var t := Trim(s);
    var negative := t != [] && t[0] == 45;
    var digits := if t != [] && (t[0] == 45 || t[0] == 43) then t[1..] else t;
    if digits == [] || !AllDigits(digits) then None
    else
      var magnitude: int := DecimalValue(digits);
      var v := if negative then -magnitude else magnitude;
      if I64_MIN <= v < I64_TOP then Some(v) else None
  }

  predicate IsHex(b: Byte) {
    48 <= b <= 57 || 97 <= b <= 102 || 65 <= b <= 70
  }

  predicate AllHex(s: seq<Byte>) {
    forall i | 0 <= i < |s| :: IsHex(s[i])
  }

  function HexVal(b: Byte): (v: nat)
    requires IsHex(b)
    ensures v < 16
  {
    if b <= 57 then (b as int) - 48 else if b >= 97 then (b as int) - 87 else (b as int) - 55
  }

  function HexBytes(s: seq<Byte>): (r: seq<Byte>)
    requires |s| % 2 == 0 && AllHex(s)
    ensures |r| == |s| / 2
  {
    if s == [] then [] else [16 * HexVal(s[0]) + HexVal(s[1])] + HexBytes(s[2..])
  }

  function WithoutHyphens(s: seq<Byte>): seq<Byte> {
    if s == [] then [] else (if s[0] == 45 then [] else [s[0]]) + WithoutHyphens(s[1..])
  }

  /** Optional braces, hyphens anywhere, 32 hex digits of either case. */
  function CoerceUuid(s: seq<Byte>): (r: Option<seq<Byte>>)
    ensures r.Some? ==> |r.value| == 16
  {
    var t := Trim(s);
    var open, close := t != [] && t[0] == 123, t != [] && t[|t| - 1] == 125;
    if open != close then None
    else
      var hex := WithoutHyphens(if open then t[1..|t| - 1] else t);
      if |hex| != 32 || !AllHex(hex) then None else Some(HexBytes(hex))
  }

  /** The hex format only: `\x` and an even number of digits. */
  function CoerceBytea(s: seq<Byte>): Option<seq<Byte>> {
    if |s| < 2 || s[0] != 92 || s[1] != 120 then None
    else
      var hex := s[2..];
      if |hex| % 2 != 0 || !AllHex(hex) then None else Some(HexBytes(hex))
  }

  /** `None` when the literal is not a value of the type. */
  function Coerce(t: ScalarType, v: ScalarValue): Option<ScalarValue> {
    match (t, v)
    case (IntType, Int16(i)) => Some(Int64(i))
    case (IntType, Int32(i)) => Some(Int64(i))
    case (IntType, Int64(i)) => Some(Int64(i))
    case (IntType, Text(s)) => var i := CoerceInt(s); if i.Some? then Some(Int64(i.value)) else None
    case (TextType, Text(s)) => Some(Text(s))
    case (UuidType, Text(s)) => var b := CoerceUuid(s); if b.Some? then Some(Uuid(b.value)) else None
    case (UuidType, Uuid(b)) => Some(Uuid(b))
    case (ByteaType, Text(s)) => var b := CoerceBytea(s); if b.Some? then Some(Bytea(b.value)) else None
    case (ByteaType, Bytea(b)) => Some(Bytea(b))
    case _ => None
  }

  /** A coerced value is canonical: coercing it again changes nothing. */
  lemma CoerceIdempotent(t: ScalarType, v: ScalarValue)
    requires Coerce(t, v).Some?
    ensures Coerce(t, Coerce(t, v).value) == Coerce(t, v)
  {
  }

  // ------------------------------------------- spellings of the same integer

  /** The decimal text of a natural number. */
  function Decimal(n: nat): (s: seq<Byte>)
    ensures s != [] && forall i | 0 <= i < |s| :: IsDigit(s[i])
  {
    if n < 10 then [48 + n] else Decimal(n / 10) + [48 + n % 10]
  }

  /** The output text of a 64-bit integer column. */
  function IntText(v: int): seq<Byte> {
    if v < 0 then [45] + Decimal(-v) else Decimal(v)
  }

  lemma {:induction false} DecimalValueOfDecimal(n: nat)
    ensures DecimalValue(Decimal(n)) == n
  {
    var s := Decimal(n);
    if n >= 10 {
      DecimalValueOfDecimal(n / 10);
      assert s[..|s| - 1] == Decimal(n / 10);
    } else {
      assert s[..0] == [];
      assert DecimalValue([]) == 0;
    }
  }

  lemma TrimOfVisible(s: seq<Byte>)
    requires s != [] && (s[0] == 45 || IsDigit(s[0])) && IsDigit(s[|s| - 1])
    ensures Trim(s) == s
  {
    assert SpaceAt(s) == 0;
    assert SpaceBefore(s) == 0;
  }

  lemma {:induction false} CoerceIntOfDecimal(negative: bool, n: nat)
    requires I64_MIN <= (if negative then -(n as int) else n) < I64_TOP
    ensures CoerceInt((if negative then [45] else []) + Decimal(n)) == Some(if negative then -(n as int) else n)
  {
    var digits := Decimal(n);
    var s := (if negative then [45] else []) + digits;
    assert s[|s| - 1] == digits[|digits| - 1];
    TrimOfVisible(s);
    DecimalValueOfDecimal(n);
    assert (if negative then s[1..] else s) == digits;
  }

  /** The text of an integer coerces to the same canonical value as the integer, at every width. */
  lemma IntSpellingsAgree(v: int)
    requires I64_MIN <= v < I64_TOP
    ensures Coerce(IntType, Text(IntText(v))) == Some(Int64(v))
    ensures Coerce(IntType, Int16(v)) == Coerce(IntType, Int32(v)) == Coerce(IntType, Int64(v)) == Some(Int64(v))
  {
    CoerceIntOfDecimal(v < 0, if v < 0 then -v else v);
    assert [] + Decimal(if v < 0 then -v else v) == Decimal(if v < 0 then -v else v);
  }
}
