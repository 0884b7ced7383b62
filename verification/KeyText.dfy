/**
The text form of key-range bounds and key ranges: trimmed big-endian hex
(`crates/pgshard-core/src/keyspace.rs`, `crates/pgshard-topo/src/model.rs`).
*/
module KeyText {
  import opened Wrappers
  import opened Keyspace

  const HEX: string := "0123456789abcdef"

  predicate IsLowerHex(c: char) {
    '0' <= c <= '9' || 'a' <= c <= 'f'
  }

  function HexDigit(d: nat): (c: char)
    requires d < 16
    ensures IsLowerHex(c) && DigitValue(c) == d
  {
    HEX[d]
  }

  function DigitValue(c: char): (d: nat)
    requires IsLowerHex(c)
    ensures d < 16 && HEX[d] == c
  {
    if c <= '9' then (c as int) - ('0' as int) else (c as int) - ('a' as int) + 10
  }

  function Pow16(n: nat): (p: nat)
    ensures p > 0
  {
    if n == 0 then 1 else 16 * Pow16(n - 1)
  }

  /** `v` in exactly `digits` hex digits, most significant first. */
  function Hex(v: nat, digits: nat): (s: string)
    ensures |s| == digits && forall c | c in s :: IsLowerHex(c)
  {
    if digits == 0 then "" else Hex(v / 16, digits - 1) + [HexDigit(v % 16)]
  }

  ghost predicate AllHex(s: string) {
    forall c | c in s :: IsLowerHex(c)
  }

  /** The number a string of hex digits denotes. */
  function HexValue(s: string): nat
    requires AllHex(s)
  {
    if s == "" then 0 else 16 * HexValue(s[..|s| - 1]) + DigitValue(s[|s| - 1])
  }

  predicate EndsInZeroByte(s: string) {
    |s| >= 2 && s[|s| - 1] == '0' && s[|s| - 2] == '0'
  }

  /** Drops the two-character unit "00" from the end as often as it occurs there. */
  function TrimZeroBytes(s: string): (t: string)
    ensures t <= s && |t| % 2 == |s| % 2
    ensures !EndsInZeroByte(t)
  {
    if EndsInZeroByte(s) then TrimZeroBytes(s[..|s| - 2]) else s
  }

  function FormatBound(v: U64): string {
    if v == 0 then "" else TrimZeroBytes(Hex(v, 16))
  }

  predicate LowerHexOnly(s: string) {
    forall i | 0 <= i < |s| :: IsLowerHex(s[i])
  }

  function ParseBound(s: string): (r: Result<U64, KeyRangeError>)
    ensures r.Ok? <==> |s| % 2 == 0 && |s| <= 16 && AllHex(s)
    ensures r.Err? ==> r.error == InvalidBound(s)
  {
    if s == "" then Ok(0)
    else if |s| % 2 != 0 || |s| > 16 || !LowerHexOnly(s) then Err(InvalidBound(s))
    else
      HexValueBound(s);
      ShiftBound(HexValue(s), |s|, 16 - |s|);
      TopIsPow16();
      Ok(ShiftLeft(HexValue(s), 16 - |s|))
  }

  lemma {:induction false} HexValueBound(s: string)
    requires AllHex(s)
    ensures HexValue(s) < Pow16(|s|)
  {
    if s != "" { HexValueBound(s[..|s| - 1]); }
  }

  /** `x << (4 * k)`. */
  function ShiftLeft(x: nat, k: nat): nat {
    if k == 0 then x else 16 * ShiftLeft(x, k - 1)
  }

  lemma {:induction false} ShiftBound(x: nat, n: nat, k: nat)
    requires x < Pow16(n)
    ensures ShiftLeft(x, k) < Pow16(n + k)
  {
    if k > 0 { ShiftBound(x, n, k - 1); }
  }

  lemma {:induction false} ShiftTwice(x: nat, k: nat)
    ensures ShiftLeft(16 * (16 * x), k) == ShiftLeft(x, k + 2)
  {
    if k == 0 {
      assert ShiftLeft(x, 2) == 16 * ShiftLeft(x, 1);
    } else {
      ShiftTwice(x, k - 1);
    }
  }

  lemma {:induction false} ShiftZero(k: nat)
    ensures ShiftLeft(0, k) == 0
  {
    if k > 0 { ShiftZero(k - 1); }
  }

  lemma TopIsPow16()
    ensures Pow16(16) == TOP
  {
    assert Pow16(4) == 0x1_0000;
    assert Pow16(8) == 0x1_0000_0000;
    assert Pow16(12) == 0x1_0000_0000_0000;
  }

  lemma {:induction false} HexValueOfHex(v: nat, digits: nat)
    requires v < Pow16(digits)
    ensures HexValue(Hex(v, digits)) == v
  {
    if digits > 0 {
      HexValueOfHex(v / 16, digits - 1);
      var s := Hex(v, digits);
      assert s[..|s| - 1] == Hex(v / 16, digits - 1);
    }
  }

  lemma DivMod16(x: nat, d: nat)
    requires d < 16
    ensures (16 * x + d) / 16 == x && (16 * x + d) % 16 == d
  {
  }

  lemma {:induction false} HexOfHexValue(s: string)
    requires AllHex(s)
    ensures Hex(HexValue(s), |s|) == s
  {
    if s != "" {
      var init, d := s[..|s| - 1], DigitValue(s[|s| - 1]);
      HexOfHexValue(init);
      HexSnoc(HexValue(init), |init|, d);
      assert s == init + [s[|s| - 1]];
    }
  }

  lemma HexSnoc(x: nat, n: nat, d: nat)
    requires d < 16
    ensures Hex(16 * x + d, n + 1) == Hex(x, n) + [HexDigit(d)]
  {
    DivMod16(x, d);
  }

  /** The 64-bit value a left-aligned digit string stands for. */
  ghost function Aligned(s: string): nat
    requires AllHex(s) && |s| <= 16
  {
    ShiftLeft(HexValue(s), 16 - |s|)
  }

  lemma TrimOneByteKeepsValue(s: string)
    requires AllHex(s) && |s| <= 16 && EndsInZeroByte(s)
    ensures Aligned(s[..|s| - 2]) == Aligned(s)
  {
    var t := s[..|s| - 2];
    assert s[..|s| - 1][..|s| - 2] == t;
    assert DigitValue('0') == 0;
    assert HexValue(s) == 16 * (16 * HexValue(t));
    ShiftTwice(HexValue(t), 16 - |s|);
  }

  lemma {:induction false} TrimKeepsValue(s: string)
    requires AllHex(s) && |s| <= 16
    ensures Aligned(TrimZeroBytes(s)) == Aligned(s)
  {
    if EndsInZeroByte(s) {
      TrimOneByteKeepsValue(s);
      TrimKeepsValue(s[..|s| - 2]);
    }
  }

  /** Printing a bound and parsing it back gives the bound. */
  lemma ParseFormatBound(v: U64)
    ensures ParseBound(FormatBound(v)) == Ok(v)
  {
    if v != 0 {
      var full := Hex(v, 16);
      TopIsPow16();
      HexValueOfHex(v, 16);
      TrimKeepsValue(full);
      assert AllHex(TrimZeroBytes(full));
      assert Aligned(full) == v;
      ShiftZero(16);
    }
  }

  /** A digit string with no trailing zero byte is the printed form of its value. */
  lemma FormatParseBound(s: string)
    requires AllHex(s) && |s| % 2 == 0 && |s| <= 16 && !EndsInZeroByte(s)
    ensures ParseBound(s).Ok? && FormatBound(ParseBound(s).value) == s
  {
    if s != "" {
      var v := ParseBound(s).value;
      var padded := PadZeroBytes(s, 16);
      PadKeepsValue(s, 16);
      HexOfHexValue(padded);
      assert Aligned(padded) == HexValue(padded);
      assert Hex(v, 16) == padded;
      TrimOfPad(s, 16);
      HexOfZero(16);
      assert padded[|s| - 1] == s[|s| - 1] && padded[|s| - 2] == s[|s| - 2];
    }
  }

  lemma {:induction false} HexOfZero(n: nat)
    ensures forall i | 0 <= i < n :: Hex(0, n)[i] == '0'
  {
    if n > 0 { HexOfZero(n - 1); }
  }

  ghost function PadZeroBytes(s: string, n: nat): (t: string)
    requires |s| % 2 == 0 && n % 2 == 0 && |s| <= n
    ensures |t| == n && s <= t
    ensures AllHex(s) ==> AllHex(t)
    decreases n - |s|
  {
    if |s| == n then s else PadZeroBytes(s + "00", n)
  }

  lemma {:induction false} PadKeepsValue(s: string, n: nat)
    requires AllHex(s) && |s| % 2 == 0 && n % 2 == 0 && |s| <= n <= 16
    ensures AllHex(PadZeroBytes(s, n)) && Aligned(PadZeroBytes(s, n)) == Aligned(s)
    decreases n - |s|
  {
    if |s| < n {
      var t := s + "00";
      assert t[..|t| - 2] == s;
      TrimOneByteKeepsValue(t);
      PadKeepsValue(t, n);
    }
  }

  lemma {:induction false} TrimOfPad(s: string, n: nat)
    requires |s| % 2 == 0 && n % 2 == 0 && |s| <= n
    ensures TrimZeroBytes(PadZeroBytes(s, n)) == TrimZeroBytes(s)
    decreases n - |s|
  {
    if |s| < n {
      var t := s + "00";
      TrimOfPad(t, n);
      assert t[..|t| - 2] == s;
    }
  }

  /** A text parses to `v` exactly if it is whole bytes of lower-case hex and, filled up with zero bytes, the sixteen digits of `v`. */
  lemma ParseBoundIff(s: string, v: U64)
    ensures ParseBound(s) == Ok(v) <==> |s| % 2 == 0 && |s| <= 16 && AllHex(s) && PadZeroBytes(s, 16) == Hex(v, 16)
  {
    if |s| % 2 == 0 && |s| <= 16 && AllHex(s) {
      var padded := PadZeroBytes(s, 16);
      PadKeepsValue(s, 16);
      HexOfHexValue(padded);
      ShiftZero(16);
      assert ParseBound(s) == Ok(Aligned(s)) && Aligned(padded) == HexValue(padded);
      TopIsPow16();
      HexValueOfHex(v, 16);
    }
  }

  // ------------------------------------------------------ canonical bounds

  datatype CanonicalError = Unparsable(error: KeyRangeError) | Noncanonical(got: string, expected: string)

  function CanonicalBound(s: string): Result<U64, CanonicalError> {
    var parsed := ParseBound(s);
    if parsed.Err? then Err(Unparsable(parsed.error))
    else
      var canonical := FormatBound(parsed.value);
      if canonical != s then Err(Noncanonical(s, canonical)) else Ok(parsed.value)
  }

  /** A string is accepted exactly when it is the printed form of some value, and it denotes that value. */
  lemma CanonicalIffPrinted(s: string)
    ensures CanonicalBound(s).Ok? <==> exists v: U64 :: FormatBound(v) == s
    ensures forall v: U64 :: FormatBound(v) == s ==> CanonicalBound(s) == Ok(v)
  {
    if CanonicalBound(s).Ok? {
      assert FormatBound(CanonicalBound(s).value) == s;
    }
    forall v: U64 | FormatBound(v) == s ensures CanonicalBound(s) == Ok(v) {
      ParseFormatBound(v);
    }
  }

  /** Syntactically: even length, at most eight bytes, lowercase hex, no trailing zero byte. */
  lemma CanonicalIffTrimmed(s: string)
    ensures CanonicalBound(s).Ok? <==>
      |s| % 2 == 0 && |s| <= 16 && AllHex(s) && !EndsInZeroByte(s)
  {
    if |s| % 2 == 0 && |s| <= 16 && AllHex(s) {
      assert !EndsInZeroByte(FormatBound(ParseBound(s).value));
      if !EndsInZeroByte(s) {
        FormatParseBound(s);
      }
    }
  }

  // ------------------------------------------------------------ key ranges

  function Display(r: KeyRange): string {
    FormatBound(r.start) + "-" + if r.end.Some? then FormatBound(r.end.value) else ""
  }

  /** The first `-` of `s`, or its length. */
  function DashIndex(s: string): (i: nat)
    ensures i <= |s| && (forall k | 0 <= k < i :: s[k] != '-') && (i < |s| ==> s[i] == '-')
  {
    if s == "" || s[0] == '-' then 0
    else
      var i := 1 + DashIndex(s[1..]);
      assert forall k | 1 <= k < i :: s[k] == s[1..][k - 1];
      i
  }

  function FromStr(s: string): Result<KeyRange, KeyRangeError> {
    var i := DashIndex(s);
    if i == |s| then Err(InvalidSyntax(s))
    else
      var start := ParseBound(s[..i]);
      if start.Err? then Err(start.error)
      else if s[i + 1..] == "" then NewRange(start.value, None)
      else
        var end := ParseBound(s[i + 1..]);
        if end.Err? then Err(end.error) else NewRange(start.value, Some(end.value))
  }

  lemma FormatNonzero(v: U64)
    requires v != 0
    ensures FormatBound(v) != ""
  {
    ParseFormatBound(v);
  }

  /** The text of a range parses back to the range, open ends included. */
  lemma FromStrDisplay(r: KeyRange)
    requires r.Valid()
    ensures FromStr(Display(r)) == Ok(r)
  {
    var s := Display(r);
    var a := FormatBound(r.start);
    var b := if r.end.Some? then FormatBound(r.end.value) else "";
    ParseFormatBound(r.start);
    assert forall k | 0 <= k < |a| :: a[k] in a;
    assert s[|a|] == '-';
    assert forall k | 0 <= k < |a| :: s[k] == a[k] && s[k] != '-';
    assert DashIndex(s) == |a|;
    assert s[..|a|] == a && s[|a| + 1..] == b;
    if r.end.Some? {
      FormatNonzero(r.end.value);
      ParseFormatBound(r.end.value);
    }
  }

  /** The `{start, end}` shape of the topology file. */
  datatype Bounds = Bounds(start: string, end: string)

  function FromRange(r: KeyRange): Bounds {
    Bounds(FormatBound(r.start), if r.end.Some? then FormatBound(r.end.value) else "")
  }

  datatype BoundsError = BadBound(error: CanonicalError) | BadRange(range: KeyRangeError)

  function IntoRange(b: Bounds): Result<KeyRange, BoundsError> {
    var start := CanonicalBound(b.start);
    if start.Err? then Err(BadBound(start.error))
    else if b.end == "" then
      Ok(KeyRange(start.value, None))
    else
      var end := CanonicalBound(b.end);
      if end.Err? then Err(BadBound(end.error))
      else
        var r := NewRange(start.value, Some(end.value));
        if r.Err? then Err(BadRange(r.error)) else Ok(r.value)
  }

  /** Exactly the printed forms of valid ranges are accepted, each as the range it prints. */
  lemma IntoRangeIffPrinted(b: Bounds)
    ensures forall r: KeyRange | r.Valid() :: FromRange(r) == b ==> IntoRange(b) == Ok(r)
    ensures IntoRange(b).Ok? <==> exists r: KeyRange :: r.Valid() && FromRange(r) == b
  {
    forall r: KeyRange | r.Valid() && FromRange(r) == b ensures IntoRange(b) == Ok(r) {
      CanonicalIffPrinted(b.start);
      if r.end.Some? {
        FormatNonzero(r.end.value);
        CanonicalIffPrinted(b.end);
      }
    }
    if IntoRange(b).Ok? {
      var r := IntoRange(b).value;
      assert r.Valid() && FromRange(r) == b;
    }
  }

  /** The text is two bounds of the range around a dash, the second left out for an open end. */
  ghost predicate SpellsRange(s: string, r: KeyRange, i: nat) {
    && i < |s| && s[i] == '-' && ParseBound(s[..i]) == Ok(r.start)
    && (if s[i + 1..] == "" then r.end == None else r.end.Some? && ParseBound(s[i + 1..]) == Ok(r.end.value))
  }

  /** A range is parsed exactly from two bounds around a dash that leave room between them. */
  lemma FromStrIff(s: string, r: KeyRange)
    ensures FromStr(s) == Ok(r) <==> (exists i :: SpellsRange(s, r, i)) && (r.end.Some? ==> r.start < r.end.value)
  {
    hide ParseBound;
    var i := DashIndex(s);
    if FromStr(s) == Ok(r) { assert SpellsRange(s, r, i); }
    if j: nat :| SpellsRange(s, r, j) {
      NoDash(s[..j]);
      assert forall k | 0 <= k < j :: s[k] == s[..j][k];
      assert i == j;
    }
  }

  lemma NoDash(s: string)
    requires ParseBound(s).Ok?
    ensures forall k | 0 <= k < |s| :: s[k] != '-'
  {
    forall k | 0 <= k < |s| ensures s[k] != '-' { assert s[k] in s; }
  }
}
