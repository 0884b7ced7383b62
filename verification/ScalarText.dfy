/**
Which texts spell which shard key, as if and only if: integers, UUIDs and byte strings
(`crates/pgshard-core/src/shardfn.rs`).
*/
module ScalarText {
  import opened Wrappers
  import opened Bytes
  import opened Scalar

  // ------------------------------------------------------------- white space

  /** The encoding of one white-space character. */
  ghost predicate IsSpace(c: seq<Byte>) {
    || (|c| == 1 && Space1(c[0]))
    || (|c| == 2 && Space2(c[0], c[1]))
    || (|c| == 3 && Space3(c[0], c[1], c[2]))
  }

  ghost predicate Blank(cs: seq<seq<Byte>>) {
    forall i | 0 <= i < |cs| :: IsSpace(cs[i])
  }

  ghost function Join(cs: seq<seq<Byte>>): seq<Byte> {
    if cs == [] then [] else cs[0] + Join(cs[1..])
  }

  lemma {:induction false} JoinMore(cs: seq<seq<Byte>>, c: seq<Byte>)
    ensures Join(cs + [c]) == Join(cs) + c
  {
    if cs == [] {
      assert [c][1..] == [] && [] + [c] == [c];
    } else {
      JoinMore(cs[1..], c);
      assert (cs + [c])[1..] == cs[1..] + [c];
    }
  }

  lemma FirstBlank(c: seq<Byte>, cs: seq<seq<Byte>>)
    requires IsSpace(c) && Blank(cs)
    ensures Blank([c] + cs) && Join([c] + cs) == c + Join(cs)
  {
    assert ([c] + cs)[1..] == cs;
  }

  lemma LastBlank(cs: seq<seq<Byte>>, c: seq<Byte>)
    requires IsSpace(c) && Blank(cs)
    ensures Blank(cs + [c])
  {
  }

  lemma NoBlank()
    ensures Blank([]) && Join([]) == []
  {
  }

  lemma Assoc(a: seq<Byte>, b: seq<Byte>, c: seq<Byte>)
    ensures a + (b + c) == (a + b) + c
  {
  }

  lemma StartsWithSpace(c: seq<Byte>, rest: seq<Byte>)
    requires IsSpace(c)
    ensures SpaceAt(c + rest) == |c|
  {
  }

  lemma EndsInSpace(init: seq<Byte>, c: seq<Byte>)
    requires IsSpace(c)
    ensures SpaceBefore(init + c) == |c|
  {
    var s := init + c;
    assert s[|s| - |c|..] == c;
  }

  lemma SpaceThere(s: seq<Byte>)
    ensures SpaceAt(s) > 0 ==> IsSpace(s[..SpaceAt(s)])
    ensures SpaceBefore(s) > 0 ==> IsSpace(s[|s| - SpaceBefore(s)..])
  {
  }

  /** A printable ASCII character. */
  ghost predicate Visible(b: Byte) {
    33 <= b <= 126
  }

  lemma NoSpaceThere(s: seq<Byte>)
    requires s != []
    ensures Visible(s[0]) ==> SpaceAt(s) == 0
    ensures Visible(s[|s| - 1]) ==> SpaceBefore(s) == 0
  {
  }

  lemma {:induction false} TrimStartIs(s: seq<Byte>) returns (lead: seq<seq<Byte>>)
    ensures Blank(lead) && s == Join(lead) + TrimStart(s)
  {
    hide SpaceAt, IsSpace, Join, Blank;
    var n := SpaceAt(s);
    if n == 0 {
      lead := [];
      NoBlank();
    } else {
      SpaceThere(s);
      var rest := TrimStartIs(s[n..]);
      var t := TrimStart(s[n..]);
      assert TrimStart(s) == t;
      hide TrimStart;
      lead := [s[..n]] + rest;
      FirstBlank(s[..n], rest);
      Assoc(s[..n], Join(rest), t);
      assert s == s[..n] + s[n..];
    }
  }

  lemma {:induction false} TrimEndIs(s: seq<Byte>) returns (trail: seq<seq<Byte>>)
    ensures Blank(trail) && s == TrimEnd(s) + Join(trail)
  {
    hide SpaceBefore, IsSpace, Join, Blank;
    var n := SpaceBefore(s);
    if n == 0 {
      trail := [];
      NoBlank();
    } else {
      SpaceThere(s);
      var rest := TrimEndIs(s[..|s| - n]);
      var t := TrimEnd(s[..|s| - n]);
      assert TrimEnd(s) == t;
      hide TrimEnd;
      Assoc(t, Join(rest), s[|s| - n..]);
      trail := rest + [s[|s| - n..]];
      JoinMore(rest, s[|s| - n..]);
      LastBlank(rest, s[|s| - n..]);
      assert s == s[..|s| - n] + s[|s| - n..];
    }
  }

  lemma {:induction false} TrimStartOf(lead: seq<seq<Byte>>, core: seq<Byte>)
    requires core != [] && Visible(core[0]) && Blank(lead)
    ensures TrimStart(Join(lead) + core) == core
  {
    hide SpaceAt, IsSpace;
    if lead == [] {
      assert Join(lead) + core == core;
      NoSpaceThere(core);
    } else {
      var rest := Join(lead[1..]) + core;
      assert Join(lead) + core == lead[0] + rest;
      StartsWithSpace(lead[0], rest);
      assert (lead[0] + rest)[|lead[0]|..] == rest;
      SpaceLength(lead[0]);
      TrimStartOf(lead[1..], core);
    }
  }

  lemma SpaceLength(c: seq<Byte>)
    requires IsSpace(c)
    ensures |c| > 0
  {
  }

  lemma {:induction false} TrimEndOf(core: seq<Byte>, trail: seq<seq<Byte>>)
    requires core != [] && Visible(core[|core| - 1]) && Blank(trail)
    ensures TrimEnd(core + Join(trail)) == core
    decreases |trail|
  {
    hide SpaceBefore, IsSpace;
    if trail == [] {
      assert core + Join(trail) == core;
      NoSpaceThere(core);
    } else {
      var n := |trail| - 1;
      var init, c := trail[..n], trail[n];
      JoinMore(init, c);
      assert trail == init + [c];
      var s := core + Join(init);
      assert core + Join(trail) == s + c;
      EndsInSpace(s, c);
      SpaceLength(c);
      assert (s + c)[..|s|] == s;
      TrimEndOf(core, init);
    }
  }

  /** White space, `core`, white space. */
  ghost predicate Padded(s: seq<Byte>, core: seq<Byte>) {
    exists lead, trail {:trigger Blank(lead), Blank(trail)} :: Blank(lead) && Blank(trail) && s == Join(lead) + core + Join(trail)
  }

  /** The trimmed text is what white space surrounds. */
  lemma TrimIff(s: seq<Byte>, core: seq<Byte>)
    requires core != [] && Visible(core[0]) && Visible(core[|core| - 1])
    ensures Trim(s) == core <==> Padded(s, core)
  {
    hide TrimStart, TrimEnd, Blank, Join;
    if lead, trail :| Blank(lead) && Blank(trail) && s == Join(lead) + core + Join(trail) {
      assert s == Join(lead) + (core + Join(trail));
      TrimStartOf(lead, core + Join(trail));
      TrimEndOf(core, trail);
    }
    if Trim(s) == core {
      var lead := TrimStartIs(s);
      var trail := TrimEndIs(TrimStart(s));
      assert s == Join(lead) + core + Join(trail);
    }
  }

  // ------------------------------------------------------------------ integers

  ghost function Zeros(n: nat): seq<Byte> {
    seq(n, i => 48)
  }

  lemma {:induction false} LeadingZeros(k: nat, s: seq<Byte>)
    requires AllDigits(s)
    ensures AllDigits(Zeros(k) + s) && DecimalValue(Zeros(k) + s) == DecimalValue(s)
  {
    if s == [] {
      AllZeros(k);
      assert Zeros(k) + s == Zeros(k);
    } else {
      var init := s[..|s| - 1];
      LeadingZeros(k, init);
      assert (Zeros(k) + s)[..k + |s| - 1] == Zeros(k) + init;
    }
  }

  lemma {:induction false} AllZeros(k: nat)
    ensures AllDigits(Zeros(k)) && DecimalValue(Zeros(k)) == 0
  {
    if k > 0 {
      AllZeros(k - 1);
      assert Zeros(k)[..k - 1] == Zeros(k - 1);
    }
  }

  /** Digits are the decimal text of their value behind leading zeros. */
  lemma {:induction false} DigitsAre(s: seq<Byte>) returns (k: nat)
    requires s != [] && AllDigits(s)
    ensures s == Zeros(k) + Decimal(DecimalValue(s))
  {
    var n := |s| - 1;
    var init, d := s[..n], DigitValue(s[n]);
    var v := DecimalValue(init);
    if n == 0 {
      assert init == [] && v == 0;
      k := 0;
      assert s == [48 + d];
    } else {
      var m := DigitsAre(init);
      if v == 0 {
        k := m + 1;
        assert Decimal(0) == [48];
        assert Zeros(m) + [48] == Zeros(m + 1);
      } else {
        k := m;
        assert (10 * v + d) / 10 == v && (10 * v + d) % 10 == d;
        assert Decimal(10 * v + d) == Decimal(v) + [48 + d];
      }
      assert s == init + [48 + d];
    }
  }

  /** Digits spell `n`: its decimal text, behind any number of zeros. */
  ghost predicate SpellsNat(s: seq<Byte>, n: nat) {
    exists k: nat :: s == Zeros(k) + Decimal(n)
  }

  lemma NatIff(s: seq<Byte>, n: nat)
    ensures SpellsNat(s, n) <==> s != [] && AllDigits(s) && DecimalValue(s) == n
  {
    if k: nat :| s == Zeros(k) + Decimal(n) {
      LeadingZeros(k, Decimal(n));
      DecimalValueOfDecimal(n);
    }
    if s != [] && AllDigits(s) && DecimalValue(s) == n {
      var k := DigitsAre(s);
    }
  }

  /** An optional sign, zeros, and the decimal text of the magnitude. */
  ghost predicate SpellsInt(s: seq<Byte>, v: int) {
    || (v >= 0 && SpellsNat(s, v))
    || (s != [] && s[0] == 43 && v >= 0 && SpellsNat(s[1..], v))
    || (s != [] && s[0] == 45 && v <= 0 && SpellsNat(s[1..], -v))
  }

  lemma SpeltEnds(s: seq<Byte>, n: nat)
    requires SpellsNat(s, n)
    ensures s != [] && IsDigit(s[0]) && IsDigit(s[|s| - 1])
  {
    hide DecimalValue;
    NatIff(s, n);
  }

  lemma TrimmedIntIff(t: seq<Byte>, v: int)
    ensures ParsedInt(t) == Some(v) <==> I64_MIN <= v < I64_TOP && SpellsInt(t, v)
  {
    hide DecimalValue, SpellsNat;
    var n: nat := if v < 0 then -v else v;
    NatIff(t, n);
    if t != [] && (t[0] == 45 || t[0] == 43) {
      NatIff(t[1..], n);
      assert !IsDigit(t[0]) && !AllDigits(t);
    } else {
      assert v < 0 ==> ParsedInt(t) != Some(v);
    }
  }

  lemma CoerceIntIs(s: seq<Byte>)
    ensures CoerceInt(s) == ParsedInt(Trim(s))
  {
    hide Trim;
  }

  lemma SpeltIntVisible(t: seq<Byte>, v: int)
    requires SpellsInt(t, v)
    ensures t != [] && Visible(t[0]) && Visible(t[|t| - 1])
  {
    hide SpellsNat;
    if v >= 0 && SpellsNat(t, v) {
      SpeltEnds(t, v);
    } else {
      SpeltEnds(t[1..], if v < 0 then -v else v);
    }
  }

  ghost predicate IntPadded(s: seq<Byte>, v: int) {
    exists t :: SpellsInt(t, v) && Padded(s, t)
  }

  /**
  A text is the integer key `v` exactly if `v` has 64 bits and the text is, inside white space, an
  optional sign, zeros, and the decimal text of the magnitude.
  */
  lemma IntTextIff(s: seq<Byte>, v: int)
    ensures Coerce(IntType, Text(s)) == Some(Int64(v)) <==> I64_MIN <= v < I64_TOP && IntPadded(s, v)
  {
    hide Trim, ParsedInt, SpellsInt, Padded, CoerceInt;
    CoerceIntIs(s);
    TrimmedIntIff(Trim(s), v);
    if SpellsInt(Trim(s), v) {
      SpeltIntVisible(Trim(s), v);
      TrimIff(s, Trim(s));
    }
    if t :| SpellsInt(t, v) && Padded(s, t) {
      SpeltIntVisible(t, v);
      TrimIff(s, t);
    }
  }

  /** What the integer coercion does once the text is trimmed. */
  ghost function ParsedInt(t: seq<Byte>): Option<int> {
    var negative := t != [] && t[0] == 45;
    var digits := if t != [] && (t[0] == 45 || t[0] == 43) then t[1..] else t;
    if digits == [] || !AllDigits(digits) then None
    else
      var magnitude: int := DecimalValue(digits);
      var v := if negative then -magnitude else magnitude;
      if I64_MIN <= v < I64_TOP then Some(v) else None
  }

  // ------------------------------------------------------------- hexadecimal text

  const HEX: seq<Byte> := [48, 49, 50, 51, 52, 53, 54, 55, 56, 57, 97, 98, 99, 100, 101, 102]

  /** The digit in lower case. */
  ghost function Lower(b: Byte): Byte {
    if 65 <= b <= 90 then b + 32 else b
  }

  /** `s` is the hexadecimal text of the bytes, in digits of either case. */
  ghost predicate HexText(s: seq<Byte>, b: seq<Byte>) {
    && |s| == 2 * |b|
    && forall i {:trigger b[i]} | 0 <= i < |b| :: Lower(s[2 * i]) == HEX[b[i] / 16] && Lower(s[2 * i + 1]) == HEX[b[i] % 16]
  }

  lemma HexDigitIff(c: Byte, v: nat)
    requires v < 16
    ensures Lower(c) == HEX[v] <==> IsHex(c) && HexVal(c) == v
  {
  }

  lemma PairIff(hi: Byte, lo: Byte, b: Byte)
    ensures Lower(hi) == HEX[b / 16] && Lower(lo) == HEX[b % 16] <==> IsHex(hi) && IsHex(lo) && 16 * HexVal(hi) + HexVal(lo) == b
  {
    hide IsHex, HexVal, Lower;
    HexDigitIff(hi, b / 16);
    HexDigitIff(lo, b % 16);
  }

  lemma HexTextMore(s: seq<Byte>, b: seq<Byte>)
    requires |s| == 2 * |b| && b != []
    ensures HexText(s, b) <==> Lower(s[0]) == HEX[b[0] / 16] && Lower(s[1]) == HEX[b[0] % 16] && HexText(s[2..], b[1..])
  {
    hide Lower;
    if HexText(s, b) {
      assert Lower(s[2 * 0]) == HEX[b[0] / 16];
      forall i | 0 <= i < |b| - 1
        ensures Lower(s[2..][2 * i]) == HEX[b[1..][i] / 16] && Lower(s[2..][2 * i + 1]) == HEX[b[1..][i] % 16]
      {
        assert b[i + 1] == b[1..][i];
      }
    }
    if Lower(s[0]) == HEX[b[0] / 16] && Lower(s[1]) == HEX[b[0] % 16] && HexText(s[2..], b[1..]) {
      forall i | 0 <= i < |b| ensures Lower(s[2 * i]) == HEX[b[i] / 16] && Lower(s[2 * i + 1]) == HEX[b[i] % 16] {
        if i > 0 { assert b[1..][i - 1] == b[i]; }
      }
    }
  }

  /** Decoding is the inverse of hexadecimal text, on texts and on bytes. */
  lemma {:induction false} HexBytesIff(s: seq<Byte>, b: seq<Byte>)
    ensures HexText(s, b) <==> |s| % 2 == 0 && AllHex(s) && HexBytes(s) == b
  {
    hide IsHex, HexVal, Lower;
    if |s| == 2 * |b| && b != [] {
      HexTextMore(s, b);
      PairIff(s[0], s[1], b[0]);
      HexBytesIff(s[2..], b[1..]);
      assert AllHex(s) <==> IsHex(s[0]) && IsHex(s[1]) && AllHex(s[2..]) by { AllHexMore(s); }
      assert b == [b[0]] + b[1..];
    }
  }

  lemma AllHexMore(s: seq<Byte>)
    requires |s| >= 2
    ensures AllHex(s) <==> IsHex(s[0]) && IsHex(s[1]) && AllHex(s[2..])
  {
    hide IsHex;
    if IsHex(s[0]) && IsHex(s[1]) && AllHex(s[2..]) {
      forall i | 0 <= i < |s| ensures IsHex(s[i]) {
        if i >= 2 { assert s[2..][i - 2] == s[i]; }
      }
    }
  }

  /** A text is a byte-string key exactly if it is a backslash, an x, and the bytes' hexadecimal text. */
  lemma ByteaTextIff(s: seq<Byte>, b: seq<Byte>)
    ensures Coerce(ByteaType, Text(s)) == Some(Bytea(b)) <==> |s| >= 2 && s[..2] == [92, 120] && HexText(s[2..], b)
  {
    hide HexBytes, HexText, IsHex;
    if |s| >= 2 {
      HexBytesIff(s[2..], b);
      assert s[..2] == [92, 120] <==> s[0] == 92 && s[1] == 120;
    }
  }

  // --------------------------------------------------------------------- UUIDs

  /** Hyphens may stand anywhere, and nothing else is dropped. */
  lemma {:induction false} HyphensJoin(a: seq<Byte>, b: seq<Byte>)
    ensures WithoutHyphens(a + b) == WithoutHyphens(a) + WithoutHyphens(b)
  {
    if a == [] {
      assert a + b == b;
    } else {
      HyphensJoin(a[1..], b);
      assert (a + b)[1..] == a[1..] + b;
      var first: seq<Byte> := if a[0] == 45 then [] else [a[0]];
      assert WithoutHyphens(a + b) == first + WithoutHyphens(a[1..] + b);
      Assoc(first, WithoutHyphens(a[1..]), WithoutHyphens(b));
    }
  }

  lemma {:induction false} NoHyphens(a: seq<Byte>)
    requires forall i | 0 <= i < |a| :: a[i] != 45
    ensures WithoutHyphens(a) == a
  {
    if a != [] {
      NoHyphens(a[1..]);
      assert a == [a[0]] + a[1..];
    }
  }

  /** Hyphens may stand anywhere, and nothing else is dropped. */
  lemma HyphensVanish(a: seq<Byte>, b: seq<Byte>)
    ensures WithoutHyphens(a + [45] + b) == WithoutHyphens(a + b)
    ensures (forall i | 0 <= i < |a| :: a[i] != 45) ==> WithoutHyphens(a) == a
  {
    HyphensJoin(a, b);
    HyphensJoin(a + [45], b);
    HyphensJoin(a, [45]);
    assert WithoutHyphens([45]) == [] by { assert [45][1..] == []; }
    if forall i | 0 <= i < |a| :: a[i] != 45 { NoHyphens(a); }
  }

  /** 32 hexadecimal digits of the bytes, hyphens among them anywhere, in braces or not. */
  ghost predicate SpellsUuid(t: seq<Byte>, b: seq<Byte>) {
    && |b| == 16
    && (|| (t != [] && t[0] != 123 && t[|t| - 1] != 125 && HexText(WithoutHyphens(t), b))
        || (|t| >= 2 && t[0] == 123 && t[|t| - 1] == 125 && HexText(WithoutHyphens(t[1..|t| - 1]), b)))
  }

  ghost function ParsedUuid(t: seq<Byte>): Option<seq<Byte>> {
    var open, close := t != [] && t[0] == 123, t != [] && t[|t| - 1] == 125;
    if open != close then None
    else
      var hex := WithoutHyphens(if open then t[1..|t| - 1] else t);
      if |hex| != 32 || !AllHex(hex) then None else Some(HexBytes(hex))
  }

  lemma CoerceUuidIs(s: seq<Byte>)
    ensures CoerceUuid(s) == ParsedUuid(Trim(s))
  {
    hide Trim;
  }

  lemma TrimmedUuidIff(t: seq<Byte>, b: seq<Byte>)
    ensures ParsedUuid(t) == Some(b) <==> SpellsUuid(t, b)
  {
    hide HexBytes, HexText, IsHex;
    if t != [] {
      HexBytesIff(WithoutHyphens(t), b);
      HexLength(WithoutHyphens(t), b);
      if |t| >= 2 {
        HexBytesIff(WithoutHyphens(t[1..|t| - 1]), b);
        HexLength(WithoutHyphens(t[1..|t| - 1]), b);
      }
    }
  }

  lemma HexLength(s: seq<Byte>, b: seq<Byte>)
    ensures HexText(s, b) ==> |s| == 2 * |b|
  {
  }

  lemma {:induction false} HexEnds(t: seq<Byte>, b: seq<Byte>)
    requires t != [] && AllHex(WithoutHyphens(t))
    ensures Visible(t[0]) && Visible(t[|t| - 1])
  {
    var n := |t| - 1;
    HyphensJoin(t[..1], t[1..]);
    assert t == t[..1] + t[1..];
    HyphensJoin(t[..n], t[n..]);
    assert t == t[..n] + t[n..];
    OneKept(t[0], t[1..]);
    if t[n] != 45 {
      assert WithoutHyphens(t[n..]) == [t[n]] by { assert t[n..] == [t[n]] && [t[n]][1..] == []; }
      var w := WithoutHyphens(t);
      assert w[|w| - 1] == t[n] && IsHex(w[|w| - 1]);
    }
  }

  lemma OneKept(c: Byte, rest: seq<Byte>)
    requires AllHex(WithoutHyphens([c] + rest))
    ensures Visible(c)
  {
    var s := [c] + rest;
    assert s[1..] == rest;
    if c != 45 { assert IsHex(WithoutHyphens(s)[0]); }
  }

  lemma SpeltUuidVisible(t: seq<Byte>, b: seq<Byte>)
    requires SpellsUuid(t, b)
    ensures t != [] && Visible(t[0]) && Visible(t[|t| - 1])
  {
    hide HexText, WithoutHyphens;
    if t[0] != 123 {
      HexBytesIff(WithoutHyphens(t), b);
      HexEnds(t, b);
    }
  }

  ghost predicate UuidPadded(s: seq<Byte>, b: seq<Byte>) {
    exists t :: SpellsUuid(t, b) && Padded(s, t)
  }

  /** A text is a UUID key exactly if it is, inside white space, a spelling of its sixteen bytes. */
  lemma UuidTextIff(s: seq<Byte>, b: seq<Byte>)
    ensures Coerce(UuidType, Text(s)) == Some(Uuid(b)) <==> UuidPadded(s, b)
  {
    hide Trim, ParsedUuid, SpellsUuid, Padded, CoerceUuid;
    CoerceUuidIs(s);
    TrimmedUuidIff(Trim(s), b);
    if SpellsUuid(Trim(s), b) {
      SpeltUuidVisible(Trim(s), b);
      TrimIff(s, Trim(s));
    }
    if t :| SpellsUuid(t, b) && Padded(s, t) {
      SpeltUuidVisible(t, b);
      TrimIff(s, t);
    }
  }
}
