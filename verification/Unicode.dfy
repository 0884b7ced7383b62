/** The UTF-8 test accepts exactly the encodings of Unicode scalar values (RFC 3629, section 3). */
module Unicode {
  import opened Bytes

  /** A code point that is not a surrogate. */
  ghost predicate IsScalar(c: int) {
    0 <= c < 0xD800 || 0xE000 <= c < 0x11_0000
  }

  /** The encoding of one scalar value. */
  ghost function Encode(c: int): (s: seq<Byte>)
    requires IsScalar(c)
    ensures |s| > 0
  {
    if c < 0x80 then [c]
    else if c < 0x800 then [0xC0 + c / 0x40, 0x80 + c % 0x40]
    else if c < 0x1_0000 then [0xE0 + c / 0x40 / 0x40, 0x80 + c / 0x40 % 0x40, 0x80 + c % 0x40]
    else [0xF0 + c / 0x40 / 0x40 / 0x40, 0x80 + c / 0x40 / 0x40 % 0x40, 0x80 + c / 0x40 % 0x40, 0x80 + c % 0x40]
  }

  ghost predicate AllScalar(cs: seq<int>) {
    forall i | 0 <= i < |cs| :: IsScalar(cs[i])
  }

  ghost function EncodeAll(cs: seq<int>): seq<Byte>
    requires AllScalar(cs)
  {
    if cs == [] then [] else Encode(cs[0]) + EncodeAll(cs[1..])
  }

  /** An encoded character is read with its own length, whatever follows. */
  lemma CharLenOf(c: int, rest: seq<Byte>)
    requires IsScalar(c)
    ensures CharLen(Encode(c) + rest) == |Encode(c)|
  {
  }

  lemma SixBits(high: int, low: int)
    requires 0 <= low < 0x40
    ensures (0x40 * high + low) / 0x40 == high && (0x40 * high + low) % 0x40 == low
  {
  }

  ghost predicate Reads(s: seq<Byte>, c: int) {
    s != [] && IsScalar(c) && Encode(c) == s[..CharLen(s)]
  }

  lemma CharOfTwo(s: seq<Byte>) returns (c: int)
    requires s != [] && CharLen(s) == 2
    ensures Reads(s, c)
  {
    c := 0x40 * (s[0] as int - 0xC0) + (s[1] as int - 0x80);
    SixBits(s[0] as int - 0xC0, s[1] as int - 0x80);
  }

  lemma CharOfThree(s: seq<Byte>) returns (c: int)
    requires s != [] && CharLen(s) == 3
    ensures Reads(s, c)
  {
    var high := 0x40 * (s[0] as int - 0xE0) + (s[1] as int - 0x80);
    c := 0x40 * high + (s[2] as int - 0x80);
    SixBits(s[0] as int - 0xE0, s[1] as int - 0x80);
    SixBits(high, s[2] as int - 0x80);
  }

  lemma CharOfFour(s: seq<Byte>) returns (c: int)
    requires s != [] && CharLen(s) == 4
    ensures Reads(s, c)
  {
    var top := 0x40 * (s[0] as int - 0xF0) + (s[1] as int - 0x80);
    var high := 0x40 * top + (s[2] as int - 0x80);
    c := 0x40 * high + (s[3] as int - 0x80);
    SixBits(s[0] as int - 0xF0, s[1] as int - 0x80);
    SixBits(top, s[2] as int - 0x80);
    SixBits(high, s[3] as int - 0x80);
  }

  /** The code point of a character that was read. */
  lemma CharIs(s: seq<Byte>) returns (c: int)
    requires s != [] && CharLen(s) > 0
    ensures Reads(s, c)
  {
    var n := CharLen(s);
    if n == 1 {
      c := s[0];
    } else {
      hide CharLen, Reads;
      if n == 2 {
        c := CharOfTwo(s);
      } else if n == 3 {
        c := CharOfThree(s);
      } else {
        c := CharOfFour(s);
      }
    }
  }

  /** Bytes are UTF-8 exactly if they encode scalar values, one after the other. */
  lemma {:induction false} Utf8Iff(s: seq<Byte>)
    ensures Utf8(s) <==> exists cs :: AllScalar(cs) && s == EncodeAll(cs)
  {
    if Utf8(s) { var cs := Decoded(s); }
    if cs: seq<int> :| AllScalar(cs) && s == EncodeAll(cs) { EncodedIsUtf8(cs); }
  }

  lemma {:induction false} Decoded(s: seq<Byte>) returns (cs: seq<int>)
    requires Utf8(s)
    ensures AllScalar(cs) && s == EncodeAll(cs)
  {
    if s == [] {
      cs := [];
    } else {
      hide CharLen, Encode, IsScalar;
      var c := CharIs(s);
      var rest := Decoded(s[CharLen(s)..]);
      cs := [c] + rest;
      assert cs[1..] == rest;
    }
  }

  lemma {:induction false} EncodedIsUtf8(cs: seq<int>)
    requires AllScalar(cs)
    ensures Utf8(EncodeAll(cs))
  {
    if cs != [] {
      hide CharLen, Encode, IsScalar;
      var rest := EncodeAll(cs[1..]);
      EncodedIsUtf8(cs[1..]);
      CharLenOf(cs[0], rest);
      assert (Encode(cs[0]) + rest)[|Encode(cs[0])|..] == rest;
    }
  }
}
