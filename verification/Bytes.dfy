/** Bytes and the UTF-8 well-formedness test the decoders apply (RFC 3629, section 4). */
module Bytes {

  type Byte = b: int | 0 <= b < 256

  predicate IsTail(b: Byte) {
    0x80 <= b <= 0xBF
  }

  /** The length of the well-formed character at the front of `s`, or 0. */
  function CharLen(s: seq<Byte>): (n: nat)
    requires s != []
    ensures n <= |s| && n <= 4
  {
    var b := s[0];
    if b <= 0x7F then 1
    else if 0xC2 <= b <= 0xDF && |s| >= 2 && IsTail(s[1]) then 2
    else if |s| >= 3 && IsTail(s[1]) && IsTail(s[2])
            && (0xE0 <= b <= 0xEF) && (b == 0xE0 ==> s[1] >= 0xA0) && (b == 0xED ==> s[1] <= 0x9F) then 3
    else if |s| >= 4 && IsTail(s[1]) && IsTail(s[2]) && IsTail(s[3])
            && (0xF0 <= b <= 0xF4) && (b == 0xF0 ==> s[1] >= 0x90) && (b == 0xF4 ==> s[1] <= 0x8F) then 4
    else 0
  }

  predicate Utf8(s: seq<Byte>) {
    s == [] || (CharLen(s) > 0 && Utf8(s[CharLen(s)..]))
  }
}
