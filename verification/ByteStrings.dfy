/** Byte strings and the ASCII bytes the scanners look at. */
module ByteStrings {

  newtype byte = b: int | 0 <= b < 256

  type Bytes = seq<byte>

  const QUOTE: byte := 34
  const BACKSLASH: byte := 92
  const LBRACE: byte := 123
  const RBRACE: byte := 125
  const LBRACKET: byte := 91
  const RBRACKET: byte := 93
  const COMMA: byte := 44
  const COLON: byte := 58
  const SPACE: byte := 32
  const TAB: byte := 9
  const LF: byte := 10
  const CR: byte := 13

  /** The seven bytes of the member name the extractors look for. */
  const MESSAGE: Bytes := [109, 101, 115, 115, 97, 103, 101]

  /** JSON whitespace (RFC 8259, section 2). */
  predicate IsWs(b: byte) {
    b == SPACE || b == TAB || b == LF || b == CR
  }

  predicate AllWs(s: Bytes) {
    forall i :: 0 <= i < |s| ==> IsWs(s[i])
  }

  /** What is left of s after its leading whitespace. */
  function SkipWs(s: Bytes): (r: Bytes)
    ensures |r| <= |s|
    ensures r != [] ==> !IsWs(r[0])
  {
    if s != [] && IsWs(s[0]) then SkipWs(s[1..]) else s
  }

  lemma {:induction false} SkipWsOver(gap: Bytes, s: Bytes)
    requires AllWs(gap)
    ensures SkipWs(gap + s) == SkipWs(s)
  {
    if gap == [] {
      assert gap + s == s;
    } else {
      assert (gap + s)[1..] == gap[1..] + s;
      SkipWsOver(gap[1..], s);
    }
  }

  /** Appending bytes never changes where the first non-space byte of s is. */
  lemma {:induction false} SkipWsExtend(s: Bytes, t: Bytes)
    requires SkipWs(s) != []
    ensures SkipWs(s + t) == SkipWs(s) + t
  {
    if IsWs(s[0]) {
      assert (s + t)[1..] == s[1..] + t;
      SkipWsExtend(s[1..], t);
    }
  }
}
