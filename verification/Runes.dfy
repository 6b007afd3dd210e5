/** Text as runes, and the trimming of Unicode white space that the Go code uses. */
module Runes {
  import opened Wrappers

  /** White space as unicode.IsSpace of the Go library defines it. */
  predicate IsSpace(r: char) {
    r in {'\t', '\n', '\U{000B}', '\U{000C}', '\r', ' ', '\U{0085}', '\U{00A0}', '\U{1680}',
          '\U{2028}', '\U{2029}', '\U{202F}', '\U{205F}', '\U{3000}'}
    || '\U{2000}' <= r <= '\U{200A}'
  }

  function TrimLeft(s: string): (r: string)
    ensures |r| <= |s|
    ensures r != [] ==> !IsSpace(r[0])
  {
    if s != [] && IsSpace(s[0]) then TrimLeft(s[1..]) else s
  }

  function TrimRight(s: string): (r: string)
    ensures |r| <= |s| && r <= s
    ensures r != [] ==> !IsSpace(r[|r| - 1])
  {
    if s != [] && IsSpace(s[|s| - 1]) then TrimRight(s[..|s| - 1]) else s
  }

  /** strings.TrimSpace. */
  function Trim(s: string): (r: string)
    ensures |r| <= |s|
    ensures r != [] ==> !IsSpace(r[0]) && !IsSpace(r[|r| - 1])
  {
    TrimRight(TrimLeft(s))
  }

  lemma TrimIdempotent(s: string)
    ensures Trim(Trim(s)) == Trim(s)
  {
  }

  /** The runes of s that are not white space, in order. */
  function NonSpaces(s: string): string {
    if s == [] then [] else (if IsSpace(s[0]) then [] else [s[0]]) + NonSpaces(s[1..])
  }

  lemma {:induction false} NonSpacesAppend(a: string, b: string)
    ensures NonSpaces(a + b) == NonSpaces(a) + NonSpaces(b)
  {
    if a == [] {
      assert a + b == b;
    } else {
      var head := if IsSpace(a[0]) then [] else [a[0]];
      assert (a + b)[0] == a[0] && (a + b)[1..] == a[1..] + b;
      assert NonSpaces(a + b) == head + NonSpaces(a[1..] + b);
      NonSpacesAppend(a[1..], b);
      Assoc(head, NonSpaces(a[1..]), NonSpaces(b));
    }
  }

  lemma {:induction false} NonSpacesTrimLeft(s: string)
    ensures NonSpaces(TrimLeft(s)) == NonSpaces(s)
  {
    if s != [] && IsSpace(s[0]) {
      NonSpacesTrimLeft(s[1..]);
    }
  }

  lemma {:induction false} NonSpacesTrimRight(s: string)
    ensures NonSpaces(TrimRight(s)) == NonSpaces(s)
  {
    if s != [] && IsSpace(s[|s| - 1]) {
      NonSpacesTrimRight(s[..|s| - 1]);
      NonSpacesAppend(s[..|s| - 1], [s[|s| - 1]]);
      assert s[..|s| - 1] + [s[|s| - 1]] == s;
    }
  }

  /** Trimming loses white space only. */
  lemma NonSpacesTrim(s: string)
    ensures NonSpaces(Trim(s)) == NonSpaces(s)
  {
    NonSpacesTrimLeft(s);
    NonSpacesTrimRight(TrimLeft(s));
  }

  /** What a chunker appends for one stretch of text: its trimmed form unless it is blank. */
  function Piece(s: string): seq<string> {
    if Trim(s) == "" then [] else [Trim(s)]
  }

  lemma PieceKeeps(s: string)
    ensures NonSpaces(Join(Piece(s))) == NonSpaces(s)
  {
    NonSpacesTrim(s);
    if Trim(s) != "" {
      assert Join(Piece(s)) == Trim(s) + Join<char>([]) == Trim(s);
    }
  }

  predicate AllSpace(s: string) { forall i | 0 <= i < |s| :: IsSpace(s[i]) }

  lemma {:induction false} TrimLeftIs(s: string)
    ensures |TrimLeft(s)| <= |s| && TrimLeft(s) == s[|s| - |TrimLeft(s)|..] && AllSpace(s[..|s| - |TrimLeft(s)|])
  {
    if s != [] && IsSpace(s[0]) {
      TrimLeftIs(s[1..]);
      var n := |s| - |TrimLeft(s)|;
      assert s[..n] == [s[0]] + s[1..][..n - 1];
    }
  }

  lemma {:induction false} TrimRightIs(s: string)
    ensures TrimRight(s) <= s && AllSpace(s[|TrimRight(s)|..])
  {
    if s != [] && IsSpace(s[|s| - 1]) {
      var init := s[..|s| - 1];
      TrimRightIs(init);
      assert s[|TrimRight(s)|..] == init[|TrimRight(s)|..] + [s[|s| - 1]];
    }
  }

  /** Trimming takes white space off both ends and nothing else. */
  lemma TrimIs(s: string)
    ensures exists left, right :: s == left + Trim(s) + right && AllSpace(left) && AllSpace(right)
  {
    TrimLeftIs(s);
    TrimRightIs(TrimLeft(s));
    var left, right := s[..|s| - |TrimLeft(s)|], TrimLeft(s)[|Trim(s)|..];
    assert s == left + (Trim(s) + right) == left + Trim(s) + right;
  }
}
