/** cascadeChunker (pkg/model/realtime_cascade.go): cuts streamed text into sentences to be spoken. */
module CascadeChunker {
  import opened Wrappers
  import opened Runes

  predicate IsEnd(r: char) { r in {'.', '!', '?', '\U{2026}'} }

  /** The index of the first end mark. */
  function FirstEnd(s: string): (r: Option<nat>)
    ensures r.Some? ==> r.value < |s| && IsEnd(s[r.value])
  {
    if s == [] then None
    else if IsEnd(s[0]) then Some(0)
    else Shift(FirstEnd(s[1..]), 1)
  }

  predicate NoEnd(s: string) { forall i | 0 <= i < |s| :: !IsEnd(s[i]) }

  lemma FirstEndIs(s: string, k: nat)
    requires k < |s| && NoEnd(s[..k]) && IsEnd(s[k])
    ensures FirstEnd(s) == Some(k)
  {
    if k > 0 {
      assert !IsEnd(s[..k][0]);
      assert s[1..][..k - 1] == s[..k][1..];
      FirstEndIs(s[1..], k - 1);
    }
  }

  lemma FirstEndSplits(s: string)
    ensures match FirstEnd(s)
            case None => NoEnd(s)
            case Some(k) => NoEnd(s[..k])
  {
    if s != [] && !IsEnd(s[0]) {
      FirstEndSplits(s[1..]);
      assert forall i | 1 <= i < |s| :: s[i] == s[1..][i - 1];
      if FirstEnd(s).Some? {
        var k := FirstEnd(s).value;
        assert forall i | 1 <= i < k :: s[..k][i] == s[1..][..k - 1][i - 1];
      }
    }
  }

  /** The sentences of a text, and what follows its last end mark. */
  function Cut(text: string): (seq<string>, string) {
    match FirstEnd(text)
    case None => ([], text)
    case Some(k) =>
      var (out, rest) := Cut(text[k + 1..]);
      (Piece(text[..k + 1]) + out, rest)
  }

  /** One Push: the sentences returned and the new buffer. */
  function Pushed(buf: string, delta: string, final: bool): (seq<string>, string) {
    var (out, rest) := Cut(buf + delta);
    if final then (out + Piece(rest), "") else (out, rest)
  }

  class CascadeChunker {
    var buf: string

    constructor ()
      ensures buf == ""
    {
      buf := "";
    }

    method Push(delta: string, final: bool) returns (out: seq<string>)
      modifies this
      ensures (out, buf) == Pushed(old(buf), delta, final)
    {
      buf := buf + delta;
      var start;
      out, start := Scan(buf);
      assert buf[0..] == buf && out + [] == out;
      if start > 0 {
        buf := buf[start..];
      }
      if final {
        var tail := Trim(buf);
        if tail != "" {
          out := out + [tail];
        }
        buf := "";
      }
    }
  }

  /** The loop of Push: the sentences, and where the text after the last of them begins. */
  method Scan(text: string) returns (out: seq<string>, start: nat)
    ensures start <= |text| && Cut(text) == (out, text[start..])
  {
    hide Cut, Trim;
    out, start := [], 0;
    assert text[0..] == text && out + Cut(text).0 == Cut(text).0;
    for i := 0 to |text|
      invariant start <= i
      invariant NoEnd(text[start..i])
      invariant Cut(text) == (out + Cut(text[start..]).0, Cut(text[start..]).1)
    {
      if IsEnd(text[i]) {
        CutRound(text, start, i);
        Assoc(out, Piece(text[start..i + 1]), Cut(text[i + 1..]).0);
        var sentence := Trim(text[start..i + 1]);
        assert out + Piece(text[start..i + 1]) == if sentence != "" then out + [sentence] else out;
        if sentence != "" {
          out := out + [sentence];
        }
        start := i + 1;
      } else {
        assert text[start..i + 1] == text[start..i] + [text[i]];
      }
      assert NoEnd(text[start..i + 1]);
    }
    assert text[start..|text|] == text[start..];
    CutEnd(text[start..]);
    assert out + [] == out;
  }

  lemma CutRound(text: string, start: nat, i: nat)
    requires start <= i < |text| && NoEnd(text[start..i]) && IsEnd(text[i])
    ensures var (out, rest) := Cut(text[i + 1..]);
            Cut(text[start..]) == (Piece(text[start..i + 1]) + out, rest)
  {
    var s, k := text[start..], i - start;
    assert s[..k] == text[start..i] && s[..k + 1] == text[start..i + 1] && s[k + 1..] == text[i + 1..];
    FirstEndIs(s, k);
  }

  lemma CutEnd(s: string)
    requires NoEnd(s)
    ensures Cut(s) == ([], s)
  {
  }

  // ---------- what comes out ----------

  /** The only end mark is the last rune. */
  predicate EndsInMark(s: string) { s != "" && NoEnd(s[..|s| - 1]) && IsEnd(s[|s| - 1]) }

  lemma DropSpace(s: string)
    requires EndsInMark(s) && IsSpace(s[0])
    ensures EndsInMark(s[1..])
  {
    assert s[1..][..|s| - 2] == s[..|s| - 1][1..];
  }

  lemma {:induction false} TrimLeftKeepsLast(s: string)
    requires EndsInMark(s)
    ensures EndsInMark(TrimLeft(s))
  {
    if IsSpace(s[0]) {
      DropSpace(s);
      TrimLeftKeepsLast(s[1..]);
    }
  }

  /** One trimmed sentence. */
  predicate IsSentence(s: string) { EndsInMark(s) && !IsSpace(s[0]) }

  /** A stretch that ends in an end mark is never blank, so the guard on empty sentences never fires. */
  lemma PieceIsSentence(s: string)
    requires EndsInMark(s)
    ensures Piece(s) == [Trim(s)] && IsSentence(Trim(s))
  {
    TrimLeftKeepsLast(s);
  }

  function EndMarks(s: string): nat {
    if s == [] then 0 else (if IsEnd(s[0]) then 1 else 0) + EndMarks(s[1..])
  }

  lemma EndMarksAppend(a: string, b: string)
    ensures EndMarks(a + b) == EndMarks(a) + EndMarks(b)
  {
    if a == [] {
      assert a + b == b;
    } else {
      assert (a + b)[1..] == a[1..] + b;
    }
  }

  lemma NoEndMarks(s: string)
    requires NoEnd(s)
    ensures EndMarks(s) == 0
  {
  }

  /** Exactly one sentence per end mark, each with no other mark inside; the buffer holds no mark. */
  lemma {:induction false} CutShape(text: string)
    ensures NoEnd(Cut(text).1)
    ensures |Cut(text).0| == EndMarks(text)
    ensures forall s | s in Cut(text).0 :: IsSentence(s)
    decreases |text|
  {
    FirstEndSplits(text);
    match FirstEnd(text)
    case None => NoEndMarks(text);
    case Some(k) =>
      var head, tail := text[..k + 1], text[k + 1..];
      assert text == head + tail && head == text[..k] + [text[k]];
      assert head[..|head| - 1] == text[..k];
      PieceIsSentence(head);
      CutShape(tail);
      NoEndMarks(text[..k]);
      EndMarksAppend(head, tail);
      EndMarksAppend(text[..k], [text[k]]);
  }

  /** out are the pieces, trimmed; each piece ends in its only end mark. */
  predicate Sliced(pieces: seq<string>, out: seq<string>) {
    |pieces| == |out| && forall i | 0 <= i < |out| :: EndsInMark(pieces[i]) && out[i] == Trim(pieces[i])
  }

  /** The text is cut behind every end mark: sentences are the trimmed pieces, and rest has no mark. */
  ghost predicate Sentences(text: string, sentences: seq<string>, rest: string) {
    NoEnd(rest) && exists pieces: seq<string> :: Sliced(pieces, sentences) && text == Join(pieces) + rest
  }

  lemma {:induction false} CutIs(text: string)
    ensures Sentences(text, Cut(text).0, Cut(text).1)
    decreases |text|
  {
    hide Trim, Sentences;
    FirstEndSplits(text);
    match FirstEnd(text)
    case None => NoSentence(text);
    case Some(k) =>
      var head, tail := text[..k + 1], text[k + 1..];
      assert head[..|head| - 1] == text[..k];
      PieceIsSentence(head);
      CutIs(tail);
      assert text == head + tail;
      OneMoreSentence(head, tail, Cut(tail).0, Cut(tail).1);
  }

  lemma NoSentence(text: string)
    requires NoEnd(text)
    ensures Sentences(text, [], text)
  {
    var none: seq<string> := [];
    assert Sliced(none, []) && text == Join(none) + text;
  }

  lemma OneMoreSentence(head: string, tail: string, out: seq<string>, rest: string)
    requires EndsInMark(head) && Sentences(tail, out, rest)
    ensures Sentences(head + tail, [Trim(head)] + out, rest)
  {
    hide EndsInMark, Trim;
    var pieces: seq<string> :| Sliced(pieces, out) && tail == Join(pieces) + rest;
    Assoc(head, Join(pieces), rest);
    assert ([head] + pieces)[1..] == pieces;
    assert Sliced([head] + pieces, [Trim(head)] + out);
  }

  /**
    One Push, by the text alone: the sentences of the buffer and the delta come out, and what
    follows the last end mark stays, or, if the push is final, comes out as well unless it is blank.
   */
  lemma PushIs(buf: string, delta: string, final: bool)
    ensures var (out, left) := Pushed(buf, delta, final);
            exists sentences, rest ::
              && Sentences(buf + delta, sentences, rest)
              && left == (if final then "" else rest)
              && out == if final && Trim(rest) != "" then sentences + [Trim(rest)] else sentences
  {
    CutIs(buf + delta);
    var (sentences, rest) := Cut(buf + delta);
    assert sentences + [] == sentences;
  }

  /** The four marks that end a sentence. */
  lemma MarksAre(s: string, r: char)
    requires forall i | 0 <= i < |s| :: s[i] != '.' && s[i] != '!' && s[i] != '?' && s[i] != '\U{2026}'
    ensures Cut(s + [r]) ==
              if r == '.' || r == '!' || r == '?' || r == '\U{2026}' then ([Trim(s + [r])], "") else ([], s + [r])
  {
    hide Cut, Trim;
    EndCuts(s, r);
  }

  lemma EndCuts(s: string, r: char)
    requires NoEnd(s)
    ensures Cut(s + [r]) == if IsEnd(r) then ([Trim(s + [r])], "") else ([], s + [r])
  {
    hide Cut, Trim, IsEnd;
    if IsEnd(r) {
      assert (s + [r])[..|s|] == s;
      OneSentence(s + [r]);
    } else {
      CutEnd(s + [r]);
    }
  }

  lemma OneSentence(t: string)
    requires EndsInMark(t)
    ensures Cut(t) == ([Trim(t)], "")
  {
    hide Cut, Trim, Piece, IsEnd;
    var n := |t| - 1;
    assert t[0..n] == t[..n] && t[0..] == t && t[0..n + 1] == t && t[n + 1..] == "";
    CutRound(t, 0, n);
    CutEnd("");
    PieceIsSentence(t);
    assert [Trim(t)] + [] == [Trim(t)];
  }

  /** Sentences and buffer together keep every rune that is not white space, in order. */
  lemma {:induction false} CutConserves(text: string)
    ensures NonSpaces(Join(Cut(text).0)) + NonSpaces(Cut(text).1) == NonSpaces(text)
    decreases |text|
  {
    match FirstEnd(text)
    case None =>
      assert Join<char>([]) == [];
    case Some(k) =>
      var head, tail := text[..k + 1], text[k + 1..];
      assert text == head + tail;
      CutConserves(tail);
      PieceKeeps(head);
      JoinAppend(Piece(head), Cut(tail).0);
      NonSpacesAppend(Join(Piece(head)), Join(Cut(tail).0));
      NonSpacesAppend(head, tail);
      Assoc(NonSpaces(head), NonSpaces(Join(Cut(tail).0)), NonSpaces(Cut(tail).1));
  }

  /** The same for a whole Push, final or not. */
  lemma {:induction false} PushConserves(buf: string, delta: string, final: bool)
    ensures var (out, left) := Pushed(buf, delta, final);
            NonSpaces(Join(out)) + NonSpaces(left) == NonSpaces(buf + delta)
  {
    var (out, rest) := Cut(buf + delta);
    CutConserves(buf + delta);
    if final {
      PieceKeeps(rest);
      JoinAppend(out, Piece(rest));
      NonSpacesAppend(Join(out), Join(Piece(rest)));
    }
  }

  // ---------- cuttings ----------

  lemma FirstEndExtend(a: string, b: string)
    requires FirstEnd(a).Some?
    ensures FirstEnd(a + b) == FirstEnd(a)
  {
    var k := FirstEnd(a).value;
    FirstEndSplits(a);
    assert (a + b)[..k] == a[..k];
    FirstEndIs(a + b, k);
  }

  /** Cutting a text, then cutting what is left of it with more text behind, is cutting it all at once. */
  lemma {:induction false} CutAppend(a: string, b: string)
    ensures var (out, rest) := Cut(a);
            Cut(a + b) == (out + Cut(rest + b).0, Cut(rest + b).1)
    decreases |a|
  {
    if FirstEnd(a).None? {
      assert [] + Cut(a + b).0 == Cut(a + b).0;
    } else {
      var k := FirstEnd(a).value;
      FirstEndExtend(a, b);
      assert (a + b)[..k + 1] == a[..k + 1] && (a + b)[k + 1..] == a[k + 1..] + b;
      CutAppend(a[k + 1..], b);
      var (out, rest) := Cut(a[k + 1..]);
      Assoc(Piece(a[..k + 1]), out, Cut(rest + b).0);
    }
  }

  /** All sentences when the deltas are pushed one by one and the last one is final. */
  function Run(buf: string, deltas: seq<string>): seq<string>
    requires deltas != []
    decreases |deltas|
  {
    if |deltas| == 1 then Pushed(buf, deltas[0], true).0
    else
      var (out, rest) := Pushed(buf, deltas[0], false);
      out + Run(rest, deltas[1..])
  }

  /** However a text is cut into deltas, the sentences are those of one final push of all of it. */
  lemma {:induction false} CuttingIrrelevant(buf: string, deltas: seq<string>)
    requires deltas != []
    ensures Run(buf, deltas) == Pushed(buf, Join(deltas), true).0
    decreases |deltas|
  {
    var first, others := deltas[0], deltas[1..];
    Assoc(buf, first, Join(others));
    if others == [] {
      assert buf + Join(deltas) == buf + first;
    } else {
      CuttingIrrelevant(Cut(buf + first).1, others);
      CutAppend(buf + first, Join(others));
      var (out, rest) := Cut(buf + first);
      var (more, left) := Cut(rest + Join(others));
      Assoc(out, more, Piece(left));
    }
  }
}
