/** SentenceChunker (pkg/model/mistral/realtime_pipeline.go): chunks of bounded size for speech synthesis. */
module SentenceChunker {
  import opened Wrappers
  import opened Runes

  const SOFT := 20
  const HARD := 100

  predicate IsBoundary(r: char) { r in {'.', '!', '?', ';', ',', '\n'} }

  /** The first boundary at or after an index. */
  function FirstBoundary(s: string, from: nat): (r: Option<nat>)
    ensures r.Some? ==> r.value < |s|
    decreases |s| - from
  {
    if from >= |s| then None
    else if IsBoundary(s[from]) then Some(from)
    else FirstBoundary(s, from + 1)
  }

  /** Where a long text is cut: after the last space among runes SOFT + 1 to i, or after HARD runes. */
  function HardCut(s: string, i: nat): (c: nat)
    requires i <= HARD < |s|
    ensures SOFT < c <= HARD
  {
    if i <= SOFT then HARD
    else if IsSpace(s[i - 1]) then i
    else HardCut(s, i - 1)
  }

  /** How many runes the next piece takes; None when more input is awaited. */
  function CutPoint(s: string, flush: bool): (r: Option<nat>)
    ensures r.Some? && s != "" ==> 0 < r.value <= |s|
  {
    match FirstBoundary(s, SOFT - 1)
    case Some(k) => Some(k + 1)
    case None =>
      if |s| > HARD then Some(HardCut(s, HARD))
      else if flush then Some(|s|)
      else None
  }

  // ---------- what the cut point is ----------

  predicate NoBoundary(s: string, lo: nat, hi: nat) {
    forall i | lo <= i < hi && i < |s| :: !IsBoundary(s[i])
  }

  predicate NoSpace(s: string, lo: nat, hi: nat) {
    forall i | lo <= i < hi && i < |s| :: !IsSpace(s[i])
  }

  /** The piece ends with its first boundary past the soft limit. */
  predicate BoundaryCut(s: string, c: nat) {
    SOFT <= c <= |s| && IsBoundary(s[c - 1]) && NoBoundary(s, SOFT - 1, c - 1)
  }

  /** The piece ends with the last space within the hard limit, if one lies past the soft limit. */
  predicate SpaceCut(s: string, c: nat) {
    && SOFT < c <= HARD < |s|
    && NoSpace(s, c, HARD)
    && (IsSpace(s[c - 1]) || (c == HARD && NoSpace(s, SOFT, HARD)))
  }

  ghost predicate IsCut(s: string, flush: bool, r: Option<nat>) {
    match r
    case None => !flush && |s| <= HARD && NoBoundary(s, SOFT - 1, |s|)
    case Some(c) =>
      || BoundaryCut(s, c)
      || (NoBoundary(s, SOFT - 1, |s|) && if |s| > HARD then SpaceCut(s, c) else flush && c == |s|)
  }

  lemma FirstBoundaryIs(s: string, from: nat)
    ensures match FirstBoundary(s, from)
            case None => NoBoundary(s, from, |s|)
            case Some(k) => from <= k < |s| && IsBoundary(s[k]) && NoBoundary(s, from, k)
    decreases |s| - from
  {
    if from < |s| && !IsBoundary(s[from]) {
      FirstBoundaryIs(s, from + 1);
    }
  }

  lemma {:induction false} HardCutIs(s: string, i: nat)
    requires SOFT <= i <= HARD < |s| && NoSpace(s, i, HARD)
    ensures SpaceCut(s, HardCut(s, i))
    decreases i
  {
    if i > SOFT && !IsSpace(s[i - 1]) {
      HardCutIs(s, i - 1);
    }
  }

  /** CutPoint is the one the comments above describe, and no other number is. */
  lemma CutPointIs(s: string, flush: bool, r: Option<nat>)
    ensures IsCut(s, flush, r) <==> r == CutPoint(s, flush)
  {
    FirstBoundaryIs(s, SOFT - 1);
    if |s| > HARD {
      HardCutIs(s, HARD);
    }
    OnlyOneCut(s, flush, r, CutPoint(s, flush));
  }

  lemma OnlyOneCut(s: string, flush: bool, r: Option<nat>, q: Option<nat>)
    requires IsCut(s, flush, q)
    ensures IsCut(s, flush, r) ==> r == q
  {
  }

  /** The six boundaries, each of which cuts as the twentieth rune, while no other rune does. */
  lemma BoundariesAre(s: string, r: char)
    requires |s| == 19
    ensures CutPoint(s + [r], false) ==
              if r == '.' || r == '!' || r == '?' || r == ';' || r == ',' || r == '\n' then Some(20) else None
  {
    FirstBoundaryIs(s + [r], SOFT - 1);
    assert (s + [r])[19] == r;
  }

  // ---------- the chunker ----------

  /** The untrimmed pieces a text is cut into, and what is kept. */
  function Taken(text: string, flush: bool): (seq<string>, string)
    decreases |text|
  {
    if text == "" then ([], "")
    else match CutPoint(text, flush)
      case None => ([], text)
      case Some(c) =>
        var (pieces, left) := Taken(Trim(text[c..]), flush);
        ([text[..c]] + pieces, left)
  }

  /** The chunks made from pieces: trimmed, blank ones dropped. */
  function Chunks(pieces: seq<string>): seq<string> {
    if pieces == [] then [] else Piece(pieces[0]) + Chunks(pieces[1..])
  }

  class SentenceChunker {
    var buffer: string

    constructor ()
      ensures buffer == ""
    {
      buffer := "";
    }

    method Push(delta: string) returns (chunks: seq<string>)
      modifies this
      ensures (chunks, buffer) == Pushed(old(buffer), delta)
    {
      if delta == "" {
        return [];
      }
      buffer := buffer + delta;
      chunks := Take(false);
    }

    method Flush() returns (chunks: seq<string>)
      modifies this
      ensures chunks == Chunks(Taken(old(buffer), true).0) && buffer == ""
    {
      TakenLeaves(buffer, true);
      chunks := Take(true);
    }

    method Take(flush: bool) returns (chunks: seq<string>)
      modifies this
      ensures var (pieces, left) := Taken(old(buffer), flush); chunks == Chunks(pieces) && buffer == left
    {
      var text := buffer;
      chunks := [];
      while |text| > 0
        invariant buffer == old(buffer)
        invariant chunks + Chunks(Taken(text, flush).0) == Chunks(Taken(buffer, flush).0)
        invariant Taken(text, flush).1 == Taken(buffer, flush).1
        decreases |text|
      {
        var cut := FindCut(text, flush);
        if cut == -1 {
          assert Taken(text, flush) == ([], text);
          break;
        }
        TakenRound(text, flush, chunks);
        var chunk := Trim(text[..cut]);
        text := Trim(text[cut..]);
        if chunk != "" {
          chunks := chunks + [chunk];
        }
      }
      assert |text| == 0 ==> text == "";
      assert Taken(text, flush) == ([], text);
      assert chunks + Chunks([]) == chunks;
      buffer := text;
    }
  }

  /** One Push: the chunks returned and the new buffer. */
  function Pushed(buffer: string, delta: string): (seq<string>, string) {
    if delta == "" then ([], buffer)
    else var (pieces, left) := Taken(buffer + delta, false); (Chunks(pieces), left)
  }

  lemma TakenRound(text: string, flush: bool, chunks: seq<string>)
    requires text != "" && CutPoint(text, flush).Some?
    ensures var c := CutPoint(text, flush).value;
            var (pieces, left) := Taken(Trim(text[c..]), flush);
            && Taken(text, flush).1 == left
            && chunks + Chunks(Taken(text, flush).0) ==
                 (if Trim(text[..c]) == "" then chunks else chunks + [Trim(text[..c])]) + Chunks(pieces)
  {
    var c := CutPoint(text, flush).value;
    var pieces := Taken(Trim(text[c..]), flush).0;
    assert ([text[..c]] + pieces)[1..] == pieces;
    Assoc(chunks, Piece(text[..c]), Chunks(pieces));
    assert chunks + [] == chunks;
  }

  /** The two searches of take; -1 stands for no cut. */
  method FindCut(runes: string, flush: bool) returns (cut: int)
    requires runes != ""
    ensures CutPoint(runes, flush) == if cut == -1 then None else Some(cut)
    ensures cut == -1 || 0 < cut <= |runes|
  {
    cut := -1;
    for i := 0 to |runes|
      invariant FirstBoundary(runes, SOFT - 1) == FirstBoundary(runes, if i < SOFT - 1 then SOFT - 1 else i)
    {
      if i + 1 < SOFT {
        continue;
      }
      if IsBoundary(runes[i]) {
        return i + 1;
      }
    }
    if |runes| > HARD {
      cut := HARD;
      for i := HARD downto SOFT
        invariant cut == HARD && HardCut(runes, HARD) == HardCut(runes, i)
      {
        if IsSpace(runes[i]) {
          return i + 1;
        }
      }
      return;
    }
    if flush {
      cut := |runes|;
    }
  }

  // ---------- what take does, piece by piece ----------

  /**
    How a text is taken apart: each piece is the start of what remains, cut where IsCut says, and
    what follows it is trimmed before the next one; left is where nothing more can be cut.
   */
  ghost predicate TakenApart(text: string, flush: bool, pieces: seq<string>, left: string)
    decreases |pieces|
  {
    if pieces == [] then left == text && (text == "" || IsCut(text, flush, None))
    else
      && text != "" && pieces[0] <= text && IsCut(text, flush, Some(|pieces[0]|))
      && TakenApart(Trim(text[|pieces[0]|..]), flush, pieces[1..], left)
  }

  /** There is one way to take a text apart, and it is what take does. */
  lemma {:induction false} TakenIs(text: string, flush: bool, pieces: seq<string>, left: string)
    ensures TakenApart(text, flush, pieces, left) <==> (pieces, left) == Taken(text, flush)
    decreases |pieces|
  {
    CutPointIs(text, flush, None);
    if pieces != [] {
      CutPointIs(text, flush, Some(|pieces[0]|));
      if text != "" && CutPoint(text, flush).Some? {
        var c := CutPoint(text, flush).value;
        var (others, _) := Taken(Trim(text[c..]), flush);
        assert Taken(text, flush).0[1..] == others && Taken(text, flush).0[0] == text[..c];
        if pieces[0] == text[..c] {
          TakenIs(Trim(text[c..]), flush, pieces[1..], left);
          assert pieces == [pieces[0]] + pieces[1..];
        }
      }
    }
  }

  /** Every piece that is not blank becomes one chunk, trimmed, in order. */
  lemma {:induction false} ChunksAppend(a: seq<string>, b: seq<string>)
    ensures Chunks(a + b) == Chunks(a) + Chunks(b)
    ensures |b| == 1 ==> Chunks(b) == if Trim(b[0]) == "" then [] else [Trim(b[0])]
  {
    if a == [] {
      assert a + b == b;
    } else {
      assert (a + b)[1..] == a[1..] + b;
      ChunksAppend(a[1..], b);
      Assoc(Piece(a[0]), Chunks(a[1..]), Chunks(b));
    }
  }

  /** One Push, by the text alone. */
  lemma PushIs(buffer: string, delta: string)
    ensures var (chunks, left) := Pushed(buffer, delta);
            if delta == "" then chunks == [] && left == buffer
            else exists pieces :: TakenApart(buffer + delta, false, pieces, left) && chunks == Chunks(pieces)
  {
    hide Taken, TakenApart, Chunks;
    var (pieces, left) := Taken(buffer + delta, false);
    TakenIs(buffer + delta, false, pieces, left);
    if delta != "" {
      assert Pushed(buffer, delta) == (Chunks(pieces), left);
    }
  }

  // ---------- what take leaves and what it emits ----------

  /** After a flush nothing is left; otherwise at most HARD runes with no boundary past the soft limit. */
  lemma {:induction false} TakenLeaves(text: string, flush: bool)
    ensures var left := Taken(text, flush).1;
            if flush then left == "" else |left| <= HARD && NoBoundary(left, SOFT - 1, |left|)
    decreases |text|
  {
    CutPointIs(text, flush, CutPoint(text, flush));
    if text != "" && CutPoint(text, flush).Some? {
      TakenLeaves(Trim(text[CutPoint(text, flush).value..]), flush);
    }
  }

  /** Pieces and rest together keep every rune that is not white space, in order. */
  lemma {:induction false} TakenConserves(text: string, flush: bool)
    ensures var (pieces, left) := Taken(text, flush);
            NonSpaces(Join(Chunks(pieces))) + NonSpaces(left) == NonSpaces(text)
    decreases |text|
  {
    if text != "" && CutPoint(text, flush).Some? {
      var c := CutPoint(text, flush).value;
      var head, tail := text[..c], text[c..];
      assert text == head + tail;
      var (pieces, left) := Taken(Trim(tail), flush);
      TakenConserves(Trim(tail), flush);
      NonSpacesTrim(tail);
      NonSpacesAppend(head, tail);
      ChunksKeep(head, pieces);
      Assoc(NonSpaces(head), NonSpaces(Join(Chunks(pieces))), NonSpaces(left));
    }
  }

  lemma ChunksKeep(head: string, pieces: seq<string>)
    ensures NonSpaces(Join(Chunks([head] + pieces))) == NonSpaces(head) + NonSpaces(Join(Chunks(pieces)))
  {
    assert ([head] + pieces)[1..] == pieces;
    PieceKeeps(head);
    JoinAppend(Piece(head), Chunks(pieces));
    NonSpacesAppend(Join(Piece(head)), Join(Chunks(pieces)));
  }

  /**
    The shape of every piece: it is cut at its first boundary past the soft limit, or has at most
    HARD runes and no such boundary; unless flushing it has at least SOFT runes.
   */
  predicate IsPiece(p: string, flush: bool, max: nat) {
    && 0 < |p| <= max
    && NoBoundary(p, SOFT - 1, |p| - 1)
    && (|p| > HARD ==> IsBoundary(p[|p| - 1]))
    && (!flush ==> |p| >= SOFT)
  }

  lemma CutIsPiece(text: string, flush: bool, c: nat)
    requires text != "" && CutPoint(text, flush) == Some(c)
    ensures IsPiece(text[..c], flush, |text|)
  {
    CutPointIs(text, flush, Some(c));
    var p := text[..c];
    assert forall i | 0 <= i < c :: p[i] == text[i];
  }

  lemma {:induction false} TakenPieces(text: string, flush: bool, max: nat)
    requires |text| <= max
    ensures forall p | p in Taken(text, flush).0 :: IsPiece(p, flush, max)
    decreases |text|
  {
    if text != "" && CutPoint(text, flush).Some? {
      var c := CutPoint(text, flush).value;
      CutIsPiece(text, flush, c);
      TakenPieces(Trim(text[c..]), flush, max);
    }
  }

  /** A chunk comes from a piece of that shape. */
  ghost predicate FromPiece(chunk: string, flush: bool, max: nat) {
    chunk != "" && exists p :: IsPiece(p, flush, max) && chunk == Trim(p)
  }

  lemma {:induction false} ChunksFromPieces(pieces: seq<string>, flush: bool, max: nat)
    requires forall p | p in pieces :: IsPiece(p, flush, max)
    ensures forall c | c in Chunks(pieces) :: FromPiece(c, flush, max)
  {
    if pieces != [] {
      assert pieces[0] in pieces;
      assert forall p | p in pieces[1..] :: p in pieces;
      ChunksFromPieces(pieces[1..], flush, max);
    }
  }

  // ---------- runs ----------

  /** What holds of the buffer between calls. */
  predicate Short(buffer: string) { |buffer| <= HARD && NoBoundary(buffer, SOFT - 1, |buffer|) }

  /**
    One Push on a buffer left by earlier ones: no non-space rune is lost, the buffer stays short,
    no chunk is longer than HARD plus the delta, and one longer than HARD was cut at a boundary.
   */
  lemma {:induction false} PushKeeps(buffer: string, delta: string)
    requires Short(buffer)
    ensures var (chunks, left) := Pushed(buffer, delta);
            && Short(left)
            && NonSpaces(Join(chunks)) + NonSpaces(left) == NonSpaces(buffer + delta)
            && forall c | c in chunks :: FromPiece(c, false, HARD + |delta|)
  {
    if delta == "" {
      assert buffer + delta == buffer && Join<char>([]) == [];
    } else {
      TakenLeaves(buffer + delta, false);
      TakenConserves(buffer + delta, false);
      TakenPieces(buffer + delta, false, HARD + |delta|);
      ChunksFromPieces(Taken(buffer + delta, false).0, false, HARD + |delta|);
    }
  }

  /** All chunks of a run of pushes, and the final buffer. */
  function PushAll(deltas: seq<string>): (seq<string>, string) {
    if deltas == [] then ([], "")
    else
      var (chunks, buffer) := PushAll(deltas[..|deltas| - 1]);
      var (more, left) := Pushed(buffer, deltas[|deltas| - 1]);
      (chunks + more, left)
  }

  /** Over every run of pushes: the buffer is always short and no non-space rune is lost or reordered. */
  lemma {:induction false} RunKeeps(deltas: seq<string>)
    ensures var (chunks, left) := PushAll(deltas);
            Short(left) && NonSpaces(Join(chunks)) + NonSpaces(left) == NonSpaces(Join(deltas))
  {
    hide Pushed, NonSpaces, Short;
    if deltas == [] {
      EmptyRun();
    } else {
      var init, delta := deltas[..|deltas| - 1], deltas[|deltas| - 1];
      RunKeeps(init);
      assert deltas == init + [delta];
      JoinSnoc(init, delta);
      var (chunks, buffer) := PushAll(init);
      PushKeeps(buffer, delta);
      var (more, left) := Pushed(buffer, delta);
      Together(chunks, more, buffer, left, Join(init), delta);
    }
  }

  lemma EmptyRun()
    ensures PushAll([]) == ([], "") && Short("") && NonSpaces(Join([])) + NonSpaces("") == NonSpaces(Join([]))
  {
    assert Join<char>([]) == [];
  }

  lemma Together(chunks: seq<string>, more: seq<string>, buffer: string, left: string, text: string, delta: string)
    requires NonSpaces(Join(chunks)) + NonSpaces(buffer) == NonSpaces(text)
    requires NonSpaces(Join(more)) + NonSpaces(left) == NonSpaces(buffer + delta)
    ensures NonSpaces(Join(chunks + more)) + NonSpaces(left) == NonSpaces(text + delta)
  {
    JoinAppend(chunks, more);
    NonSpacesAppend(Join(chunks), Join(more));
    NonSpacesAppend(buffer, delta);
    NonSpacesAppend(text, delta);
    Assoc(NonSpaces(Join(chunks)), NonSpaces(Join(more)), NonSpaces(left));
    Assoc(NonSpaces(Join(chunks)), NonSpaces(buffer), NonSpaces(delta));
  }

  /**
    A run that ends with Flush emits exactly the non-space runes it was given, and the flush
    itself makes pieces of at most HARD runes.
   */
  lemma FlushedRunKeepsAll(deltas: seq<string>)
    ensures var (chunks, buffer) := PushAll(deltas);
            var last := Chunks(Taken(buffer, true).0);
            && NonSpaces(Join(chunks + last)) == NonSpaces(Join(deltas))
            && forall c | c in last :: FromPiece(c, true, HARD)
  {
    RunKeeps(deltas);
    var (chunks, buffer) := PushAll(deltas);
    var pieces := Taken(buffer, true).0;
    TakenLeaves(buffer, true);
    TakenConserves(buffer, true);
    TakenPieces(buffer, true, HARD);
    ChunksFromPieces(pieces, true, HARD);
    assert buffer + "" == buffer && Join(deltas) + "" == Join(deltas);
    Together(chunks, Chunks(pieces), buffer, "", Join(deltas), "");
  }
}
