/**
  Streaming use of the extractor: what was read stays read when more bytes arrive, and a
  text fed chunk by chunk through ProcessStreamDelta shows what one scan of the whole shows.
 */
module JsonStream {
  import opened Wrappers
  import opened ByteStrings
  import opened JsonScan
  import opened JsonGrammar

  // ---------- stability under extension ----------

  /** g is a possible later answer once f has been given. */
  predicate Leads(f: Found, g: Found) {
    match f
    case Absent => true
    case Pending => !g.Absent?
    case NotString => g.NotString?
    case Partial(body) => (g.Partial? || g.Complete?) && body <= g.body
    case Complete(body) => g == f
  }

  lemma {:induction false} QuoteExtend(s: Bytes, t: Bytes, escaped: bool)
    ensures match QuoteAt(s, escaped)
            case Some(n) => QuoteAt(s + t, escaped) == Some(n)
            case None => QuoteAt(s + t, escaped).Some? ==> QuoteAt(s + t, escaped).value >= |s|
    decreases |s|
  {
    if s != [] {
      assert (s + t)[1..] == s[1..] + t;
      QuoteExtend(s[1..], t, !escaped && s[0] == BACKSLASH);
    }
  }

  lemma {:induction false} CloseExtend(k: Kind, c: Cursor, s: Bytes, t: Bytes)
    ensures match CloseAt(k, c, s)
            case Some(n) => CloseAt(k, c, s + t) == Some(n)
            case None => CloseAt(k, c, s + t).Some? ==> CloseAt(k, c, s + t).value > |s|
    decreases |s|
  {
    if s != [] {
      assert (s + t)[1..] == s[1..] + t;
      CloseExtend(k, Step(k, c, s[0]), s[1..], t);
    }
  }

  lemma {:induction false} DelimiterExtend(s: Bytes, t: Bytes)
    requires DelimiterAt(s) < |s|
    ensures DelimiterAt(s + t) == DelimiterAt(s)
  {
    if s[0] != COMMA && s[0] != RBRACE {
      assert (s + t)[1..] == s[1..] + t;
      DelimiterExtend(s[1..], t);
    }
  }

  /** A value that ended before the end of the input ends there for ever. */
  lemma ValueEndExtend(s: Bytes, t: Bytes)
    requires s != [] && ValueEnd(s).Some?
    requires s[0] in {QUOTE, LBRACE, LBRACKET} || ValueEnd(s).value < |s|
    ensures ValueEnd(s + t) == ValueEnd(s)
  {
    assert (s + t)[1..] == s[1..] + t;
    QuoteExtend(s[1..], t, false);
    CloseExtend(BRACES, START, s, t);
    CloseExtend(SQUARES, START, s, t);
    if s[0] !in {QUOTE, LBRACE, LBRACKET} {
      DelimiterExtend(s, t);
    }
  }

  lemma {:induction false} ExtractExtend(decode: Bytes -> Bytes, s: Bytes, t: Bytes)
    ensures Leads(Extract(decode, s), Extract(decode, s + t))
    decreases |s|
  {
    var u := SkipWs(s);
    if u != [] {
      SkipWsExtend(s, t);
      var w := u + t;
      assert w[1..] == u[1..] + t;
      if u[0] != RBRACE {
        if u[0] != QUOTE {
          ExtractExtend(decode, u[1..], t);
        } else {
          QuoteExtend(u[1..], t, false);
          match QuoteAt(u[1..], false)
          case None =>
          case Some(n) =>
            assert w[1..n + 1] == u[1..n + 1] && w[n + 2..] == u[n + 2..] + t;
            AfterKeyExtend(decode, decode(u[1..n + 1]) == MESSAGE, u[n + 2..], t);
        }
      }
    }
  }

  lemma {:induction false} AfterKeyExtend(decode: Bytes -> Bytes, wanted: bool, s: Bytes, t: Bytes)
    ensures Leads(AfterKey(decode, wanted, s), AfterKey(decode, wanted, s + t))
    decreases |s|
  {
    var u := SkipWs(s);
    if u != [] {
      SkipWsExtend(s, t);
      assert (u + t)[1..] == u[1..] + t;
      var v := SkipWs(u[1..]);
      if u[0] == COLON && v != [] {
        SkipWsExtend(u[1..], t);
        if wanted {
          AtMessageExtend(v, t);
        } else if ValueEnd(v).Some? {
          var m := ValueEnd(v).value;
          if m == |v| && v[0] !in {QUOTE, LBRACE, LBRACKET} {
            assert Extract(decode, v[m..]) == Absent;
          } else {
            ValueEndExtend(v, t);
            assert (v + t)[m..] == v[m..] + t;
            ExtractExtend(decode, v[m..], t);
          }
        }
      }
    }
  }

  lemma AtMessageExtend(v: Bytes, t: Bytes)
    requires v != []
    ensures Leads(AtMessage(v), AtMessage(v + t))
  {
    var w := v + t;
    assert w[1..] == v[1..] + t;
    QuoteExtend(v[1..], t, false);
    if v[0] == QUOTE {
      match QuoteAt(v[1..], false)
      case Some(m) =>
        assert w[1..m + 1] == v[1..m + 1];
      case None =>
        if QuoteAt(w[1..], false).Some? {
          var m := QuoteAt(w[1..], false).value;
          assert v[1..] <= w[1..m + 1];
        }
    }
  }

  /** An object prefix only grows, and not at all once it is complete. */
  lemma FirstObjectExtend(s: Bytes, t: Bytes)
    requires s != [] && s[0] == LBRACE
    ensures var p, q := FirstObject(s), FirstObject(s + t);
            p.prefix <= q.prefix && p.prefix != [] && (p.complete ==> q == p)
  {
    CloseExtend(BRACES, START, s, t);
    match CloseAt(BRACES, START, s)
    case Some(n) => assert (s + t)[..n] == s[..n];
    case None =>
  }

  lemma {:induction false} FromBraceExtend(s: Bytes, t: Bytes)
    requires FromBrace(s) != []
    ensures FromBrace(s + t) == FromBrace(s) + t
  {
    if s[0] != LBRACE {
      assert (s + t)[1..] == s[1..] + t;
      FromBraceExtend(s[1..], t);
    }
  }

  /**
    Whatever arrives later, a complete message stays as it is, the body of an open message is
    a prefix of every later body, a message that is not a string stays one, and a message
    that was seen does not disappear. Once the object itself is complete, nothing changes.
   */
  lemma StreamStable(decode: Bytes -> Bytes, raw: Bytes, more: Bytes)
    ensures Leads(StreamFound(decode, raw), StreamFound(decode, raw + more))
    ensures FirstObject(FromBrace(raw)).complete ==>
              FirstObject(FromBrace(raw + more)) == FirstObject(FromBrace(raw))
              && StreamFound(decode, raw + more) == StreamFound(decode, raw)
  {
    var s := FromBrace(raw);
    if s != [] {
      FromBraceExtend(raw, more);
      FirstObjectExtend(s, more);
      var p, q := FirstObject(s).prefix, FirstObject(s + more).prefix;
      var grown := q[|p|..];
      assert q == p + grown && q[1..] == p[1..] + grown;
      ExtractExtend(decode, p[1..], grown);
    }
  }

  lemma LeadsTransitive(f: Found, g: Found, h: Found)
    requires Leads(f, g) && Leads(g, h)
    ensures Leads(f, h)
  {
  }

  /**
    The answers given while chunk after chunk arrives: each leads to every later one, so over a
    whole stream a shown body only grows until it is complete, and then stays.
   */
  lemma {:induction false} AnswersAdvance(decode: Bytes -> Bytes, chunks: seq<Bytes>, i: nat, j: nat)
    requires i <= j <= |chunks|
    ensures Leads(StreamFound(decode, Join(chunks[..i])), StreamFound(decode, Join(chunks[..j])))
    decreases j - i
  {
    if i < j {
      var before, now := chunks[..j - 1], chunks[j - 1];
      AnswersAdvance(decode, chunks, i, j - 1);
      assert chunks[..j] == before + [now];
      JoinSnoc(before, now);
      StreamStable(decode, Join(before), now);
      LeadsTransitive(StreamFound(decode, Join(chunks[..i])), StreamFound(decode, Join(before)),
                      StreamFound(decode, Join(chunks[..j])));
    }
  }

  /**
    While a well-formed object is still arriving, no part of it is ever misread: what is
    reported for any cut-off text is on the way to the answer for the whole object. In
    particular any body shown so far is a prefix of the true one.
   */
  lemma CutObjectNeverMisread(decode: Bytes -> Bytes, noise: Bytes, gap: Bytes, m: Members, junk: Bytes, cut: nat)
    requires LBRACE !in noise && AllWs(gap) && ValidMembers(m)
    requires cut <= |noise + (PrintValue(Obj(gap, m)) + junk)|
    ensures Leads(StreamFound(decode, (noise + (PrintValue(Obj(gap, m)) + junk))[..cut]), FirstMessage(decode, m))
  {
    var whole := noise + (PrintValue(Obj(gap, m)) + junk);
    StreamStable(decode, whole[..cut], whole[cut..]);
    assert whole[..cut] + whole[cut..] == whole;
    ExtractorCorrect(decode, noise, gap, m, junk);
  }

  // ---------- the accumulator ----------

  /** A control frame (function call, token usage) recognised in a single chunk. */
  datatype Event = Event(kind: Bytes, json: Bytes)

  /**
    The library calls the accumulator makes: the lossy escape decoder, trimming of spaces,
    and the "type" of an unmarshalled object, if it is a non-empty string.
   */
  datatype Library = Library(decode: Bytes -> Bytes, trim: Bytes -> Bytes, eventType: Bytes -> Option<Bytes>)

  /** The fields of streamAccumulator. */
  datatype Accumulator = Accumulator(raw: Bytes, display: Bytes, done: bool)

  const FRESH := Accumulator([], [], false)

  datatype Delta =
    | Structured(event: Event)
    | Text(text: Bytes, complete: bool)
    | Failed(text: Bytes)

  /** A chunk that is a control frame by itself: a complete object with a "type". */
  function StructuredEvent(lib: Library, chunk: Bytes): Option<Event> {
    var first := FirstObject(lib.trim(chunk));
    if !first.complete then None
    else match lib.eventType(first.prefix)
      case None => None
      case Some(kind) => Some(Event(kind, first.prefix))
  }

  /** One text chunk, that is, neither empty nor a control frame. */
  function Feed(decode: Bytes -> Bytes, a: Accumulator, chunk: Bytes): (Accumulator, Delta) {
    if a.raw == [] && LBRACE !in chunk then
      var display := a.display + chunk;
      (a.(display := display), Text(display, false))
    else if a.done then
      (a, Text(a.display, true))
    else
      var raw := a.raw + chunk;
      var t := Report(decode, StreamFound(decode, raw));
      if t.isError then (a.(raw := raw), Failed(a.display))
      else
        var display := if t.text != [] || t.complete then t.text else a.display;
        (Accumulator(if t.complete then [] else raw, display, t.complete), Text(display, t.complete))
  }

  /** The chunk goes to the accumulator: it is neither empty nor a control frame. */
  predicate IsText(lib: Library, chunk: Bytes) { chunk != [] && StructuredEvent(lib, chunk).None? }

  /** One chunk of any kind; the empty one and control frames leave the accumulator alone. */
  function Delivered(lib: Library, a: Accumulator, chunk: Bytes): (Accumulator, Delta) {
    if chunk == [] then (a, Text(a.display, false))
    else match StructuredEvent(lib, chunk)
      case Some(event) => (a, Structured(event))
      case None => Feed(lib.decode, a, chunk)
  }

  /**
    Which chunks are control frames: a chunk that is a whole object, up to white space and bytes
    behind it, with a "type" is answered by the event and leaves the accumulator alone.
   */
  lemma FrameAnswered(lib: Library, a: Accumulator, chunk: Bytes, gap: Bytes, m: Members, junk: Bytes, kind: Bytes)
    requires AllWs(gap) && ValidMembers(m) && chunk != []
    requires lib.trim(chunk) == PrintValue(Obj(gap, m)) + junk
    requires lib.eventType(PrintValue(Obj(gap, m))) == Some(kind)
    ensures Delivered(lib, a, chunk) == (a, Structured(Event(kind, PrintValue(Obj(gap, m)))))
  {
    hide Feed;
    WholeObject(gap, m, junk);
  }

  lemma WholeObject(gap: Bytes, m: Members, junk: Bytes)
    requires AllWs(gap) && ValidMembers(m)
    ensures FirstObject(PrintValue(Obj(gap, m)) + junk) == ObjectPrefix(PrintValue(Obj(gap, m)), true)
  {
    hide CloseAt;
    var text := PrintValue(Obj(gap, m));
    ObjectEnd(gap, m, junk);
    assert (text + junk)[..|text|] == text;
  }

  /** A text that is cut off inside an object is no whole object. */
  lemma CutObjectOpen(gap: Bytes, m: Members, cut: nat)
    requires AllWs(gap) && ValidMembers(m) && cut < |PrintValue(Obj(gap, m))|
    ensures !FirstObject(PrintValue(Obj(gap, m))[..cut]).complete
  {
    hide CloseAt;
    var text := PrintValue(Obj(gap, m));
    assert text[..cut] + text[cut..] == text && text + [] == text;
    ObjectEnd(gap, m, []);
    CloseExtend(BRACES, START, text[..cut], text[cut..]);
  }

  /**
    And no other chunk is: no event comes out of a chunk that does not begin with a brace, of
    brackets that are not closed, of an object that is cut off, or of a whole object without a
    "type". It is fed as text.
   */
  lemma NoFrame(lib: Library, a: Accumulator, chunk: Bytes, gap: Bytes, m: Members, junk: Bytes, cut: nat)
    requires AllWs(gap) && ValidMembers(m) && chunk != []
    requires var text, trimmed := PrintValue(Obj(gap, m)), lib.trim(chunk);
             || trimmed == [] || trimmed[0] != LBRACE || !FirstObject(trimmed).complete
             || (cut < |text| && trimmed == text[..cut])
             || (trimmed == text + junk && lib.eventType(text).None?)
    ensures Delivered(lib, a, chunk) == Feed(lib.decode, a, chunk)
    ensures !Delivered(lib, a, chunk).1.Structured?
  {
    var text, trimmed := PrintValue(Obj(gap, m)), lib.trim(chunk);
    if trimmed != [] && trimmed[0] == LBRACE {
      hide Feed, FirstObject, PrintValue;
      if trimmed == text + junk && lib.eventType(text).None? {
        WholeObject(gap, m, junk);
      } else if FirstObject(trimmed).complete {
        CutObjectOpen(gap, m, cut);
      }
    }
    FeedIsText(lib.decode, a, chunk);
  }

  lemma FeedIsText(decode: Bytes -> Bytes, a: Accumulator, chunk: Bytes)
    ensures !Feed(decode, a, chunk).1.Structured?
  {
  }

  /** The accumulators of all respondents, as ProcessStreamDelta updates them. */
  class Start {
    var accumulators: map<nat, Accumulator>

    constructor ()
      ensures accumulators == map[]
    {
      accumulators := map[];
    }

    function AccumulatorOf(respId: nat): Accumulator
      reads this
    {
      if respId in accumulators then accumulators[respId] else FRESH
    }

    method ProcessStreamDelta(lib: Library, respId: nat, rawChunk: Bytes) returns (r: Delta)
      modifies this
      ensures accumulators - {respId} == old(accumulators) - {respId}
      ensures (AccumulatorOf(respId), r) == Delivered(lib, old(AccumulatorOf(respId)), rawChunk)
      ensures respId in accumulators <==> respId in old(accumulators) || IsText(lib, rawChunk)
    {
      if rawChunk == [] {
        return Text(AccumulatorOf(respId).display, false);
      }
      var objPrefix, complete := FirstJSONObjectPrefix(lib.trim(rawChunk));
      if complete {
        match lib.eventType(objPrefix)
        case None =>
        case Some(kind) =>
          return Structured(Event(kind, objPrefix));
      }
      var acc := AccumulatorOf(respId);
      if acc.raw == [] && LBRACE !in rawChunk {
        acc := acc.(display := acc.display + rawChunk);
        accumulators := accumulators[respId := acc];
        return Text(acc.display, false);
      }
      if acc.done {
        accumulators := accumulators[respId := acc];
        return Text(acc.display, true);
      }
      acc := acc.(raw := acc.raw + rawChunk);
      var t := ExtractStreamText(lib.decode, acc.raw);
      if t.isError {
        accumulators := accumulators[respId := acc];
        return Failed(acc.display);
      }
      if t.text != [] || t.complete {
        acc := acc.(display := t.text);
      }
      if t.complete {
        acc := acc.(done := true, raw := []);
      }
      accumulators := accumulators[respId := acc];
      return Text(acc.display, acc.done);
    }

    method ResetStreamAccumulator(respId: nat)
      modifies this
      ensures accumulators == old(accumulators) - {respId}
      ensures AccumulatorOf(respId) == FRESH
    {
      accumulators := accumulators - {respId};
    }
  }

  // ---------- delivering a stream in chunks ----------

  function DeliverAll(lib: Library, a: Accumulator, chunks: seq<Bytes>): Accumulator
    decreases |chunks|
  {
    if chunks == [] then a
    else Delivered(lib, DeliverAll(lib, a, chunks[..|chunks| - 1]), chunks[|chunks| - 1]).0
  }

  /** The chunks of a stream that carry text. */
  function TextChunks(lib: Library, chunks: seq<Bytes>): seq<Bytes> {
    if chunks == [] then []
    else
      var init, last := TextChunks(lib, chunks[..|chunks| - 1]), chunks[|chunks| - 1];
      if IsText(lib, last) then init + [last] else init
  }

  function FeedAll(decode: Bytes -> Bytes, a: Accumulator, chunks: seq<Bytes>): Accumulator
    decreases |chunks|
  {
    if chunks == [] then a
    else Feed(decode, FeedAll(decode, a, chunks[..|chunks| - 1]), chunks[|chunks| - 1]).0
  }

  /** A stream leaves what its text chunks leave. */
  lemma {:induction false} DeliverIsFeed(lib: Library, a: Accumulator, chunks: seq<Bytes>)
    ensures DeliverAll(lib, a, chunks) == FeedAll(lib.decode, a, TextChunks(lib, chunks))
    decreases |chunks|
  {
    if chunks != [] {
      hide Feed, StructuredEvent;
      var init, last := chunks[..|chunks| - 1], chunks[|chunks| - 1];
      DeliverIsFeed(lib, a, init);
      var texts := TextChunks(lib, init);
      assert (texts + [last])[..|texts|] == texts;
    }
  }

  /** Where no chunk is empty or a control frame by itself, the text chunks are all chunks. */
  lemma {:induction false} AllText(lib: Library, chunks: seq<Bytes>)
    requires forall i | 0 <= i < |chunks| :: IsText(lib, chunks[i])
    ensures TextChunks(lib, chunks) == chunks
  {
    if chunks != [] {
      AllText(lib, chunks[..|chunks| - 1]);
    }
  }

  /**
    Once the decoder shows some text for a body, it shows some text for every longer body.
    Needed only for what is shown before the message is complete.
   */
  ghost predicate KeepsText(decode: Bytes -> Bytes) {
    forall b: Bytes, c: Bytes :: b <= c && decode(b) != [] ==> decode(c) != []
  }

  /** The first of the text chunks brings a brace, and the message is not complete before the last. */
  ghost predicate UpToCompletion(decode: Bytes -> Bytes, chunks: seq<Bytes>) {
    && |chunks| > 0
    && LBRACE in chunks[0]
    && !StreamFound(decode, Join(chunks[..|chunks| - 1])).Complete?
  }

  lemma JoinLast(chunks: seq<Bytes>)
    requires |chunks| > 0
    ensures Join(chunks) == Join(chunks[..|chunks| - 1]) + chunks[|chunks| - 1]
  {
    JoinSnoc(chunks[..|chunks| - 1], chunks[|chunks| - 1]);
    assert chunks == chunks[..|chunks| - 1] + [chunks[|chunks| - 1]];
  }

  /** The main result below for a stream that consists of text chunks only. */
  lemma {:induction false} TextEqualsOneShot(decode: Bytes -> Bytes, chunks: seq<Bytes>)
    requires UpToCompletion(decode, chunks)
    ensures var f := StreamFound(decode, Join(chunks));
            var t := Report(decode, f);
            var before := FeedAll(decode, FRESH, chunks[..|chunks| - 1]);
            var a := FeedAll(decode, FRESH, chunks);
            && (f.Complete? ==> a == Accumulator([], t.text, true))
            && (!f.Complete? ==> a.raw == Join(chunks) && !a.done)
            && (KeepsText(decode) ==> a.display == t.text)
            && Feed(decode, before, chunks[|chunks| - 1]).1
               == if t.isError then Failed(a.display) else Text(a.display, t.complete)
    decreases |chunks|
  {
    var last := |chunks| - 1;
    var init := chunks[..last];
    JoinLast(chunks);
    if last > 0 {
      OpenBefore(decode, chunks);
      TextEqualsOneShot(decode, init);
      StreamStable(decode, Join(init), chunks[last]);
      assert chunks[0] == init[0];
      BraceInJoin(init);
      if KeepsText(decode) {
        ShownStaysShown(decode, StreamFound(decode, Join(init)), StreamFound(decode, Join(chunks)));
      }
    } else {
      assert Join(init) == [];
    }
  }

  lemma OpenBefore(decode: Bytes -> Bytes, chunks: seq<Bytes>)
    requires UpToCompletion(decode, chunks) && |chunks| > 1
    ensures UpToCompletion(decode, chunks[..|chunks| - 1])
  {
    var init := chunks[..|chunks| - 1];
    JoinLast(init);
    StreamStable(decode, Join(init[..|init| - 1]), init[|init| - 1]);
  }

  lemma BraceInJoin(chunks: seq<Bytes>)
    requires |chunks| > 0 && LBRACE in chunks[0]
    ensures Join(chunks) != []
  {
  }

  /** A blank answer after a non-blank one cannot happen, so keeping the old display is harmless. */
  lemma ShownStaysShown(decode: Bytes -> Bytes, f: Found, g: Found)
    requires KeepsText(decode) && Leads(f, g) && !f.Complete?
    ensures Report(decode, f).text != [] ==> Report(decode, g).text != [] && !Report(decode, g).isError
  {
  }

  /** What the stream has shown by now, given what one extraction of its joined text chunks finds. */
  ghost predicate ShowsOneShot(decode: Bytes -> Bytes, texts: seq<Bytes>, a: Accumulator) {
    var f := StreamFound(decode, Join(texts));
    && (f.Complete? ==> a == Accumulator([], Report(decode, f).text, true))
    && (!f.Complete? ==> a.raw == Join(texts) && !a.done)
    && (KeepsText(decode) ==> a.display == Report(decode, f).text)
  }

  /**
    Delivering a stream in chunks equals one extraction of its text chunks joined, whatever
    empty chunks and control frames come in between. A completed message is displayed decoded
    and ends accumulation; until then the joined text is what is accumulated, and (with a
    decoder that keeps text) the display is what the one extraction shows. The delta of a last
    chunk that is text carries the completion flag and the error of that extraction.
   */
  lemma FeedEqualsOneShot(lib: Library, chunks: seq<Bytes>)
    requires UpToCompletion(lib.decode, TextChunks(lib, chunks))
    ensures ShowsOneShot(lib.decode, TextChunks(lib, chunks), DeliverAll(lib, FRESH, chunks))
    ensures |chunks| > 0
    ensures var last := chunks[|chunks| - 1];
            var t := Report(lib.decode, StreamFound(lib.decode, Join(TextChunks(lib, chunks))));
            var display := DeliverAll(lib, FRESH, chunks).display;
            IsText(lib, last) ==>
              Delivered(lib, DeliverAll(lib, FRESH, chunks[..|chunks| - 1]), last).1
              == if t.isError then Failed(display) else Text(display, t.complete)
  {
    hide Feed, StructuredEvent, StreamFound, Report, KeepsText;
    var texts := TextChunks(lib, chunks);
    DeliverIsFeed(lib, FRESH, chunks);
    TextEqualsOneShot(lib.decode, texts);
    var init, last := chunks[..|chunks| - 1], chunks[|chunks| - 1];
    if IsText(lib, last) {
      DeliverIsFeed(lib, FRESH, init);
      assert texts[..|texts| - 1] == TextChunks(lib, init) && texts[|texts| - 1] == last;
    }
  }

  /**
    Delivering a well-formed object shows its message, however its text is cut: if the stream is
    complete at its last text chunk, the display is the decoded body of the first top-level
    "message" of the object. The last chunk may bring any bytes that follow the object.
   */
  lemma FeedShowsMessage(lib: Library, chunks: seq<Bytes>, noise: Bytes, gap: Bytes, m: Members,
                         junk: Bytes, rest: Bytes)
    requires LBRACE !in noise && AllWs(gap) && ValidMembers(m)
    requires UpToCompletion(lib.decode, TextChunks(lib, chunks))
    requires Join(TextChunks(lib, chunks)) + rest == noise + (PrintValue(Obj(gap, m)) + junk)
    requires StreamFound(lib.decode, Join(TextChunks(lib, chunks))).Complete?
    ensures FirstMessage(lib.decode, m).Complete?
    ensures DeliverAll(lib, FRESH, chunks) == Accumulator([], lib.decode(FirstMessage(lib.decode, m).body), true)
  {
    hide Feed, StructuredEvent, StreamFound;
    FeedEqualsOneShot(lib, chunks);
    StreamStable(lib.decode, Join(TextChunks(lib, chunks)), rest);
    ExtractorCorrect(lib.decode, noise, gap, m, junk);
  }

  /** A stream of text without braces is shown as it is, and never counts as complete. */
  lemma {:induction false} PlainShown(lib: Library, chunks: seq<Bytes>)
    requires forall c | c in chunks :: LBRACE !in c
    ensures DeliverAll(lib, FRESH, chunks) == Accumulator([], Join(TextChunks(lib, chunks)), false)
  {
    if chunks != [] {
      hide StructuredEvent;
      var init, last := chunks[..|chunks| - 1], chunks[|chunks| - 1];
      PlainShown(lib, init);
      JoinSnoc(TextChunks(lib, init), last);
    }
  }

  /**
    Every delta of text tells what is displayed by then, and is complete exactly if the message
    is, except that the text appended after completion comes as an incomplete delta.
   */
  lemma DeltaTells(lib: Library, a: Accumulator, chunk: Bytes)
    ensures var (b, delta) := Delivered(lib, a, chunk);
            match delta
            case Structured(_) => b == a
            case Failed(text) => text == b.display == a.display
            case Text(text, complete) =>
              text == b.display
              && (complete <==> b.done && chunk != [] && (a.raw != [] || LBRACE in chunk))
    ensures a.done ==> Delivered(lib, a, chunk).0.done
  {
    hide StructuredEvent, StreamFound, Report;
  }

  // ---------- what is shown while the message arrives ----------

  /** The text of an object up to and including i bytes of the body of its first message. */
  function UpToBody(gap: Bytes, before: Members, m: Members, i: nat): Bytes
    requires m.Member? && m.value.Str? && i <= |m.value.body|
  {
    [LBRACE] + (gap + (PrintBefore(before) + OpenMember(m, i)))
  }

  lemma CloseNever(gap: Bytes, before: Members, m: Members, i: nat)
    requires AllWs(gap) && ValidMembers(before) && ValidMembers(m)
    requires m.Member? && m.value.Str? && i <= |m.value.body|
    ensures FirstObject(UpToBody(gap, before, m, i)) == ObjectPrefix(UpToBody(gap, before, m, i), false)
  {
    hide Walk;
    var inner := gap + (PrintBefore(before) + OpenMember(m, i));
    WalkBefore(BRACES, 1, before);
    WalkGap(BRACES, 1, gap);
    WalkOpenMember(BRACES, 1, m, i);
    WalkAppend(BRACES, At(1), PrintBefore(before), OpenMember(m, i));
    WalkAppend(BRACES, At(1), gap, PrintBefore(before) + OpenMember(m, i));
    CloseAfterWalk(BRACES, At(1), inner, []);
    assert inner + [] == inner && UpToBody(gap, before, m, i)[1..] == inner;
  }

  /**
    While the body of the message arrives it is shown: for every object, every noise in front,
    and every cut inside that body, the extraction is the decoded part that is there.
   */
  lemma OpenMessageShown(decode: Bytes -> Bytes, noise: Bytes, gap: Bytes, before: Members, m: Members, i: nat)
    requires LBRACE !in noise && AllWs(gap) && ValidMembers(before) && ValidMembers(m)
    requires FirstMessage(decode, before) == Absent
    requires m.Member? && decode(m.key) == MESSAGE && m.value.Str? && i <= |m.value.body|
    ensures StreamFound(decode, noise + UpToBody(gap, before, m, i)) == Partial(m.value.body[..i])
  {
    hide FirstObject, Extract;
    var s := UpToBody(gap, before, m, i);
    FromBraceAfter(noise, s);
    CloseNever(gap, before, m, i);
    assert s[1..] == gap + (PrintBefore(before) + OpenMember(m, i));
    ExtractSkips(decode, gap, PrintBefore(before) + OpenMember(m, i));
    ExtractBefore(decode, before, OpenMember(m, i));
    ExtractOpenMember(decode, m, i);
  }

  /** What the extraction returns for an object: its text, whether it is complete, and whether it is an error. */
  lemma ObjectText(decode: Bytes -> Bytes, noise: Bytes, gap: Bytes, m: Members, junk: Bytes)
    requires LBRACE !in noise && AllWs(gap) && ValidMembers(m)
    ensures var t := Report(decode, StreamFound(decode, noise + (PrintValue(Obj(gap, m)) + junk)));
            match FirstMessage(decode, m)
            case Complete(body) => t == StreamText(decode(body), true, false)
            case NotString => t == StreamText([], false, true)
            case _ => t == StreamText([], false, false)
  {
    hide StreamFound;
    ExtractorCorrect(decode, noise, gap, m, junk);
    FoundOfObject(decode, m);
  }

  lemma {:induction false} FoundOfObject(decode: Bytes -> Bytes, m: Members)
    ensures !FirstMessage(decode, m).Partial?
  {
    if m.Member? {
      FoundOfObject(decode, m.rest);
    }
  }

  /** What it returns while the body arrives: the decoded part, neither complete nor an error. */
  lemma OpenText(decode: Bytes -> Bytes, noise: Bytes, gap: Bytes, before: Members, m: Members, i: nat)
    requires LBRACE !in noise && AllWs(gap) && ValidMembers(before) && ValidMembers(m)
    requires FirstMessage(decode, before) == Absent
    requires m.Member? && decode(m.key) == MESSAGE && m.value.Str? && i <= |m.value.body|
    ensures Report(decode, StreamFound(decode, noise + UpToBody(gap, before, m, i)))
            == StreamText(decode(m.value.body[..i]), false, false)
  {
    hide StreamFound;
    OpenMessageShown(decode, noise, gap, before, m, i);
  }

  /** What was shown before the object stays while nothing of its message is there. */
  lemma ShownStays(decode: Bytes -> Bytes, shown: Bytes, noise: Bytes, gap: Bytes, before: Members, m: Members)
    requires LBRACE !in noise && AllWs(gap) && ValidMembers(before) && ValidMembers(m)
    requires FirstMessage(decode, before) == Absent
    requires m.Member? && decode(m.key) == MESSAGE && m.value.Str? && decode([]) == []
    ensures var chunk := noise + UpToBody(gap, before, m, 0);
            Feed(decode, Accumulator([], shown, false), chunk) ==
              (Accumulator(chunk, shown, false), Text(shown, false))
  {
    var chunk := noise + UpToBody(gap, before, m, 0);
    OpenText(decode, noise, gap, before, m, 0);
    hide StreamFound, Report;
    assert m.value.body[..0] == [] && [] + chunk == chunk;
    assert chunk[|noise|] == LBRACE;
  }

  // ---------- after completion ----------

  /** After completion no chunk reopens the message, and the display is only ever appended to. */
  lemma {:induction false} DisplayOnlyGrows(lib: Library, a: Accumulator, chunks: seq<Bytes>)
    requires a.done && a.raw == []
    ensures var b := DeliverAll(lib, a, chunks); b.done && b.raw == [] && a.display <= b.display
    decreases |chunks|
  {
    if chunks != [] {
      hide StructuredEvent, StreamFound;
      DisplayOnlyGrows(lib, a, chunks[..|chunks| - 1]);
    }
  }

  /**
    The display does not freeze when the message completes: a later text chunk without a
    brace is appended to it. It stays as it was exactly when every later text chunk has one.
   */
  lemma {:induction false} FrozenIffBraces(lib: Library, a: Accumulator, chunks: seq<Bytes>)
    requires a.done && a.raw == []
    ensures DeliverAll(lib, a, chunks).display == a.display
            <==> forall c | c in chunks && IsText(lib, c) :: LBRACE in c
    decreases |chunks|
  {
    if chunks != [] {
      hide StructuredEvent, StreamFound;
      var init, last := chunks[..|chunks| - 1], chunks[|chunks| - 1];
      FrozenIffBraces(lib, a, init);
      DisplayOnlyGrows(lib, a, init);
      assert forall c :: c in chunks <==> c in init || c == last by {
        assert chunks == init + [last];
      }
    }
  }

  /**
    A stream at which freezing fails, for every object whose message is a string: the object
    arrives as one text chunk and completes, and a later text chunk without a brace is shown too.
   */
  lemma ThawedBy(lib: Library, gap: Bytes, m: Members, later: Bytes)
    requires AllWs(gap) && ValidMembers(m) && FirstMessage(lib.decode, m).Complete?
    requires IsText(lib, PrintValue(Obj(gap, m))) && IsText(lib, later) && LBRACE !in later
    ensures var text := PrintValue(Obj(gap, m));
            var shown := lib.decode(FirstMessage(lib.decode, m).body);
            && DeliverAll(lib, FRESH, [text]) == Accumulator([], shown, true)
            && DeliverAll(lib, FRESH, [text, later]) == Accumulator([], shown + later, true)
            && shown + later != shown
  {
    hide StructuredEvent, StreamFound, Extract;
    var text := PrintValue(Obj(gap, m));
    OneText(lib, text);
    assert text + [] == text && [] + (text + []) == text;
    ExtractorCorrect(lib.decode, [], gap, m, []);
    FeedShowsMessage(lib, [text], [], gap, m, [], []);
    ThenText(lib, text, later);
  }

  /** A stream of one text chunk with a brace. */
  lemma OneText(lib: Library, text: Bytes)
    requires IsText(lib, text) && LBRACE in text
    ensures TextChunks(lib, [text]) == [text] && Join([text]) == text
    ensures UpToCompletion(lib.decode, [text])
  {
    hide StructuredEvent;
    assert [text][..0] == [] && TextChunks(lib, []) == [] && [] + [text] == [text];
    assert Join([text]) == text + Join<byte>([]) == text;
    NothingFound(lib.decode);
  }

  /** A second text chunk without a brace, after the first has completed a message. */
  lemma ThenText(lib: Library, text: Bytes, later: Bytes)
    requires var a := DeliverAll(lib, FRESH, [text]); a.done && a.raw == []
    requires IsText(lib, later) && LBRACE !in later
    ensures var shown := DeliverAll(lib, FRESH, [text]).display;
            DeliverAll(lib, FRESH, [text, later]) == Accumulator([], shown + later, true)
  {
    hide StructuredEvent, StreamFound;
    assert [text, later][..1] == [text];
  }

  lemma NothingFound(decode: Bytes -> Bytes)
    ensures StreamFound(decode, Join([])) == Absent
  {
  }

  // ---------- the smallest streams ----------

  /** A library at which no chunk is a control frame, and which changes nothing. */
  const BARE := Library(raw => raw, raw => raw, raw => None)

  /** The object {"message":"a"}, as a member list and as bytes, and the same without its last brace. */
  const SMALL: Members := Member([], MESSAGE, [], [], Str([97]), [], NoMembers)
  const SMALL_TEXT: Bytes := [LBRACE] + (SMALL_MEMBERS + [RBRACE])
  const SMALL_MEMBERS: Bytes := Quoted(MESSAGE) + [COLON, QUOTE, 97, QUOTE]

  lemma SmallPrinted()
    ensures PrintMembers(SMALL) == SMALL_MEMBERS && PrintValue(Obj([], SMALL)) == SMALL_TEXT
    ensures ValidMembers(SMALL)
  {
    MessageIsBody();
    SmallMember();
    hide PrintMembers;
    assert PrintValue(Obj([], SMALL)) == [LBRACE] + (([] + PrintMembers(SMALL)) + [RBRACE]);
    assert [] + SMALL_MEMBERS == SMALL_MEMBERS;
  }

  lemma SmallMember()
    ensures PrintMembers(SMALL) == SMALL_MEMBERS
  {
    hide Quoted;
    SmallAfterKey();
    assert [] + (Quoted(MESSAGE) + PrintAfterKey(SMALL)) == Quoted(MESSAGE) + PrintAfterKey(SMALL);
  }

  lemma SmallAfterKey()
    ensures PrintAfterKey(SMALL) == [COLON, QUOTE, 97, QUOTE]
  {
    assert PrintValue(Str([97])) == [QUOTE, 97, QUOTE] && PrintTail(SMALL) == [];
  }

  /** The chunks {"message":"a"} and b show ab. */
  lemma DisplayThaws()
    ensures DeliverAll(BARE, FRESH, [SMALL_TEXT]) == Accumulator([], [97], true)
    ensures DeliverAll(BARE, FRESH, [SMALL_TEXT, [98]]) == Accumulator([], [97, 98], true)
  {
    hide DeliverAll, PrintValue, FirstObject;
    SmallPrinted();
    assert FirstMessage(BARE.decode, SMALL) == Complete([97]);
    assert SMALL_TEXT != [] && IsText(BARE, SMALL_TEXT);
    ThawedBy(BARE, [], SMALL, [98]);
    assert [97 as byte] + [98] == [97, 98];
  }

  lemma SmallOpen()
    ensures FirstObject([LBRACE] + SMALL_MEMBERS) == ObjectPrefix([LBRACE] + SMALL_MEMBERS, false)
  {
    hide Walk;
    var s := [LBRACE] + SMALL_MEMBERS;
    SmallPrinted();
    WalkMembers(BRACES, 1, SMALL);
    CloseAfterWalk(BRACES, At(1), SMALL_MEMBERS, []);
    assert SMALL_MEMBERS + [] == SMALL_MEMBERS && s[1..] == SMALL_MEMBERS;
  }

  /** The object without its last brace is still open, and its message is complete. */
  lemma SmallCut()
    ensures StreamFound(BARE.decode, [LBRACE] + SMALL_MEMBERS) == Complete([97])
  {
    hide FirstObject, Extract, AfterKey;
    var s := [LBRACE] + SMALL_MEMBERS;
    SmallOpen();
    assert s[1..] == SMALL_MEMBERS;
    MessageIsBody();
    var after: Bytes := [COLON, QUOTE, 97, QUOTE];
    ExtractQuotedName(BARE.decode, MESSAGE, after);
    SmallValue();
  }

  lemma SmallValue()
    ensures AfterKey(BARE.decode, true, [COLON, QUOTE, 97, QUOTE]) == Complete([97])
  {
    var u: Bytes := [COLON, QUOTE, 97, QUOTE];
    var v: Bytes := [QUOTE, 97, QUOTE];
    assert u[1..] == v && SkipWs(u) == u && SkipWs(v) == v;
    assert v[1..] == [97, QUOTE] && v[1..][1..] == [QUOTE] && v[1..2] == [97];
    assert QuoteAt(v[1..], false) == Some(1);
  }

  /**
    The end of an object can show up in its own message: the chunks {"message":"a" and } show a},
    although together they are the object {"message":"a"}.
   */
  lemma OwnTailShown()
    ensures DeliverAll(BARE, FRESH, [[LBRACE] + SMALL_MEMBERS, [RBRACE]]) == Accumulator([], [97, RBRACE], true)
    ensures Join([[LBRACE] + SMALL_MEMBERS, [RBRACE]]) == SMALL_TEXT
  {
    hide StreamFound, FirstObject;
    var s := [LBRACE] + SMALL_MEMBERS;
    SmallCut();
    assert s[0] == LBRACE && IsText(BARE, s);
    OneText(BARE, s);
    FeedEqualsOneShot(BARE, [s]);
    ThenText(BARE, s, [RBRACE]);
    assert [97 as byte] + [RBRACE] == [97, RBRACE];
    JoinSnoc([s], [RBRACE]);
    assert [s] + [[RBRACE]] == [s, [RBRACE]];
  }

  lemma MessageIsBody()
    ensures IsBody(MESSAGE) && IsBody([97])
  {
    assert forall i | 0 <= i < |MESSAGE| :: MESSAGE[i] != QUOTE && MESSAGE[i] != BACKSLASH;
    PlainIsBody(MESSAGE);
    PlainIsBody([97]);
  }

  lemma {:induction false} PlainIsBody(s: Bytes)
    requires forall i | 0 <= i < |s| :: s[i] != QUOTE && s[i] != BACKSLASH
    ensures IsBody(s)
  {
    if s != [] {
      PlainIsBody(s[1..]);
    }
  }
}
