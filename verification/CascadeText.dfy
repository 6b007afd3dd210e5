/**
  cascadeTextExtractor (pkg/model/cascade_text.go): turns the raw deltas of an LLM into text
  to be spoken, taking the "message" value out of a JSON envelope while it arrives.
 */
module CascadeText {
  import opened Wrappers
  import opened ByteStrings

  /** The bytes of the quoted member name. */
  const MARKER: Bytes := [QUOTE] + MESSAGE + [QUOTE]

  datatype Mode = Undecided | Plain | JsonMessage | Done

  /** The fields of the extractor. */
  datatype State = State(raw: Bytes, mode: Mode, emitted: nat)

  const START := State([], Undecided, 0)

  function DecodeEscape(b: byte): byte {
    match b
    case 110 => 10
    case 114 => 13
    case 116 => 9
    case 98 => 8
    case 102 => 12
    case _ => b
  }

  /** The text of a body up to its first unescaped quote; an escape without its second byte waits. */
  function Decode(body: Bytes): Bytes {
    if body == [] || body[0] == QUOTE then []
    else if body[0] == BACKSLASH then
      if |body| < 2 then [] else [DecodeEscape(body[1])] + Decode(body[2..])
    else [body[0]] + Decode(body[1..])
  }

  /** The body has an unescaped quote. */
  predicate Closed(body: Bytes) {
    body != [] &&
    (body[0] == QUOTE ||
     (if body[0] == BACKSLASH then |body| >= 2 && Closed(body[2..]) else Closed(body[1..])))
  }

  /** strings.Index. */
  function IndexOf(s: Bytes, pattern: Bytes): (r: Option<nat>)
    ensures r.Some? ==> r.value + |pattern| <= |s|
    decreases |s|
  {
    if |s| < |pattern| then None
    else if s[..|pattern|] == pattern then Some(0)
    else if s == [] then None
    else Shift(IndexOf(s[1..], pattern), 1)
  }

  predicate HasMarker(s: Bytes) { IndexOf(s, MARKER).Some? }

  /** What follows the marker: nothing decisive yet, a value that is no string, or a string body. */
  datatype Opening = NoBody | NotText | Body(body: Bytes)

  function FindBody(s: Bytes): Opening {
    match IndexOf(s, MARKER)
    case None => NoBody
    case Some(m) => AfterMarker(s[m + |MARKER|..])
  }

  function AfterMarker(rest: Bytes): Opening {
    match IndexOf(rest, [COLON])
    case None => NoBody
    case Some(c) =>
      var v := SkipWs(rest[c + 1..]);
      if v == [] then NoBody else if v[0] != QUOTE then NotText else Body(v[1..])
  }

  /** drainJSONMessage: the text that is new, and what is remembered. */
  function Drained(e: State): (State, Bytes) {
    if e.emitted > 0 then Emit(e, e.raw)
    else match FindBody(e.raw)
      case NoBody => (e, [])
      case NotText => (e.(mode := Done), [])
      case Body(body) => Emit(e, body)
  }

  /** Flush drains in JSON mode and does nothing in the others. */
  function Flushed(e: State): (State, Bytes) {
    if e.mode.JsonMessage? then Drained(e) else (e, [])
  }

  function Emit(e: State, body: Bytes): (State, Bytes) {
    var text := Decode(body);
    var mode := if Closed(body) then Done else e.mode;
    if |text| <= e.emitted then (State(body, mode, e.emitted), [])
    else (State(body, mode, |text|), text[e.emitted..])
  }

  function Pushed(trim: Bytes -> Bytes, e: State, delta: Bytes): (State, Bytes) {
    if delta == [] || e.mode.Done? then (e, [])
    else if e.mode.Plain? then (e, if IsControl(trim, delta) then [] else delta)
    else
      var buf := e.raw + delta;
      if e.mode.JsonMessage? || HasMarker(buf) then Drained(State(buf, JsonMessage, e.emitted))
      else if LBRACE in buf then (e.(raw := buf), [])
      else (State([], Plain, e.emitted), buf)
  }

  /** A control frame among plain deltas; trim is strings.TrimSpace. */
  predicate IsControl(trim: Bytes -> Bytes, delta: Bytes) {
    trim(delta) != [] && trim(delta)[0] == LBRACE
  }

  class CascadeTextExtractor {
    var raw: Bytes
    var mode: Mode
    var emitted: nat

    function View(): State
      reads this
    {
      State(raw, mode, emitted)
    }

    constructor ()
      ensures View() == START
    {
      raw, mode, emitted := [], Undecided, 0;
    }

    method Push(trim: Bytes -> Bytes, delta: Bytes) returns (text: Bytes)
      modifies this
      ensures (View(), text) == Pushed(trim, old(View()), delta)
    {
      if |delta| == 0 || mode.Done? {
        return [];
      }
      if mode.Plain? {
        if IsControl(trim, delta) {
          return [];
        }
        return delta;
      }
      raw := raw + delta;
      if mode.JsonMessage? {
        text := DrainJSONMessage(false);
        return;
      }
      if !HasMarker(raw) {
        if LBRACE !in raw {
          mode, text := Plain, raw;
          raw := [];
          return;
        }
        return [];
      }
      mode := JsonMessage;
      text := DrainJSONMessage(false);
    }

    method Flush() returns (text: Bytes)
      modifies this
      ensures (View(), text) == Flushed(old(View()))
    {
      if !mode.JsonMessage? {
        return [];
      }
      text := DrainJSONMessage(true);
    }

    /** force makes a lone trailing backslash be skipped instead of waited for; nothing comes out either way. */
    method DrainJSONMessage(force: bool) returns (increment: Bytes)
      modifies this
      ensures (View(), increment) == Drained(old(View()))
    {
      if emitted == 0 {
        match FindBody(raw)
        case NoBody =>
          return [];
        case NotText =>
          mode := Done;
          return [];
        case Body(body) =>
          raw := body;
      }
      var text, closed := DecodeLoop(raw, force);
      if closed {
        mode := Done;
      }
      if |text| <= emitted {
        return [];
      }
      increment := text[emitted..];
      emitted := |text|;
    }
  }

  /** One round of the loop below: how far it moves and what it adds. */
  lemma DecodeRound(buf: Bytes, i: nat)
    requires i < |buf| && buf[i] != QUOTE
    ensures buf[i] != BACKSLASH ==>
              Decode(buf[i..]) == [buf[i]] + Decode(buf[i + 1..]) && Closed(buf[i..]) == Closed(buf[i + 1..])
    ensures buf[i] == BACKSLASH && i + 1 < |buf| ==>
              && Decode(buf[i..]) == [DecodeEscape(buf[i + 1])] + Decode(buf[i + 2..])
              && Closed(buf[i..]) == Closed(buf[i + 2..])
    ensures buf[i] == BACKSLASH && i + 1 == |buf| ==> Decode(buf[i..]) == [] && !Closed(buf[i..])
  {
    assert buf[i..][1..] == buf[i + 1..];
    if i + 1 < |buf| {
      assert buf[i..][2..] == buf[i + 2..];
    }
  }

  /** The scanning loop of drainJSONMessage. */
  method DecodeLoop(buf: Bytes, force: bool) returns (text: Bytes, closed: bool)
    ensures text == Decode(buf) && closed == Closed(buf)
  {
    text, closed := [], false;
    var i := 0;
    while i < |buf|
      invariant 0 <= i <= |buf|
      invariant Decode(buf) == text + Decode(buf[i..]) && Closed(buf) == Closed(buf[i..])
    {
      var ch := buf[i];
      if ch == QUOTE {
        closed := true;
        return;
      }
      DecodeRound(buf, i);
      if ch == BACKSLASH {
        if i + 1 >= |buf| {
          if !force {
            return;
          }
          i := i + 1;
          continue;
        }
        Assoc(text, [DecodeEscape(buf[i + 1])], Decode(buf[i + 2..]));
        text := text + [DecodeEscape(buf[i + 1])];
        i := i + 2;
      } else {
        Assoc(text, [ch], Decode(buf[i + 1..]));
        text := text + [ch];
        i := i + 1;
      }
    }
  }

  // ---------- growing inputs ----------

  /** More bytes only add to the decoded text, and add nothing once the body is closed. */
  lemma {:induction false} DecodeExtend(body: Bytes, more: Bytes)
    ensures Decode(body) <= Decode(body + more)
    ensures Closed(body) ==> Closed(body + more) && Decode(body + more) == Decode(body)
    decreases |body|
  {
    if body != [] && body[0] != QUOTE {
      if body[0] == BACKSLASH {
        if |body| >= 2 {
          assert (body + more)[2..] == body[2..] + more;
          DecodeExtend(body[2..], more);
        }
      } else {
        assert (body + more)[1..] == body[1..] + more;
        DecodeExtend(body[1..], more);
      }
    }
  }

  lemma {:induction false} IndexExtend(s: Bytes, t: Bytes, pattern: Bytes)
    requires IndexOf(s, pattern).Some?
    ensures IndexOf(s + t, pattern) == IndexOf(s, pattern)
    decreases |s|
  {
    assert (s + t)[..|pattern|] == s[..|pattern|];
    if s[..|pattern|] != pattern {
      assert (s + t)[1..] == s[1..] + t;
      IndexExtend(s[1..], t, pattern);
    }
  }

  lemma FindBodyExtend(s: Bytes, t: Bytes)
    ensures match FindBody(s)
            case NoBody => true
            case NotText => FindBody(s + t) == NotText
            case Body(body) => FindBody(s + t) == Body(body + t)
  {
    if IndexOf(s, MARKER).Some? {
      IndexExtend(s, t, MARKER);
      var m := IndexOf(s, MARKER).value;
      var rest := s[m + |MARKER|..];
      assert (s + t)[m + |MARKER|..] == rest + t;
      AfterMarkerExtend(rest, t);
    }
  }

  lemma AfterMarkerExtend(rest: Bytes, t: Bytes)
    ensures match AfterMarker(rest)
            case NoBody => true
            case NotText => AfterMarker(rest + t) == NotText
            case Body(body) => AfterMarker(rest + t) == Body(body + t)
  {
    if IndexOf(rest, [COLON]).Some? {
      IndexExtend(rest, t, [COLON]);
      var c := IndexOf(rest, [COLON]).value;
      assert (rest + t)[c + 1..] == rest[c + 1..] + t;
      var v := SkipWs(rest[c + 1..]);
      if v != [] {
        SkipWsExtend(rest[c + 1..], t);
        assert (v + t)[1..] == v[1..] + t;
      }
    }
  }

  // ---------- runs ----------

  /** The state and everything emitted after pushing the chunks one by one. */
  function PushAll(trim: Bytes -> Bytes, chunks: seq<Bytes>): (State, Bytes) {
    if chunks == [] then (START, [])
    else
      var (e, sent) := PushAll(trim, chunks[..|chunks| - 1]);
      var (e', text) := Pushed(trim, e, chunks[|chunks| - 1]);
      (e', sent + text)
  }

  /** The stream counts as an envelope: a brace or the marker is there as soon as anything is. */
  ghost predicate Enveloped(chunks: seq<Bytes>) {
    forall j | 0 <= j <= |chunks| :: IsEnvelope(Join(chunks[..j]))
  }

  predicate IsEnvelope(s: Bytes) {
    s == [] || LBRACE in s || HasMarker(s)
  }

  /** The chunk at k makes the opening quote of the message visible. */
  predicate OpensAt(chunks: seq<Bytes>, k: nat) {
    k < |chunks| && FindBody(Join(chunks[..k])).NoBody? && FindBody(Join(chunks[..k + 1])).Body?
  }

  /** That chunk also brings something to emit, or the closing quote. */
  predicate OpensWell(chunks: seq<Bytes>, k: nat)
    requires OpensAt(chunks, k)
  {
    var body := FindBody(Join(chunks[..k + 1])).body;
    Decode(body) != [] || Closed(body)
  }

  lemma JoinTake(chunks: seq<Bytes>, n: nat)
    requires n < |chunks|
    ensures Join(chunks[..n + 1]) == Join(chunks[..n]) + chunks[n]
    ensures chunks[..n + 1][..n] == chunks[..n] && chunks[..n + 1][n] == chunks[n]
  {
    assert chunks[..n + 1] == chunks[..n] + [chunks[n]];
    JoinSnoc(chunks[..n], chunks[n]);
  }

  /** PushAll one chunk further. */
  lemma PushAllStep(trim: Bytes -> Bytes, chunks: seq<Bytes>, n: nat)
    requires n < |chunks|
    ensures var (e, sent) := PushAll(trim, chunks[..n]);
            var (e', text) := Pushed(trim, e, chunks[n]);
            PushAll(trim, chunks[..n + 1]) == (e', sent + text)
    ensures Join(chunks[..n + 1]) == Join(chunks[..n]) + chunks[n]
  {
    JoinTake(chunks, n);
  }

  /** Where an extractor stands that has kept s and emitted nothing. */
  function Waiting(s: Bytes): State {
    State(s, if HasMarker(s) then JsonMessage else Undecided, 0)
  }

  lemma PushWaits(trim: Bytes -> Bytes, s: Bytes, t: Bytes)
    requires IsEnvelope(s + t) && FindBody(s + t).NoBody?
    ensures Pushed(trim, Waiting(s), t) == (Waiting(s + t), [])
  {
    if t == [] {
      assert s + t == s;
    } else if HasMarker(s) {
      IndexExtend(s, t, MARKER);
    }
  }

  lemma NoBodyBefore(s: Bytes, t: Bytes)
    requires FindBody(s + t).NoBody?
    ensures FindBody(s).NoBody?
  {
    FindBodyExtend(s, t);
  }

  lemma NothingPushed(trim: Bytes -> Bytes, chunks: seq<Bytes>)
    ensures PushAll(trim, chunks[..0]) == (Waiting(Join(chunks[..0])), [])
  {
    assert chunks[..0] == [];
  }

  /** Until the opening quote is there, everything is kept and nothing is emitted. */
  lemma {:induction false} BeforeBody(trim: Bytes -> Bytes, chunks: seq<Bytes>, n: nat)
    requires Enveloped(chunks) && n <= |chunks| && FindBody(Join(chunks[..n])).NoBody?
    ensures PushAll(trim, chunks[..n]) == (Waiting(Join(chunks[..n])), [])
  {
    if n == 0 {
      NothingPushed(trim, chunks);
    } else {
      var s, t := Join(chunks[..n - 1]), chunks[n - 1];
      PushAllStep(trim, chunks, n - 1);
      NoBodyBefore(s, t);
      BeforeBody(trim, chunks, n - 1);
      PushWaits(trim, s, t);
    }
  }

  /** The state of an extractor whose message has been opened well. */
  predicate Follows(body: Bytes, after: (State, Bytes)) {
    && after.1 == Decode(body)
    && if Closed(body) then after.0.mode.Done?
       else after.0 == State(body, JsonMessage, |Decode(body)|) && |Decode(body)| > 0
  }

  /** The push that makes the opening quote visible. */
  lemma PushOpens(trim: Bytes -> Bytes, s: Bytes, t: Bytes)
    requires FindBody(s).NoBody? && FindBody(s + t).Body?
    ensures var body := FindBody(s + t).body;
            Pushed(trim, Waiting(s), t) ==
              (State(body, if Closed(body) then Done else JsonMessage, |Decode(body)|), Decode(body))
  {
    assert t != [] by { assert s + [] == s; }
    var buf := State(s + t, JsonMessage, 0);
    assert Pushed(trim, Waiting(s), t) == Drained(buf);
    DrainOpens(buf);
  }

  lemma DrainOpens(e: State)
    requires e.emitted == 0 && e.mode.JsonMessage? && FindBody(e.raw).Body?
    ensures var body := FindBody(e.raw).body;
            Drained(e) == (State(body, if Closed(body) then Done else JsonMessage, |Decode(body)|), Decode(body))
  {
  }

  lemma OpeningPush(trim: Bytes -> Bytes, chunks: seq<Bytes>, k: nat)
    requires Enveloped(chunks) && OpensAt(chunks, k)
    ensures var body := FindBody(Join(chunks[..k + 1])).body;
            PushAll(trim, chunks[..k + 1]) ==
              (State(body, if Closed(body) then Done else JsonMessage, |Decode(body)|), Decode(body))
  {
    PushAllStep(trim, chunks, k);
    BeforeBody(trim, chunks, k);
    PushOpens(trim, Join(chunks[..k]), chunks[k]);
    assert [] + Decode(FindBody(Join(chunks[..k + 1])).body) == Decode(FindBody(Join(chunks[..k + 1])).body);
  }

  lemma FollowPush(trim: Bytes -> Bytes, body: Bytes, e: State, sent: Bytes, delta: Bytes)
    requires Follows(body, (e, sent))
    ensures var (e', text) := Pushed(trim, e, delta); Follows(body + delta, (e', sent + text))
  {
    DecodeExtend(body, delta);
    if delta == [] {
      assert body + delta == body;
    }
  }

  /**
    The main result for envelopes. If the chunk that brings the opening quote also brings
    something to emit, then after every later chunk the text emitted so far is exactly the
    decoded body up to its first unescaped quote, however the stream was cut; and once that
    quote has been seen, nothing more comes.
   */
  lemma {:induction false} EmitsBody(trim: Bytes -> Bytes, chunks: seq<Bytes>, k: nat, n: nat)
    requires Enveloped(chunks) && OpensAt(chunks, k) && OpensWell(chunks, k) && k < n <= |chunks|
    ensures FindBody(Join(chunks[..n])).Body?
    ensures Follows(FindBody(Join(chunks[..n])).body, PushAll(trim, chunks[..n]))
  {
    hide FindBody;
    if n == k + 1 {
      OpeningPush(trim, chunks, k);
    } else {
      EmitsBody(trim, chunks, k, n - 1);
      JoinTake(chunks, n - 1);
      var s := Join(chunks[..n - 1]);
      FindBodyExtend(s, chunks[n - 1]);
      var (e, sent) := PushAll(trim, chunks[..n - 1]);
      FollowPush(trim, FindBody(s).body, e, sent, chunks[n - 1]);
    }
  }

  lemma PushLost(trim: Bytes -> Bytes, chunks: seq<Bytes>, n: nat, body: Bytes)
    requires n < |chunks| && PushAll(trim, chunks[..n]) == (State(body, JsonMessage, 0), [])
    requires !HasMarker(body + chunks[n])
    ensures PushAll(trim, chunks[..n + 1]) == (State(body + chunks[n], JsonMessage, 0), [])
  {
    PushAllStep(trim, chunks, n);
    assert body + [] == body;
  }

  lemma LostAtOpening(trim: Bytes -> Bytes, chunks: seq<Bytes>, k: nat)
    requires Enveloped(chunks) && OpensAt(chunks, k) && !OpensWell(chunks, k)
    ensures PushAll(trim, chunks[..k + 1]) == (State(FindBody(Join(chunks[..k + 1])).body, JsonMessage, 0), [])
  {
    OpeningPush(trim, chunks, k);
  }

  /** The message body after n chunks does not hold the marker. */
  predicate NoSecondMarker(chunks: seq<Bytes>, n: nat)
    requires n <= |chunks|
  {
    FindBody(Join(chunks[..n])).Body? ==> !HasMarker(FindBody(Join(chunks[..n])).body)
  }

  lemma NoEarlierMarker(chunks: seq<Bytes>, n: nat)
    requires n < |chunks| && NoSecondMarker(chunks, n + 1)
    ensures NoSecondMarker(chunks, n)
  {
    var s, t := Join(chunks[..n]), chunks[n];
    JoinTake(chunks, n);
    FindBodyExtend(s, t);
    if FindBody(s).Body? && HasMarker(FindBody(s).body) {
      IndexExtend(FindBody(s).body, t, MARKER);
    }
  }

  /** Nothing emitted, and the marker looked for in the body only. */
  predicate Lost(trim: Bytes -> Bytes, chunks: seq<Bytes>, n: nat)
    requires n <= |chunks|
  {
    && FindBody(Join(chunks[..n])).Body?
    && PushAll(trim, chunks[..n]) == (State(FindBody(Join(chunks[..n])).body, JsonMessage, 0), [])
  }

  lemma StaysLost(trim: Bytes -> Bytes, chunks: seq<Bytes>, n: nat)
    requires n < |chunks| && Lost(trim, chunks, n) && NoSecondMarker(chunks, n + 1)
    ensures Lost(trim, chunks, n + 1)
  {
    var s, t := Join(chunks[..n]), chunks[n];
    JoinTake(chunks, n);
    FindBodyExtend(s, t);
    PushLost(trim, chunks, n, FindBody(s).body);
  }

  /**
    If it brings nothing to emit, the marker is looked for again, in the body; while the body
    does not hold it, nothing is ever emitted. LosesOrStartsOver says what comes otherwise.
   */
  lemma {:induction false} LosesBody(trim: Bytes -> Bytes, chunks: seq<Bytes>, k: nat, n: nat)
    requires Enveloped(chunks) && OpensAt(chunks, k) && !OpensWell(chunks, k) && k < n <= |chunks|
    requires NoSecondMarker(chunks, n)
    ensures Lost(trim, chunks, n)
  {
    hide FindBody;
    if n == k + 1 {
      LostAtOpening(trim, chunks, k);
    } else {
      NoEarlierMarker(chunks, n - 1);
      LosesBody(trim, chunks, k, n - 1);
      StaysLost(trim, chunks, n - 1);
    }
  }

  lemma {:induction false} BodyStays(chunks: seq<Bytes>, k: nat, n: nat)
    requires OpensAt(chunks, k) && k < n <= |chunks|
    ensures FindBody(Join(chunks[..n])).Body?
  {
    hide FindBody;
    if n > k + 1 {
      BodyStays(chunks, k, n - 1);
      JoinTake(chunks, n - 1);
      FindBodyExtend(Join(chunks[..n - 1]), chunks[n - 1]);
    }
  }

  /**
    Exactly when the extractor is right: for streams whose message body does not contain the
    marker again, the emitted text is the decoded body if and only if the opening chunk
    brought something to emit, or there was nothing to emit at all.
   */
  lemma {:induction false} RightIffOpensWell(trim: Bytes -> Bytes, chunks: seq<Bytes>, k: nat)
    requires Enveloped(chunks) && OpensAt(chunks, k)
    requires FindBody(Join(chunks)).Body? ==> !HasMarker(FindBody(Join(chunks)).body)
    ensures FindBody(Join(chunks)).Body?
    ensures PushAll(trim, chunks).1 == Decode(FindBody(Join(chunks)).body)
            <==> OpensWell(chunks, k) || Decode(FindBody(Join(chunks)).body) == []
  {
    assert chunks[..|chunks|] == chunks;
    BodyStays(chunks, k, |chunks|);
    if OpensWell(chunks, k) {
      EmitsBody(trim, chunks, k, |chunks|);
    } else {
      LosesBody(trim, chunks, k, |chunks|);
    }
  }

  /** The bytes {"message":" up to and including the opening quote. */
  const OPENING: Bytes := [LBRACE] + MARKER + [COLON, QUOTE]

  lemma OpeningFound(body: Bytes)
    ensures HasMarker(OPENING + body) && FindBody(OPENING + body) == Body(body)
  {
    var s := OPENING + body;
    assert s[0] != MARKER[0] && s[..|MARKER|][0] == s[0];
    assert s[1..][..|MARKER|] == MARKER;
    assert IndexOf(s[1..], MARKER) == Some(0);
    assert IndexOf(s, MARKER) == Some(1);
    var rest := s[1 + |MARKER|..];
    assert rest == [COLON, QUOTE] + body && rest[..1] == [COLON];
    assert IndexOf(rest, [COLON]) == Some(0);
    assert rest[0 + 1..] == [QUOTE] + body && SkipWs([QUOTE] + body) == [QUOTE] + body;
  }

  /** A cut right after the opening quote loses every message that is not followed by a second marker. */
  lemma CutAtQuoteLoses(trim: Bytes -> Bytes, body: Bytes)
    requires !HasMarker(body)
    ensures PushAll(trim, [OPENING, body]) == (State(body, JsonMessage, 0), [])
    ensures FindBody(Join([OPENING, body])) == Body(body)
  {
    hide FindBody, HasMarker, Pushed;
    var chunks := [OPENING, body];
    OpeningFound(body);
    JoinOfTwo(OPENING, body);
    assert chunks[..0] == [] && chunks[..2] == chunks && [] + body == body;
    PushOneOpening(trim);
    PushAllStep(trim, chunks, 0);
    PushLost(trim, chunks, 1, []);
  }

  lemma JoinOfTwo(a: Bytes, b: Bytes)
    ensures Join([a, b]) == a + b
  {
    JoinSnoc([a], b);
    assert [a] + [b] == [a, b] && Join([a]) == a + Join<byte>([]) == a;
  }

  lemma PushOneOpening(trim: Bytes -> Bytes)
    ensures Pushed(trim, START, OPENING) == (State([], JsonMessage, 0), [])
  {
    hide FindBody, HasMarker;
    OpeningFound([]);
    assert OPENING + [] == OPENING == [] + OPENING;
    DrainOpens(State(OPENING, JsonMessage, 0));
  }

  /** A stream whose text is lost: the chunks {"message":" and a"} emit nothing, though the message is a. */
  lemma ShortMessageLost(trim: Bytes -> Bytes)
    ensures var chunks := [OPENING, [97, QUOTE, RBRACE]];
            && PushAll(trim, chunks).1 == []
            && FindBody(Join(chunks)) == Body([97, QUOTE, RBRACE])
            && Decode([97, QUOTE, RBRACE]) == [97]
  {
    var body: Bytes := [97, QUOTE, RBRACE];
    TooShortForMarker(body);
    CutAtQuoteLoses(trim, body);
    assert body[1..] == [QUOTE, RBRACE] && Decode(body[1..]) == [];
  }

  lemma TooShortForMarker(s: Bytes)
    requires |s| < |MARKER|
    ensures !HasMarker(s)
  {
  }

  // ---------- envelopes and what is spoken ----------

  /** pattern stands at i. */
  predicate Occurs(s: Bytes, pattern: Bytes, i: nat) {
    i + |pattern| <= |s| && s[i..i + |pattern|] == pattern
  }

  /** The first occurrence of pattern stands at i. */
  predicate FirstAt(s: Bytes, pattern: Bytes, i: nat) {
    Occurs(s, pattern, i) && forall j: nat | j < i :: !Occurs(s, pattern, j)
  }

  lemma SliceBehind(s: Bytes, i: nat, j: nat)
    requires i <= j < |s|
    ensures s[i + 1..j + 1] == s[1..][i..j]
  {
    var a, b := s[i + 1..j + 1], s[1..][i..j];
    assert |a| == |b|;
    forall k | 0 <= k < |a|
      ensures a[k] == b[k]
    {
      assert a[k] == s[i + 1 + k] && b[k] == s[1..][i + k] == s[i + 1 + k];
    }
  }

  lemma FirstBehind(s: Bytes, pattern: Bytes, i: nat)
    requires s != [] && !Occurs(s, pattern, 0)
    ensures FirstAt(s, pattern, i + 1) <==> FirstAt(s[1..], pattern, i)
  {
    forall j: nat
      ensures Occurs(s, pattern, j + 1) <==> Occurs(s[1..], pattern, j)
    {
      if j + 1 + |pattern| <= |s| {
        SliceBehind(s, j, j + |pattern|);
      }
    }
    assert forall j: nat | 0 < j :: Occurs(s, pattern, j) <==> Occurs(s[1..], pattern, j - 1);
  }

  /** The search finds the first occurrence. */
  lemma {:induction false} IndexOfIs(s: Bytes, pattern: Bytes, i: nat)
    ensures IndexOf(s, pattern) == Some(i) <==> FirstAt(s, pattern, i)
    decreases |s|
  {
    assert Occurs(s, pattern, 0) <==> |pattern| <= |s| && s[..|pattern|] == pattern;
    if |s| >= |pattern| && s != [] && !Occurs(s, pattern, 0) && i > 0 {
      IndexOfIs(s[1..], pattern, i - 1);
      FirstBehind(s, pattern, i - 1);
    }
  }

  lemma NotFound(s: Bytes, pattern: Bytes)
    requires forall j: nat :: !Occurs(s, pattern, j)
    ensures IndexOf(s, pattern) == None
  {
    if IndexOf(s, pattern).Some? {
      IndexOfIs(s, pattern, IndexOf(s, pattern).value);
    }
  }

  lemma ColonAt(gap: Bytes, rest: Bytes)
    requires COLON !in gap
    ensures IndexOf(gap + [COLON] + rest, [COLON]) == Some(|gap|)
    ensures IndexOf(gap, [COLON]) == None
  {
    var s := gap + [COLON] + rest;
    assert s[|gap|..|gap| + |[COLON]|] == [COLON];
    forall j: nat | j < |gap|
      ensures !Occurs(s, [COLON], j) && !Occurs(gap, [COLON], j)
    {
      assert s[j..j + 1][0] == gap[j] && gap[j..j + 1][0] == gap[j];
    }
    IndexOfIs(s, [COLON], |gap|);
    NotFound(gap, [COLON]);
  }

  /**
    What stands behind the marker: only a colon and a value decide, a value with an opening quote
    is a text, and any other value is none.
   */
  lemma BehindMarker(before: Bytes, gap: Bytes, ws: Bytes, first: byte, rest: Bytes)
    requires FirstAt(before + MARKER, MARKER, |before|) && COLON !in gap && AllWs(ws) && !IsWs(first)
    ensures var marked := before + MARKER;
            && FindBody(marked + gap) == NoBody
            && FindBody(marked + (gap + [COLON] + ws)) == NoBody
            && FindBody(marked + (gap + [COLON] + (ws + ([first] + rest))))
               == if first == QUOTE then Body(rest) else NotText
  {
    hide FindBody;
    BehindMarkerAre(before, gap);
    BehindMarkerAre(before, gap + [COLON] + ws);
    BehindMarkerAre(before, gap + [COLON] + (ws + ([first] + rest)));
    ColonAt(gap, ws);
    ColonAt(gap, ws + ([first] + rest));
    assert (gap + [COLON] + ws)[|gap| + 1..] == ws;
    assert (gap + [COLON] + (ws + ([first] + rest)))[|gap| + 1..] == ws + ([first] + rest);
    SkipWsOver(ws, []);
    assert ws + [] == ws;
    SkipWsOver(ws, [first] + rest);
    assert ([first] + rest)[1..] == rest;
  }

  lemma BehindMarkerAre(before: Bytes, rest: Bytes)
    requires FirstAt(before + MARKER, MARKER, |before|)
    ensures FindBody(before + MARKER + rest) == AfterMarker(rest)
  {
    IndexOfIs(before + MARKER, MARKER, |before|);
    IndexExtend(before + MARKER, rest, MARKER);
    assert (before + MARKER + rest)[|before| + |MARKER|..] == rest;
  }

  /** How a byte is written inside a string with the escapes of one letter. */
  function Escaped(b: byte): Bytes {
    if b == QUOTE || b == BACKSLASH then [BACKSLASH, b]
    else if b == 8 then [BACKSLASH, 98]
    else if b == 9 then [BACKSLASH, 116]
    else if b == 10 then [BACKSLASH, 110]
    else if b == 12 then [BACKSLASH, 102]
    else if b == 13 then [BACKSLASH, 114]
    else [b]
  }

  function Written(text: Bytes): Bytes {
    if text == [] then [] else Escaped(text[0]) + Written(text[1..])
  }

  /** Decoding undoes writing. */
  lemma {:induction false} WrittenDecodes(text: Bytes, rest: Bytes)
    ensures Decode(Written(text) + ([QUOTE] + rest)) == text && Closed(Written(text) + ([QUOTE] + rest))
  {
    if text == [] {
      assert Written(text) + ([QUOTE] + rest) == [QUOTE] + rest;
    } else {
      var tail := Written(text[1..]) + ([QUOTE] + rest);
      Assoc(Escaped(text[0]), Written(text[1..]), [QUOTE] + rest);
      WrittenDecodes(text[1..], rest);
      EscapedDecodes(text[0], tail);
      assert [text[0]] + text[1..] == text;
    }
  }

  lemma EscapedDecodes(b: byte, tail: Bytes)
    ensures Decode(Escaped(b) + tail) == [b] + Decode(tail) && Closed(Escaped(b) + tail) == Closed(tail)
  {
    var s := Escaped(b) + tail;
    if |Escaped(b)| == 2 {
      assert s[0] == BACKSLASH && s[1] == Escaped(b)[1] && s[2..] == tail;
    } else {
      assert s[0] == b && s[1..] == tail;
    }
  }

  /** Any other escaped byte stands for itself; so an escaped code point is spoken as u and its digits. */
  lemma OtherEscapes(b: byte, tail: Bytes)
    requires b !in [98, 116, 110, 102, 114]
    ensures Decode([BACKSLASH, b] + tail) == [b] + Decode(tail)
  {
    assert ([BACKSLASH, b] + tail)[2..] == tail;
    assert 98 in [98, 116, 110, 102, 114] && 116 in [98, 116, 110, 102, 114] && 110 in [98, 116, 110, 102, 114]
           && 102 in [98, 116, 110, 102, 114] && 114 in [98, 116, 110, 102, 114];
  }

  /**
    From a text to what is spoken: an envelope that holds the written text behind its first
    marker, and whose first chunk reaches two bytes into it, is spoken as that text, however the
    rest is cut and whatever follows.
   */
  lemma MessageSpoken(trim: Bytes -> Bytes, chunks: seq<Bytes>, before: Bytes, gap: Bytes, ws: Bytes,
                      text: Bytes, rest: Bytes)
    requires FirstAt(before + MARKER, MARKER, |before|) && COLON !in gap && AllWs(ws)
    requires Join(chunks) == before + MARKER + (gap + [COLON] + (ws + ([QUOTE] + (Written(text) + ([QUOTE] + rest)))))
    requires chunks != [] && |chunks[0]| >= |before + MARKER + gap + [COLON] + ws + [QUOTE]| + 2
    ensures PushAll(trim, chunks).1 == text && PushAll(trim, chunks).0.mode.Done?
  {
    hide FindBody, Decode, Closed, HasMarker, FirstAt, Written, PushAll, Enveloped, OpensAt, OpensWell;
    var body := Written(text) + ([QUOTE] + rest);
    var head := before + MARKER + gap + [COLON] + ws + [QUOTE];
    assert Join(chunks) == head + body;
    var more := Join(chunks[1..]);
    var start := chunks[0][|head|..];
    assert chunks[0] == head + start && body == start + more by {
      assert Join(chunks) == chunks[0] + more;
      assert chunks[0] == (head + body)[..|chunks[0]|];
      assert more == (head + body)[|chunks[0]|..];
    }
    HeadOpens(before, gap, ws, start);
    HeadOpens(before, gap, ws, body);
    assert chunks[..|chunks|] == chunks && chunks[..1] == [chunks[0]] && chunks[..0] == [];
    OpenedFirst(chunks, head, start);
    EmitsBody(trim, chunks, 0, |chunks|);
    WrittenDecodes(text, rest);
  }

  lemma HeadOpens(before: Bytes, gap: Bytes, ws: Bytes, body: Bytes)
    requires FirstAt(before + MARKER, MARKER, |before|) && COLON !in gap && AllWs(ws)
    ensures FindBody(before + MARKER + gap + [COLON] + ws + [QUOTE] + body) == Body(body)
  {
    hide FindBody, FirstAt;
    BehindMarker(before, gap, ws, QUOTE, body);
    assert before + MARKER + gap + [COLON] + ws + [QUOTE] + body
        == before + MARKER + (gap + [COLON] + (ws + ([QUOTE] + body)));
  }

  /** The first chunk is the one that opens, and it opens well. */
  lemma OpenedFirst(chunks: seq<Bytes>, head: Bytes, start: Bytes)
    requires chunks != [] && chunks[0] == head + start && |start| >= 2 && FindBody(head + start) == Body(start)
    ensures Enveloped(chunks) && OpensAt(chunks, 0) && OpensWell(chunks, 0)
  {
    assert chunks[..1] == [chunks[0]] && chunks[..0] == [] && chunks[0] + [] == chunks[0];
    assert HasMarker(head + start) && FindBody([]) == NoBody;
    forall j | 0 <= j <= |chunks|
      ensures IsEnvelope(Join(chunks[..j]))
    {
      if j > 0 {
        assert Join(chunks[..j]) == chunks[0] + Join(chunks[..j][1..]);
        EnvelopeExtend(chunks[0], Join(chunks[..j][1..]));
      }
    }
  }

  /** A "message" that is no text keeps the rest of the stream silent. */
  lemma {:induction false} NotTextSilent(trim: Bytes -> Bytes, chunks: seq<Bytes>, k: nat, n: nat)
    requires Enveloped(chunks) && k < n <= |chunks|
    requires FindBody(Join(chunks[..k])).NoBody? && FindBody(Join(chunks[..k + 1])).NotText?
    ensures PushAll(trim, chunks[..n]).0.mode.Done? && PushAll(trim, chunks[..n]).1 == []
  {
    hide FindBody, HasMarker, Drained;
    PushAllStep(trim, chunks, n - 1);
    if n == k + 1 {
      BeforeBody(trim, chunks, k);
      NotTextDrains(trim, Join(chunks[..k]), chunks[k]);
    } else {
      NotTextSilent(trim, chunks, k, n - 1);
    }
  }

  lemma NotTextDrains(trim: Bytes -> Bytes, s: Bytes, t: Bytes)
    requires FindBody(s).NoBody? && FindBody(s + t).NotText?
    ensures Pushed(trim, Waiting(s), t) == (State(s + t, Done, 0), [])
  {
    assert t != [] by { assert s + [] == s; }
  }

  /**
    A stream that begins with text without a brace and without the marker: that text is spoken at
    once, and each later chunk as it comes, unless it starts with a brace after trimming.
   */
  lemma PlainDelta(trim: Bytes -> Bytes, first: Bytes, chunks: seq<Bytes>, delta: Bytes)
    requires first != [] && LBRACE !in first && forall j: nat :: !Occurs(first, MARKER, j)
    ensures PushAll(trim, [first]).1 == first
    ensures PushAll(trim, [first] + (chunks + [delta])).1 ==
            PushAll(trim, [first] + chunks).1
            + if trim(delta) != [] && trim(delta)[0] == LBRACE then [] else delta
  {
    NotFound(first, MARKER);
    PlainPassesThrough(trim, first, []);
    assert [first] + [] == [first] && first + [] == first;
    PlainPassesThrough(trim, first, chunks);
    PlainPassesThrough(trim, first, chunks + [delta]);
    assert (chunks + [delta])[..|chunks + [delta]| - 1] == chunks;
    Assoc(first, Spoken(trim, chunks), if IsControl(trim, delta) then [] else delta);
  }

  // ---------- flushing ----------

  /** What every push leaves behind: no text that could still be emitted without new bytes. */
  predicate Settled(e: State) {
    e.mode.JsonMessage? ==>
      if e.emitted > 0 then e.emitted == |Decode(e.raw)| && !Closed(e.raw) else FindBody(e.raw).NoBody?
  }

  /** After any chunks the extractor is settled. */
  lemma {:induction false} AlwaysSettled(trim: Bytes -> Bytes, chunks: seq<Bytes>)
    ensures Settled(PushAll(trim, chunks).0)
    ensures PushAll(trim, chunks).0.mode.Undecided? ==> PushAll(trim, chunks).0.emitted == 0
  {
    if chunks != [] {
      AlwaysSettled(trim, chunks[..|chunks| - 1]);
      var e, delta := PushAll(trim, chunks[..|chunks| - 1]).0, chunks[|chunks| - 1];
      DecodeExtend(e.raw, delta);
      PushSettles(trim, e, delta);
    }
  }

  lemma PushSettles(trim: Bytes -> Bytes, e: State, delta: Bytes)
    requires Settled(e) && (e.mode.Undecided? ==> e.emitted == 0)
    ensures Settled(Pushed(trim, e, delta).0)
    ensures Pushed(trim, e, delta).0.mode.Undecided? ==> Pushed(trim, e, delta).0.emitted == 0
  {
    var buf := e.raw + delta;
    DecodeExtend(e.raw, delta);
    if e.emitted == 0 && FindBody(buf).Body? {
      UndecodedHasNoBody(FindBody(buf).body);
    }
  }

  /** A body that decodes to nothing yet is empty or a lone backslash. */
  lemma UndecodedHasNoBody(body: Bytes)
    ensures Decode(body) == [] && !Closed(body) ==> FindBody(body).NoBody?
  {
    if Decode(body) == [] && !Closed(body) {
      assert |body| < 2;
    }
  }

  /** After any chunks whatever, in any mode, Flush gives no text and changes nothing. */
  lemma {:induction false} FlushAddsNothing(trim: Bytes -> Bytes, chunks: seq<Bytes>)
    ensures Flushed(PushAll(trim, chunks).0) == (PushAll(trim, chunks).0, [])
  {
    AlwaysSettled(trim, chunks);
  }

  // ---------- plain text ----------

  /** The deltas that are not control frames, concatenated. */
  function Spoken(trim: Bytes -> Bytes, chunks: seq<Bytes>): Bytes {
    if chunks == [] then []
    else Spoken(trim, chunks[..|chunks| - 1])
         + if IsControl(trim, chunks[|chunks| - 1]) then [] else chunks[|chunks| - 1]
  }

  /** A stream that starts as plain text is passed on without its control frames. */
  lemma {:induction false} PlainPassesThrough(trim: Bytes -> Bytes, first: Bytes, chunks: seq<Bytes>)
    requires !IsEnvelope(first)
    ensures PushAll(trim, [first] + chunks) == (State([], Plain, 0), first + Spoken(trim, chunks))
    decreases |chunks|
  {
    var all := [first] + chunks;
    if chunks == [] {
      assert all == [first] && all[..0] == [];
      assert PushAll(trim, all[..0]) == (START, []);
      assert START.raw + first == first && first != [];
      assert Pushed(trim, START, first) == (State([], Plain, 0), first);
      assert PushAll(trim, all) == (State([], Plain, 0), [] + first);
      assert first + Spoken(trim, chunks) == first == [] + first;
    } else {
      var init, x := chunks[..|chunks| - 1], chunks[|chunks| - 1];
      PlainPassesThrough(trim, first, init);
      assert all[..|all| - 1] == [first] + init && all[|all| - 1] == x;
      var text := if IsControl(trim, x) then [] else x;
      assert Pushed(trim, State([], Plain, 0), x) == (State([], Plain, 0), text);
      Assoc(first, Spoken(trim, init), text);
    }
  }

  // ---------- every stream ----------

  /** A search that starts at q finds an opening quote just before p. */
  predicate Opens(s: Bytes, q: nat, p: nat) {
    q <= |s| && p <= |s| && FindBody(s[q..]) == Body(s[p..])
  }

  /** The text is the decoded body behind some opening quote. */
  ghost predicate SomeBody(s: Bytes, text: Bytes) {
    exists q: nat, p: nat :: Opens(s, q, p) && text == Decode(s[p..])
  }

  /** Where an extractor stands in an envelope s that is not known to be cut well. */
  ghost predicate Tracks(s: Bytes, after: (State, Bytes)) {
    var (e, sent) := after;
    match e.mode
    case Plain => false
    case Undecided => e == State(s, Undecided, 0) && sent == []
    case JsonMessage =>
      if e.emitted == 0 then sent == [] && exists q: nat :: IsSuffix(s, q, e.raw)
      else exists q: nat, p: nat :: Opens(s, q, p) && Follows(s[p..], after)
    case Done => sent == [] || exists q: nat, p: nat :: Opens(s, q, p) && Closed(s[p..]) && sent == Decode(s[p..])
  }

  predicate IsSuffix(s: Bytes, q: nat, raw: Bytes) { q <= |s| && raw == s[q..] }

  lemma OpensExtend(s: Bytes, t: Bytes, q: nat, p: nat)
    requires Opens(s, q, p)
    ensures Opens(s + t, q, p) && (s + t)[p..] == s[p..] + t
  {
    assert (s + t)[q..] == s[q..] + t && (s + t)[p..] == s[p..] + t;
    FindBodyExtend(s[q..], t);
  }

  lemma {:induction false} SkipWsSuffix(s: Bytes)
    ensures SkipWs(s) == s[|s| - |SkipWs(s)|..]
  {
    if s != [] && IsWs(s[0]) {
      SkipWsSuffix(s[1..]);
    }
  }

  lemma BodyIsSuffix(s: Bytes)
    requires FindBody(s).Body?
    ensures |FindBody(s).body| <= |s| && FindBody(s).body == s[|s| - |FindBody(s).body|..]
  {
    hide AfterMarker;
    AfterMarkerSuffix(s[IndexOf(s, MARKER).value + |MARKER|..]);
  }

  lemma AfterMarkerSuffix(rest: Bytes)
    requires AfterMarker(rest).Body?
    ensures |AfterMarker(rest).body| <= |rest|
    ensures AfterMarker(rest).body == rest[|rest| - |AfterMarker(rest).body|..]
  {
    SkipWsSuffix(rest[IndexOf(rest, [COLON]).value + 1..]);
  }

  /** A drain that finds an opening quote, in a buffer that is a suffix of the stream. */
  lemma DrainTracks(s: Bytes, q: nat, raw: Bytes)
    requires IsSuffix(s, q, raw)
    ensures Tracks(s, Drained(State(raw, JsonMessage, 0)))
  {
    hide FindBody, Decode, Closed;
    var e := State(raw, JsonMessage, 0);
    match FindBody(raw)
    case NoBody =>
    case NotText =>
    case Body(body) =>
      BodyIsSuffix(raw);
      var p := |s| - |body|;
      assert s[p..] == body;
      assert Opens(s, q, p);
      assert IsSuffix(s, p, body);
      DrainOpens(e);
      ClosedOrNot(body);
  }

  lemma ClosedOrNot(body: Bytes)
    ensures |Decode(body)| == 0 ==> Decode(body) == []
  {
  }

  lemma PushTracks(trim: Bytes -> Bytes, s: Bytes, e: State, sent: Bytes, t: Bytes)
    requires Tracks(s, (e, sent)) && (e.mode.Undecided? ==> IsEnvelope(s + t))
    ensures var (e', text) := Pushed(trim, e, t); Tracks(s + t, (e', sent + text))
  {
    hide FindBody, Decode, Closed, HasMarker;
    assert sent + [] == sent;
    if t == [] {
      assert s + t == s;
    } else if e.mode.Done? {
      if sent != [] {
        var q: nat, p: nat :| Opens(s, q, p) && Closed(s[p..]) && sent == Decode(s[p..]);
        OpensExtend(s, t, q, p);
        DecodeExtend(s[p..], t);
      }
    } else if e.emitted > 0 {
      var q: nat, p: nat :| Opens(s, q, p) && Follows(s[p..], (e, sent));
      OpensExtend(s, t, q, p);
      FollowPush(trim, s[p..], e, sent, t);
      FollowedTracks(s + t, q, p, Pushed(trim, e, t).0, sent + Pushed(trim, e, t).1);
    } else {
      var q: nat :| IsSuffix(s, q, e.raw) && (e.mode.Undecided? ==> q == 0);
      assert (s + t)[q..] == e.raw + t;
      DrainTracks(s + t, q, e.raw + t);
      assert forall x: Bytes :: [] + x == x;
    }
  }

  lemma FollowedTracks(s: Bytes, q: nat, p: nat, e: State, sent: Bytes)
    requires Opens(s, q, p) && Follows(s[p..], (e, sent))
    ensures Tracks(s, (e, sent))
  {
  }

  lemma {:induction false} EnvelopeTracks(trim: Bytes -> Bytes, chunks: seq<Bytes>, n: nat)
    requires Enveloped(chunks) && n <= |chunks|
    ensures Tracks(Join(chunks[..n]), PushAll(trim, chunks[..n]))
  {
    if n == 0 {
      assert chunks[..0] == [];
    } else {
      hide Tracks, IsEnvelope;
      EnvelopeTracks(trim, chunks, n - 1);
      PushAllStep(trim, chunks, n - 1);
      assert IsEnvelope(Join(chunks[..n]));
      var (e, sent) := PushAll(trim, chunks[..n - 1]);
      PushTracks(trim, Join(chunks[..n - 1]), e, sent, chunks[n - 1]);
    }
  }

  lemma TracksIsSomeBody(s: Bytes, after: (State, Bytes))
    requires Tracks(s, after)
    ensures after.1 == [] || SomeBody(s, after.1)
  {
  }

  /**
    A bad opening, in general: after it the extractor starts over behind the opening quote, so
    what it emits, if anything, is the decoded text behind a later opening quote, to which a
    second marker leads.
   */
  lemma {:induction false} BadOpening(trim: Bytes -> Bytes, chunks: seq<Bytes>, k: nat, n: nat)
    requires Enveloped(chunks) && OpensAt(chunks, k) && !OpensWell(chunks, k) && k < n <= |chunks|
    ensures FindBody(Join(chunks[..n])).Body?
    ensures Tracks(FindBody(Join(chunks[..n])).body, PushAll(trim, chunks[..n]))
    ensures !PushAll(trim, chunks[..n]).0.mode.Undecided?
  {
    hide FindBody, Tracks, PushAll, Pushed, OpensWell;
    BodyStays(chunks, k, n);
    if n == k + 1 {
      LostAtOpening(trim, chunks, k);
      LostTracks(FindBody(Join(chunks[..n])).body);
    } else {
      BadOpening(trim, chunks, k, n - 1);
      JoinTake(chunks, n - 1);
      FindBodyExtend(Join(chunks[..n - 1]), chunks[n - 1]);
      PushAllStep(trim, chunks, n - 1);
      var (e, sent) := PushAll(trim, chunks[..n - 1]);
      PushTracks(trim, FindBody(Join(chunks[..n - 1])).body, e, sent, chunks[n - 1]);
      PushStaysDecided(trim, e, chunks[n - 1]);
    }
  }

  lemma LostTracks(body: Bytes)
    ensures Tracks(body, (State(body, JsonMessage, 0), []))
  {
    assert body[0..] == body && IsSuffix(body, 0, body);
  }

  lemma PushStaysDecided(trim: Bytes -> Bytes, e: State, t: Bytes)
    requires !e.mode.Undecided?
    ensures !Pushed(trim, e, t).0.mode.Undecided?
  {
  }

  /** So after a bad opening it emits nothing, or the text behind some opening quote further on. */
  lemma LosesOrStartsOver(trim: Bytes -> Bytes, chunks: seq<Bytes>, k: nat)
    requires Enveloped(chunks) && OpensAt(chunks, k) && !OpensWell(chunks, k)
    ensures FindBody(Join(chunks)).Body?
    ensures PushAll(trim, chunks).1 == [] || SomeBody(FindBody(Join(chunks)).body, PushAll(trim, chunks).1)
  {
    hide FindBody, Tracks, SomeBody;
    assert chunks[..|chunks|] == chunks;
    BadOpening(trim, chunks, k, |chunks|);
    TracksIsSomeBody(FindBody(Join(chunks)).body, PushAll(trim, chunks));
  }

  /** The first chunk that is not empty, and the output of a stream that begins with plain text. */
  function FirstText(chunks: seq<Bytes>): Bytes {
    if chunks == [] then [] else if chunks[0] != [] then chunks[0] else FirstText(chunks[1..])
  }

  function PlainText(trim: Bytes -> Bytes, chunks: seq<Bytes>): Bytes {
    if chunks == [] then []
    else if chunks[0] == [] then PlainText(trim, chunks[1..])
    else chunks[0] + Spoken(trim, chunks[1..])
  }

  /** Text behind an envelope is an envelope. */
  lemma EnvelopeExtend(s: Bytes, t: Bytes)
    requires s != [] && IsEnvelope(s)
    ensures IsEnvelope(s + t)
  {
    if HasMarker(s) {
      IndexExtend(s, t, MARKER);
    }
  }

  lemma {:induction false} EnvelopedFromFirst(chunks: seq<Bytes>, n: nat)
    requires n <= |chunks| && IsEnvelope(FirstText(chunks))
    ensures IsEnvelope(Join(chunks[..n]))
    decreases |chunks|
  {
    if n > 0 {
      assert chunks[..n] == [chunks[0]] + chunks[1..][..n - 1];
      var rest := Join(chunks[1..][..n - 1]);
      assert Join(chunks[..n]) == chunks[0] + rest;
      if chunks[0] == [] {
        assert [] + rest == rest;
        EnvelopedFromFirst(chunks[1..], n - 1);
      } else {
        EnvelopeExtend(chunks[0], rest);
      }
    }
  }

  lemma {:induction false} EmptyFirst(trim: Bytes -> Bytes, chunks: seq<Bytes>)
    ensures PushAll(trim, [[]] + chunks) == PushAll(trim, chunks)
    decreases |chunks|
  {
    var all := [[]] + chunks;
    if chunks == [] {
      assert all == [[]] && all[..0] == [];
    } else {
      var init := chunks[..|chunks| - 1];
      EmptyFirst(trim, init);
      assert all[..|all| - 1] == [[]] + init && all[|all| - 1] == chunks[|chunks| - 1];
    }
  }

  lemma {:induction false} PlainStream(trim: Bytes -> Bytes, chunks: seq<Bytes>)
    requires !IsEnvelope(FirstText(chunks))
    ensures PushAll(trim, chunks).1 == PlainText(trim, chunks)
    decreases |chunks|
  {
    assert chunks == [chunks[0]] + chunks[1..];
    if chunks[0] == [] {
      EmptyFirst(trim, chunks[1..]);
      PlainStream(trim, chunks[1..]);
    } else {
      PlainPassesThrough(trim, chunks[0], chunks[1..]);
    }
  }

  /**
    For every stream in every cutting. If its first text has a brace or the marker, then either
    nothing has been emitted, or all that was emitted is the decoded text behind one opening
    quote of a "message" in the stream; otherwise it is the plain text without control frames.
   */
  lemma EveryStream(trim: Bytes -> Bytes, chunks: seq<Bytes>)
    ensures var sent := PushAll(trim, chunks).1;
            if IsEnvelope(FirstText(chunks)) then sent == [] || SomeBody(Join(chunks), sent)
            else sent == PlainText(trim, chunks)
  {
    if IsEnvelope(FirstText(chunks)) {
      hide IsEnvelope, Tracks;
      forall n | 0 <= n <= |chunks| ensures IsEnvelope(Join(chunks[..n])) {
        EnvelopedFromFirst(chunks, n);
      }
      EnvelopeTracks(trim, chunks, |chunks|);
      assert chunks[..|chunks|] == chunks;
      TracksIsSomeBody(Join(chunks), PushAll(trim, chunks));
    } else {
      PlainStream(trim, chunks);
    }
  }
}
