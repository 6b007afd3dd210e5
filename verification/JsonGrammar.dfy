/**
  JSON texts as trees that remember their whitespace, a printer for them, and the proof
  that the byte scanner of JsonScan reads every printed object correctly (RFC 8259,
  sections 2 to 7). The grammar admits every RFC 8259 text and a few more: a scalar is any
  token without structural bytes, and a backslash may escape any byte.
 */
module JsonGrammar {
  import opened Wrappers
  import opened ByteStrings
  import opened JsonScan

  datatype Value =
    | Scalar(token: Bytes)
    | Str(body: Bytes)
    | Arr(gap: Bytes, items: Items)
    | Obj(gap: Bytes, members: Members)

  datatype Items =
    | NoItems
    | Item(lead: Bytes, value: Value, trail: Bytes, rest: Items)

  datatype Members =
    | NoMembers
    | Member(lead: Bytes, key: Bytes, beforeColon: Bytes, afterColon: Bytes, value: Value, trail: Bytes, rest: Members)

  /** The body of a string literal: no bare quote, and no escape left open. */
  predicate IsBody(s: Bytes) {
    s == [] ||
    (if s[0] == BACKSLASH then |s| >= 2 && IsBody(s[2..]) else s[0] != QUOTE && IsBody(s[1..]))
  }

  predicate IsTokenByte(b: byte) {
    b !in {QUOTE, LBRACE, RBRACE, LBRACKET, RBRACKET, COMMA, COLON} && !IsWs(b)
  }

  predicate IsToken(s: Bytes) {
    s != [] && forall i :: 0 <= i < |s| ==> IsTokenByte(s[i])
  }

  predicate ValidValue(v: Value) {
    match v
    case Scalar(token) => IsToken(token)
    case Str(body) => IsBody(body)
    case Arr(gap, items) => AllWs(gap) && ValidItems(items)
    case Obj(gap, members) => AllWs(gap) && ValidMembers(members)
  }

  predicate ValidItems(a: Items) {
    a.Item? ==> AllWs(a.lead) && ValidValue(a.value) && AllWs(a.trail) && ValidItems(a.rest)
  }

  predicate ValidMembers(m: Members) {
    m.Member? ==>
      AllWs(m.lead) && IsBody(m.key) && AllWs(m.beforeColon) && AllWs(m.afterColon)
      && ValidValue(m.value) && AllWs(m.trail) && ValidMembers(m.rest)
  }

  function Quoted(body: Bytes): Bytes {
    [QUOTE] + (body + [QUOTE])
  }

  function PrintValue(v: Value): Bytes
    decreases v
  {
    match v
    case Scalar(token) => token
    case Str(body) => Quoted(body)
    case Arr(gap, items) => [LBRACKET] + ((gap + PrintItems(items)) + [RBRACKET])
    case Obj(gap, members) => [LBRACE] + ((gap + PrintMembers(members)) + [RBRACE])
  }

  function PrintItems(a: Items): Bytes
    decreases a
  {
    match a
    case NoItems => []
    case Item(lead, value, trail, rest) =>
      lead + (PrintValue(value) + (trail + if rest.NoItems? then [] else [COMMA] + PrintItems(rest)))
  }

  function PrintMembers(m: Members): Bytes
    decreases m, 2
  {
    match m
    case NoMembers => []
    case Member(lead, key, _, _, _, _, _) => lead + (Quoted(key) + PrintAfterKey(m))
  }

  /** What follows a member's name: its colon, its value and the members after it. */
  function PrintAfterKey(m: Members): Bytes
    requires m.Member?
    decreases m, 1
  {
    m.beforeColon + ([COLON] + (m.afterColon + (PrintValue(m.value) + PrintTail(m))))
  }

  function PrintTail(m: Members): Bytes
    requires m.Member?
    decreases m, 0
  {
    m.trail + if m.rest.NoMembers? then [] else [COMMA] + PrintMembers(m.rest)
  }

  // ---------- walking over whole pieces of text ----------

  /** The cursor after reading t, if no byte of t closes the outermost bracket. */
  function Walk(k: Kind, c: Cursor, t: Bytes): Option<Cursor>
    decreases |t|
  {
    if t == [] then Some(c)
    else if Closes(k, c, t[0]) then None
    else Walk(k, Step(k, c, t[0]), t[1..])
  }

  lemma {:induction false} WalkAppend(k: Kind, c: Cursor, a: Bytes, b: Bytes)
    requires Walk(k, c, a).Some?
    ensures Walk(k, c, a + b) == Walk(k, Walk(k, c, a).value, b)
    decreases |a|
  {
    if a == [] {
      assert a + b == b;
    } else {
      assert (a + b)[1..] == a[1..] + b;
      WalkAppend(k, Step(k, c, a[0]), a[1..], b);
    }
  }

  lemma {:induction false} CloseAfterWalk(k: Kind, c: Cursor, a: Bytes, b: Bytes)
    requires Walk(k, c, a).Some?
    ensures CloseAt(k, c, a + b) == Shift(CloseAt(k, Walk(k, c, a).value, b), |a|)
    decreases |a|
  {
    if a == [] {
      assert a + b == b;
    } else {
      assert (a + b)[1..] == a[1..] + b;
      CloseAfterWalk(k, Step(k, c, a[0]), a[1..], b);
    }
  }

  /** Outside strings at a depth of at least one: where every value of an open object is read. */
  function At(depth: int): Cursor { Cursor(depth, false, false) }

  predicate Inside(k: Kind, depth: int) {
    (k == BRACES || k == SQUARES) && depth >= 1
  }

  lemma {:induction false} WalkQuiet(k: Kind, depth: int, t: Bytes)
    requires Inside(k, depth)
    requires forall i :: 0 <= i < |t| ==> t[i] !in {QUOTE, LBRACE, RBRACE, LBRACKET, RBRACKET}
    ensures Walk(k, At(depth), t) == Some(At(depth))
    decreases |t|
  {
    if t != [] {
      assert t[0] !in {QUOTE, LBRACE, RBRACE, LBRACKET, RBRACKET};
      WalkQuiet(k, depth, t[1..]);
    }
  }

  lemma {:induction false} WalkBody(k: Kind, depth: int, body: Bytes)
    requires IsBody(body)
    ensures Walk(k, Cursor(depth, true, false), body) == Some(Cursor(depth, true, false))
    decreases |body|
  {
    if body != [] {
      if body[0] == BACKSLASH {
        assert body[1..][1..] == body[2..];
        WalkBody(k, depth, body[2..]);
      } else {
        WalkBody(k, depth, body[1..]);
      }
    }
  }

  lemma WalkQuoted(k: Kind, depth: int, body: Bytes)
    requires Inside(k, depth) && IsBody(body)
    ensures Walk(k, At(depth), Quoted(body)) == Some(At(depth))
  {
    WalkBody(k, depth, body);
    WalkAppend(k, Cursor(depth, true, false), body, [QUOTE]);
    assert Quoted(body)[1..] == body + [QUOTE];
  }

  /** Two pieces that each leave the cursor where it was leave it there together. */
  lemma WalkJoin(k: Kind, depth: int, a: Bytes, b: Bytes)
    requires Walk(k, At(depth), a) == Some(At(depth)) && Walk(k, At(depth), b) == Some(At(depth))
    ensures Walk(k, At(depth), a + b) == Some(At(depth))
  {
    WalkAppend(k, At(depth), a, b);
  }

  /** Text between brackets, of the counted kind or of the other one, leaves the cursor where it was. */
  lemma WalkBracketed(k: Kind, depth: int, kind: Kind, inner: Bytes)
    requires Inside(k, depth) && (kind == BRACES || kind == SQUARES)
    requires forall d :: Inside(k, d) ==> Walk(k, At(d), inner) == Some(At(d))
    ensures Walk(k, At(depth), [kind.open] + (inner + [kind.close])) == Some(At(depth))
  {
    var d := if k == kind then depth + 1 else depth;
    assert ([kind.open] + (inner + [kind.close]))[1..] == inner + [kind.close];
    assert Inside(k, d);
    WalkAppend(k, At(d), inner, [kind.close]);
  }

  /** A whole value leaves both bracket counters where they were. */
  lemma {:induction false} WalkValue(k: Kind, depth: int, v: Value)
    requires Inside(k, depth) && ValidValue(v)
    ensures Walk(k, At(depth), PrintValue(v)) == Some(At(depth))
    decreases v
  {
    match v
    case Scalar(token) =>
      assert forall i :: 0 <= i < |token| ==> IsTokenByte(token[i]);
      WalkQuiet(k, depth, token);
    case Str(body) =>
      WalkQuoted(k, depth, body);
    case Arr(gap, items) =>
      forall d | Inside(k, d)
        ensures Walk(k, At(d), gap + PrintItems(items)) == Some(At(d))
      {
        WalkItems(k, d, items);
        WalkGap(k, d, gap);
        WalkJoin(k, d, gap, PrintItems(items));
      }
      WalkBracketed(k, depth, SQUARES, gap + PrintItems(items));
    case Obj(gap, members) =>
      forall d | Inside(k, d)
        ensures Walk(k, At(d), gap + PrintMembers(members)) == Some(At(d))
      {
        WalkMembers(k, d, members);
        WalkGap(k, d, gap);
        WalkJoin(k, d, gap, PrintMembers(members));
      }
      WalkBracketed(k, depth, BRACES, gap + PrintMembers(members));
  }

  lemma WalkGap(k: Kind, depth: int, gap: Bytes)
    requires Inside(k, depth) && AllWs(gap)
    ensures Walk(k, At(depth), gap) == Some(At(depth))
  {
    assert forall i :: 0 <= i < |gap| ==> IsWs(gap[i]);
    WalkQuiet(k, depth, gap);
  }

  lemma {:induction false} WalkItems(k: Kind, depth: int, a: Items)
    requires Inside(k, depth) && ValidItems(a)
    ensures Walk(k, At(depth), PrintItems(a)) == Some(At(depth))
    decreases a
  {
    if a.Item? {
      var more := if a.rest.NoItems? then [] else [COMMA] + PrintItems(a.rest);
      WalkItems(k, depth, a.rest);
      WalkQuiet(k, depth, [COMMA]);
      WalkJoin(k, depth, [COMMA], PrintItems(a.rest));
      WalkGap(k, depth, a.trail);
      WalkJoin(k, depth, a.trail, more);
      WalkValue(k, depth, a.value);
      WalkJoin(k, depth, PrintValue(a.value), a.trail + more);
      WalkGap(k, depth, a.lead);
      WalkJoin(k, depth, a.lead, PrintValue(a.value) + (a.trail + more));
    }
  }

  lemma {:induction false} WalkMembers(k: Kind, depth: int, m: Members)
    requires Inside(k, depth) && ValidMembers(m)
    ensures Walk(k, At(depth), PrintMembers(m)) == Some(At(depth))
    decreases m, 1
  {
    if m.Member? {
      WalkAfterKey(k, depth, m);
      WalkQuoted(k, depth, m.key);
      WalkJoin(k, depth, Quoted(m.key), PrintAfterKey(m));
      WalkGap(k, depth, m.lead);
      WalkJoin(k, depth, m.lead, Quoted(m.key) + PrintAfterKey(m));
    }
  }

  lemma {:induction false} WalkAfterKey(k: Kind, depth: int, m: Members)
    requires m.Member? && Inside(k, depth) && ValidMembers(m)
    ensures Walk(k, At(depth), PrintAfterKey(m)) == Some(At(depth))
    decreases m, 0
  {
    var more := if m.rest.NoMembers? then [] else [COMMA] + PrintMembers(m.rest);
    WalkMembers(k, depth, m.rest);
    WalkQuiet(k, depth, [COMMA]);
    WalkJoin(k, depth, [COMMA], PrintMembers(m.rest));
    WalkGap(k, depth, m.trail);
    WalkJoin(k, depth, m.trail, more);
    WalkValue(k, depth, m.value);
    WalkJoin(k, depth, PrintValue(m.value), PrintTail(m));
    WalkGap(k, depth, m.afterColon);
    WalkJoin(k, depth, m.afterColon, PrintValue(m.value) + PrintTail(m));
    WalkQuiet(k, depth, [COLON]);
    WalkJoin(k, depth, [COLON], m.afterColon + (PrintValue(m.value) + PrintTail(m)));
    WalkGap(k, depth, m.beforeColon);
    WalkJoin(k, depth, m.beforeColon, [COLON] + (m.afterColon + (PrintValue(m.value) + PrintTail(m))));
  }

  // ---------- where strings and values end ----------

  lemma {:induction false} QuoteAfterBody(body: Bytes, rest: Bytes)
    requires IsBody(body)
    ensures QuoteAt(body + ([QUOTE] + rest), false) == Some(|body|)
    decreases |body|
  {
    var s := body + ([QUOTE] + rest);
    if body == [] {
      assert s == [QUOTE] + rest;
    } else if body[0] == BACKSLASH {
      assert s[1..][1..] == body[2..] + ([QUOTE] + rest);
      QuoteAfterBody(body[2..], rest);
    } else {
      assert s[1..] == body[1..] + ([QUOTE] + rest);
      QuoteAfterBody(body[1..], rest);
    }
  }

  /** The counting loops stop exactly at the bracket that matches the first one. */
  lemma BracketsEnd(kind: Kind, inner: Bytes, rest: Bytes)
    requires kind == BRACES || kind == SQUARES
    requires Walk(kind, At(1), inner) == Some(At(1))
    ensures CloseAt(kind, START, [kind.open] + (inner + [kind.close]) + rest) == Some(|inner| + 2)
  {
    var s := [kind.open] + (inner + [kind.close]) + rest;
    assert s[1..] == inner + ([kind.close] + rest);
    CloseAfterWalk(kind, At(1), inner, [kind.close] + rest);
  }

  /** A value other than a scalar ends where it was printed to end, whatever comes after it. */
  lemma {:induction false} ClosedValueEnd(v: Value, rest: Bytes)
    requires ValidValue(v) && !v.Scalar?
    ensures ValueEnd(PrintValue(v) + rest) == Some(|PrintValue(v)|)
  {
    var s := PrintValue(v) + rest;
    match v
    case Str(body) =>
      assert s[1..] == body + ([QUOTE] + rest);
      QuoteAfterBody(body, rest);
    case Arr(gap, items) =>
      WalkItems(SQUARES, 1, items);
      WalkGap(SQUARES, 1, gap);
      WalkJoin(SQUARES, 1, gap, PrintItems(items));
      BracketsEnd(SQUARES, gap + PrintItems(items), rest);
    case Obj(gap, members) =>
      ObjectEnd(gap, members, rest);
  }

  lemma ObjectEnd(gap: Bytes, members: Members, rest: Bytes)
    requires AllWs(gap) && ValidMembers(members)
    ensures CloseAt(BRACES, START, PrintValue(Obj(gap, members)) + rest) == Some(|PrintValue(Obj(gap, members))|)
  {
    WalkMembers(BRACES, 1, members);
    WalkGap(BRACES, 1, gap);
    WalkJoin(BRACES, 1, gap, PrintMembers(members));
    BracketsEnd(BRACES, gap + PrintMembers(members), rest);
  }

  lemma {:induction false} DelimiterAfter(t: Bytes, rest: Bytes)
    requires forall i :: 0 <= i < |t| ==> t[i] != COMMA && t[i] != RBRACE
    requires rest != [] && (rest[0] == COMMA || rest[0] == RBRACE)
    ensures DelimiterAt(t + rest) == |t|
    decreases |t|
  {
    if t == [] {
      assert t + rest == rest;
    } else {
      assert t[0] != COMMA && t[0] != RBRACE;
      assert (t + rest)[1..] == t[1..] + rest;
      DelimiterAfter(t[1..], rest);
    }
  }

  /** A scalar is skipped together with the spaces up to the delimiter after it. */
  lemma ScalarEnd(token: Bytes, trail: Bytes, rest: Bytes)
    requires IsToken(token) && AllWs(trail)
    requires rest != [] && (rest[0] == COMMA || rest[0] == RBRACE)
    ensures ValueEnd(token + (trail + rest)) == Some(|token| + |trail|)
  {
    assert IsTokenByte(token[0]);
    forall i | 0 <= i < |token + trail|
      ensures (token + trail)[i] != COMMA && (token + trail)[i] != RBRACE
    {
      if i < |token| {
        assert IsTokenByte(token[i]);
      } else {
        assert IsWs(trail[i - |token|]);
      }
    }
    assert token + (trail + rest) == (token + trail) + rest;
    DelimiterAfter(token + trail, rest);
  }

  // ---------- the search finds the first top-level "message" ----------

  /** What the object says about its "message" member; other members are not looked into. */
  function FirstMessage(decode: Bytes -> Bytes, m: Members): Found {
    match m
    case NoMembers => Absent
    case Member(_, key, _, _, value, _, rest) =>
      if decode(key) == MESSAGE then
        if value.Str? then Complete(value.body) else NotString
      else FirstMessage(decode, rest)
  }

  lemma ExtractSkips(decode: Bytes -> Bytes, gap: Bytes, s: Bytes)
    requires AllWs(gap)
    ensures Extract(decode, gap + s) == Extract(decode, s)
  {
    SkipWsOver(gap, s);
  }

  lemma ValueStart(v: Value)
    requires ValidValue(v)
    ensures PrintValue(v) != [] && !IsWs(PrintValue(v)[0])
    ensures PrintValue(v)[0] == QUOTE <==> v.Str?
  {
    if v.Scalar? {
      assert IsTokenByte(v.token[0]);
    }
  }

  lemma ExtractQuotedName(decode: Bytes -> Bytes, key: Bytes, after: Bytes)
    requires IsBody(key)
    ensures Extract(decode, Quoted(key) + after) == AfterKey(decode, decode(key) == MESSAGE, after)
  {
    var t := Quoted(key) + after;
    assert t[1..] == key + ([QUOTE] + after);
    QuoteAfterBody(key, after);
    assert t[1..|key| + 1] == key && t[|key| + 2..] == after;
    ExtractName(decode, t);
  }

  lemma {:induction false} ExtractMembers(decode: Bytes -> Bytes, m: Members, junk: Bytes)
    requires ValidMembers(m)
    ensures Extract(decode, PrintMembers(m) + ([RBRACE] + junk)) == FirstMessage(decode, m)
    decreases m, 2
  {
    var end := [RBRACE] + junk;
    if m.NoMembers? {
      assert PrintMembers(m) + end == end;
    } else {
      var after := PrintAfterKey(m) + end;
      assert PrintMembers(m) + end == m.lead + (Quoted(m.key) + after);
      ExtractSkips(decode, m.lead, Quoted(m.key) + after);
      ExtractQuotedName(decode, m.key, after);
      ExtractMember(decode, m, junk);
    }
  }

  lemma {:induction false} ExtractMember(decode: Bytes -> Bytes, m: Members, junk: Bytes)
    requires m.Member? && ValidMembers(m)
    ensures AfterKey(decode, decode(m.key) == MESSAGE, PrintAfterKey(m) + ([RBRACE] + junk)) == FirstMessage(decode, m)
    decreases m, 1
  {
    var end := [RBRACE] + junk;
    var v := PrintValue(m.value) + (PrintTail(m) + end);
    var u := [COLON] + (m.afterColon + v);
    assert PrintAfterKey(m) + end == m.beforeColon + u;
    SkipWsOver(m.beforeColon, u);
    assert SkipWs(u) == u && u[1..] == m.afterColon + v;
    SkipWsOver(m.afterColon, v);
    ValueStart(m.value);
    assert SkipWs(v) == v;
    if decode(m.key) == MESSAGE {
      AtValue(m.value, PrintTail(m) + end);
    } else {
      ExtractTail(decode, m, junk);
    }
  }

  lemma AtValue(v: Value, rest: Bytes)
    requires ValidValue(v) && PrintValue(v) + rest != []
    ensures AtMessage(PrintValue(v) + rest) == if v.Str? then Complete(v.body) else NotString
  {
    ValueStart(v);
    if v.Str? {
      var s := PrintValue(v) + rest;
      assert s[1..] == v.body + ([QUOTE] + rest);
      QuoteAfterBody(v.body, rest);
      assert s[1..|v.body| + 1] == v.body;
    }
  }

  /** The text after a member's value and spaces: the next member, or the end of the object. */
  function PrintNext(rest: Members, junk: Bytes): Bytes {
    if rest.NoMembers? then [RBRACE] + junk else [COMMA] + (PrintMembers(rest) + ([RBRACE] + junk))
  }

  lemma {:induction false} ExtractNext(decode: Bytes -> Bytes, rest: Members, junk: Bytes)
    requires ValidMembers(rest)
    ensures Extract(decode, PrintNext(rest, junk)) == FirstMessage(decode, rest)
    decreases rest, 3
  {
    var next := PrintNext(rest, junk);
    ExtractMembers(decode, rest, junk);
    if rest.Member? {
      assert SkipWs(next) == next && next[1..] == PrintMembers(rest) + ([RBRACE] + junk);
    } else {
      assert PrintMembers(rest) + ([RBRACE] + junk) == next;
    }
  }

  /** Skipping the value of an unwanted member and going on finds what the later members say. */
  lemma {:induction false} ExtractTail(decode: Bytes -> Bytes, m: Members, junk: Bytes)
    requires m.Member? && ValidMembers(m)
    ensures var v := PrintValue(m.value) + (PrintTail(m) + ([RBRACE] + junk));
            ValueEnd(v).Some? && Extract(decode, v[ValueEnd(v).value..]) == FirstMessage(decode, m.rest)
    decreases m, 0
  {
    hide Extract, ValueEnd, FirstMessage, PrintValue, PrintTail, PrintNext;
    var next := PrintNext(m.rest, junk);
    TailSplits(m, junk);
    ExtractNext(decode, m.rest, junk);
    AfterValue(decode, m.value, m.trail, next);
  }

  /** What follows a value is its white space and then the next member or the end. */
  lemma TailSplits(m: Members, junk: Bytes)
    requires m.Member?
    ensures PrintTail(m) + ([RBRACE] + junk) == m.trail + PrintNext(m.rest, junk)
    ensures var next := PrintNext(m.rest, junk); next != [] && (next[0] == COMMA || next[0] == RBRACE)
  {
    hide PrintMembers;
    var end := [RBRACE] + junk;
    if m.rest.NoMembers? {
      assert m.trail + [] == m.trail;
    } else {
      Assoc(m.trail, [COMMA] + PrintMembers(m.rest), end);
      Assoc([COMMA], PrintMembers(m.rest), end);
    }
  }

  /** The search goes on at the delimiter after a value, before or behind the white space in front of it. */
  lemma AfterValue(decode: Bytes -> Bytes, value: Value, trail: Bytes, next: Bytes)
    requires ValidValue(value) && AllWs(trail)
    requires next != [] && (next[0] == COMMA || next[0] == RBRACE)
    ensures var v := PrintValue(value) + (trail + next);
            ValueEnd(v).Some? && Extract(decode, v[ValueEnd(v).value..]) == Extract(decode, next)
  {
    hide Extract, ValueEnd;
    var v := PrintValue(value) + (trail + next);
    if value.Scalar? {
      ScalarEnd(value.token, trail, next);
      assert v[|value.token| + |trail|..] == next;
    } else {
      hide PrintValue;
      ClosedValueEnd(value, trail + next);
      assert v[|PrintValue(value)|..] == trail + next;
      ExtractSkips(decode, trail, next);
    }
  }

  lemma {:induction false} FromBraceAfter(noise: Bytes, s: Bytes)
    requires LBRACE !in noise && s != [] && s[0] == LBRACE
    ensures FromBrace(noise + s) == s
  {
    if noise == [] {
      assert noise + s == s;
    } else {
      assert noise[0] in noise && (noise + s)[1..] == noise[1..] + s;
      FromBraceAfter(noise[1..], s);
    }
  }

  /**
    For every well-formed object, whatever brace-free noise precedes it and whatever bytes
    follow it, the object prefix is exactly the object text.
   */
  lemma ObjectIsolated(noise: Bytes, gap: Bytes, m: Members, junk: Bytes)
    requires LBRACE !in noise && AllWs(gap) && ValidMembers(m)
    ensures FirstObject(FromBrace(noise + (PrintValue(Obj(gap, m)) + junk)))
            == ObjectPrefix(PrintValue(Obj(gap, m)), true)
  {
    var text := PrintValue(Obj(gap, m));
    FromBraceAfter(noise, text + junk);
    ObjectEnd(gap, m, junk);
    assert (text + junk)[..|text|] == text;
  }

  /**
    The main result: the stream extractor reports the raw body of the first top-level member
    named "message", the not-a-string error if that member holds something else, and nothing
    if there is no such member, for every well-formed object text in any surroundings.
   */
  lemma ExtractorCorrect(decode: Bytes -> Bytes, noise: Bytes, gap: Bytes, m: Members, junk: Bytes)
    requires LBRACE !in noise && AllWs(gap) && ValidMembers(m)
    ensures StreamFound(decode, noise + (PrintValue(Obj(gap, m)) + junk)) == FirstMessage(decode, m)
  {
    ObjectIsolated(noise, gap, m, junk);
    var text := PrintValue(Obj(gap, m));
    assert text[1..] == gap + (PrintMembers(m) + ([RBRACE] + []));
    ExtractSkips(decode, gap, PrintMembers(m) + ([RBRACE] + []));
    ExtractMembers(decode, m, []);
  }

  // ---------- objects that are still arriving ----------

  /** Members that are followed by more: each with the comma behind it. */
  function PrintBefore(m: Members): Bytes
    decreases m
  {
    match m
    case NoMembers => []
    case Member(lead, key, beforeColon, afterColon, value, trail, rest) =>
      lead + (Quoted(key) + (beforeColon + ([COLON] + (afterColon + (PrintValue(value) + (trail
        + ([COMMA] + PrintBefore(rest))))))))
  }

  /** A member with a string value of which i bytes are there. */
  function OpenMember(m: Members, i: nat): Bytes
    requires m.Member? && m.value.Str? && i <= |m.value.body|
  {
    m.lead + (Quoted(m.key) + (m.beforeColon + ([COLON] + (m.afterColon + ([QUOTE] + m.value.body[..i])))))
  }

  lemma {:induction false} WalkBefore(k: Kind, depth: int, m: Members)
    requires Inside(k, depth) && ValidMembers(m)
    ensures Walk(k, At(depth), PrintBefore(m)) == Some(At(depth))
    decreases m
  {
    if m.Member? {
      hide Walk, PrintValue, Quoted;
      WalkBefore(k, depth, m.rest);
      WalkQuiet(k, depth, [COMMA]);
      WalkJoin(k, depth, [COMMA], PrintBefore(m.rest));
      var more := [COMMA] + PrintBefore(m.rest);
      WalkGap(k, depth, m.trail);
      WalkJoin(k, depth, m.trail, more);
      WalkValue(k, depth, m.value);
      WalkJoin(k, depth, PrintValue(m.value), m.trail + more);
      WalkName(k, depth, m, PrintValue(m.value) + (m.trail + more));
    }
  }

  /** A member's name and colon in front of text that leaves the cursor where it was. */
  lemma WalkName(k: Kind, depth: int, m: Members, after: Bytes)
    requires m.Member? && Inside(k, depth) && ValidMembers(m)
    requires Walk(k, At(depth), after) == Some(At(depth))
    ensures Walk(k, At(depth), m.lead + (Quoted(m.key) + (m.beforeColon + ([COLON] + (m.afterColon + after)))))
            == Some(At(depth))
  {
    hide Walk, Quoted;
    WalkHead(k, depth, m);
    var head := m.lead + (Quoted(m.key) + (m.beforeColon + ([COLON] + m.afterColon)));
    WalkJoin(k, depth, head, after);
    HeadSplits(m, after);
  }

  lemma HeadSplits(m: Members, after: Bytes)
    requires m.Member?
    ensures m.lead + (Quoted(m.key) + (m.beforeColon + ([COLON] + (m.afterColon + after))))
            == (m.lead + (Quoted(m.key) + (m.beforeColon + ([COLON] + m.afterColon)))) + after
  {
    hide Quoted;
    var name, colon := Quoted(m.key), [COLON] + m.afterColon;
    Assoc([COLON], m.afterColon, after);
    Assoc(m.beforeColon, colon, after);
    Assoc(name, m.beforeColon + colon, after);
    Assoc(m.lead, name + (m.beforeColon + colon), after);
  }

  lemma WalkHead(k: Kind, depth: int, m: Members)
    requires m.Member? && Inside(k, depth) && ValidMembers(m)
    ensures Walk(k, At(depth), m.lead + (Quoted(m.key) + (m.beforeColon + ([COLON] + m.afterColon)))) == Some(At(depth))
  {
    hide Walk, Quoted;
    WalkGap(k, depth, m.afterColon);
    WalkQuiet(k, depth, [COLON]);
    WalkJoin(k, depth, [COLON], m.afterColon);
    WalkGap(k, depth, m.beforeColon);
    WalkJoin(k, depth, m.beforeColon, [COLON] + m.afterColon);
    WalkQuoted(k, depth, m.key);
    WalkJoin(k, depth, Quoted(m.key), m.beforeColon + ([COLON] + m.afterColon));
    WalkGap(k, depth, m.lead);
    WalkJoin(k, depth, m.lead, Quoted(m.key) + (m.beforeColon + ([COLON] + m.afterColon)));
  }

  /** No byte of a string body closes a bracket, wherever the body is cut. */
  lemma {:induction false} WalkCutBody(k: Kind, depth: int, body: Bytes, i: nat)
    requires IsBody(body) && i <= |body|
    ensures Walk(k, Cursor(depth, true, false), body[..i]).Some?
    decreases |body|
  {
    if i > 0 {
      if body[0] == BACKSLASH {
        if i > 1 {
          assert body[..i][1..][1..] == body[2..][..i - 2];
          WalkCutBody(k, depth, body[2..], i - 2);
        } else {
          assert body[..i][1..] == [];
        }
      } else {
        assert body[..i][1..] == body[1..][..i - 1];
        WalkCutBody(k, depth, body[1..], i - 1);
      }
    }
  }

  lemma WalkOpenMember(k: Kind, depth: int, m: Members, i: nat)
    requires m.Member? && m.value.Str? && i <= |m.value.body|
    requires Inside(k, depth) && ValidMembers(m)
    ensures Walk(k, At(depth), OpenMember(m, i)).Some?
  {
    var after := [QUOTE] + m.value.body[..i];
    WalkCutBody(k, depth, m.value.body, i);
    assert after[1..] == m.value.body[..i];
    assert Walk(k, At(depth), after).Some?;
    hide Walk, Quoted;
    WalkHead(k, depth, m);
    HeadSplits(m, after);
    WalkAppend(k, At(depth), m.lead + (Quoted(m.key) + (m.beforeColon + ([COLON] + m.afterColon))), after);
  }

  /** The search passes over unwanted members that are followed by more. */
  lemma {:induction false} ExtractBefore(decode: Bytes -> Bytes, m: Members, s: Bytes)
    requires ValidMembers(m) && FirstMessage(decode, m) == Absent
    ensures Extract(decode, PrintBefore(m) + s) == Extract(decode, s)
    decreases m
  {
    hide Extract, PrintValue, Quoted, ValueEnd, SkipWs;
    if m.NoMembers? {
      assert PrintBefore(m) + s == s;
    } else {
      var next := [COMMA] + (PrintBefore(m.rest) + s);
      var v := PrintValue(m.value) + (m.trail + next);
      BeforeSplits(m, s);
      ExtractSkips(decode, m.lead, Quoted(m.key) + (m.beforeColon + ([COLON] + (m.afterColon + v))));
      ExtractQuotedName(decode, m.key, m.beforeColon + ([COLON] + (m.afterColon + v)));
      AfterValue(decode, m.value, m.trail, next);
      NoSpaceFirst(m.value, m.trail + next);
      UnwantedName(decode, m, v);
      CommaSkipped(decode, PrintBefore(m.rest) + s);
      ExtractBefore(decode, m.rest, s);
    }
  }

  lemma NoSpaceFirst(v: Value, rest: Bytes)
    requires ValidValue(v)
    ensures PrintValue(v) + rest != [] && SkipWs(PrintValue(v) + rest) == PrintValue(v) + rest
  {
    ValueStart(v);
  }

  lemma BeforeSplits(m: Members, s: Bytes)
    requires m.Member?
    ensures PrintBefore(m) + s ==
            m.lead + (Quoted(m.key) + (m.beforeColon + ([COLON] + (m.afterColon
              + (PrintValue(m.value) + (m.trail + ([COMMA] + (PrintBefore(m.rest) + s))))))))
  {
    hide PrintValue, Quoted;
    var rest := PrintBefore(m.rest);
    var after := PrintValue(m.value) + (m.trail + ([COMMA] + rest));
    Assoc([COMMA], rest, s);
    Assoc(m.trail, [COMMA] + rest, s);
    Assoc(PrintValue(m.value), m.trail + ([COMMA] + rest), s);
    HeadSplits(m, after);
    HeadSplits(m, after + s);
    Assoc(m.lead + (Quoted(m.key) + (m.beforeColon + ([COLON] + m.afterColon))), after, s);
  }

  lemma UnwantedName(decode: Bytes -> Bytes, m: Members, v: Bytes)
    requires m.Member? && ValidMembers(m)
    requires v != [] && SkipWs(v) == v && ValueEnd(v).Some?
    ensures AfterKey(decode, false, m.beforeColon + ([COLON] + (m.afterColon + v)))
            == Extract(decode, v[ValueEnd(v).value..])
  {
    hide Extract, ValueEnd;
    ColonFound(m, v);
  }

  lemma ColonFound(m: Members, v: Bytes)
    requires m.Member? && ValidMembers(m) && SkipWs(v) == v
    ensures var u := SkipWs(m.beforeColon + ([COLON] + (m.afterColon + v)));
            u != [] && u[0] == COLON && SkipWs(u[1..]) == v
  {
    var u := [COLON] + (m.afterColon + v);
    SkipWsOver(m.beforeColon, u);
    assert SkipWs(u) == u && u[1..] == m.afterColon + v;
    SkipWsOver(m.afterColon, v);
  }

  lemma CommaSkipped(decode: Bytes -> Bytes, s: Bytes)
    ensures Extract(decode, [COMMA] + s) == Extract(decode, s)
  {
    var t := [COMMA] + s;
    assert SkipWs(t) == t && t[1..] == s;
  }

  /** Up to the value of a member: the wanted one is awaited, any other says nothing. */
  lemma ValueAwaited(decode: Bytes -> Bytes, m: Members)
    requires m.Member? && ValidMembers(m)
    ensures Extract(decode, m.lead + (Quoted(m.key) + (m.beforeColon + ([COLON] + m.afterColon))))
            == if decode(m.key) == MESSAGE then Pending else Absent
  {
    hide Extract, Quoted, QuoteAt;
    ExtractSkips(decode, m.lead, Quoted(m.key) + (m.beforeColon + ([COLON] + m.afterColon)));
    ExtractQuotedName(decode, m.key, m.beforeColon + ([COLON] + m.afterColon));
    assert m.afterColon + [] == m.afterColon;
    ColonFound(m, []);
  }

  lemma ExtractOpenMember(decode: Bytes -> Bytes, m: Members, i: nat)
    requires m.Member? && ValidMembers(m) && decode(m.key) == MESSAGE && m.value.Str? && i <= |m.value.body|
    ensures Extract(decode, OpenMember(m, i)) == Partial(m.value.body[..i])
  {
    hide Extract, Quoted, QuoteAt;
    var body := m.value.body[..i];
    var v := [QUOTE] + body;
    ExtractSkips(decode, m.lead, Quoted(m.key) + (m.beforeColon + ([COLON] + (m.afterColon + v))));
    ExtractQuotedName(decode, m.key, m.beforeColon + ([COLON] + (m.afterColon + v)));
    assert SkipWs(v) == v && v[1..] == body;
    ColonFound(m, v);
    NoQuoteInBody(m.value.body, i);
  }

  lemma {:induction false} NoQuoteInBody(body: Bytes, i: nat)
    requires IsBody(body) && i <= |body|
    ensures QuoteAt(body[..i], false) == None
    decreases |body|
  {
    if i > 0 {
      if body[0] == BACKSLASH {
        if i > 1 {
          assert body[..i][1..][1..] == body[2..][..i - 2];
          NoQuoteInBody(body[2..], i - 2);
        } else {
          assert body[..i][1..] == [];
        }
      } else {
        assert body[..i][1..] == body[1..][..i - 1];
        NoQuoteInBody(body[1..], i - 1);
      }
    }
  }
}
