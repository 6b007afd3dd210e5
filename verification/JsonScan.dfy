/**
  The hand-written JSON scanner of pkg/startpoint/startpoint.go: bracket counting,
  string scanning, value skipping and the search for the top-level "message" member.
  Each index loop is a method proved against a function on the remaining suffix.
 */
module JsonScan {
  import opened Wrappers
  import opened ByteStrings

  // ---------- bracket counting ----------

  /** The three variables the bracket loops carry. */
  datatype Cursor = Cursor(depth: int, inString: bool, escaped: bool)

  /** The one kind of bracket a loop counts; the other kind is an ordinary byte to it. */
  datatype Kind = Kind(open: byte, close: byte)

  const BRACES := Kind(LBRACE, RBRACE)
  const SQUARES := Kind(LBRACKET, RBRACKET)
  const START := Cursor(0, false, false)

  function Step(k: Kind, c: Cursor, b: byte): Cursor {
    if c.inString then
      if c.escaped then c.(escaped := false)
      else if b == BACKSLASH then c.(escaped := true)
      else if b == QUOTE then c.(inString := false)
      else c
    else if b == QUOTE then c.(inString := true)
    else if b == k.open then c.(depth := c.depth + 1)
    else if b == k.close then c.(depth := c.depth - 1)
    else c
  }

  predicate Closes(k: Kind, c: Cursor, b: byte) {
    !c.inString && b == k.close && c.depth == 1
  }

  /** The length of s up to and including the byte that brings the depth back to zero. */
  function CloseAt(k: Kind, c: Cursor, s: Bytes): (r: Option<nat>)
    ensures r.Some? ==> 0 < r.value <= |s|
    decreases |s|
  {
    if s == [] then None
    else if Closes(k, c, s[0]) then Some(1)
    else Shift(CloseAt(k, Step(k, c, s[0]), s[1..]), 1)
  }

  /** CloseAt read at an index of a longer string. */
  lemma CloseAtIndex(k: Kind, c: Cursor, s: Bytes, j: nat)
    requires j < |s|
    ensures CloseAt(k, c, s[j..]) ==
            if Closes(k, c, s[j]) then Some(1) else Shift(CloseAt(k, Step(k, c, s[j]), s[j + 1..]), 1)
  {
    assert s[j..][1..] == s[j + 1..];
  }

  lemma NothingCloses(k: Kind, s: Bytes)
    ensures forall c :: CloseAt(k, c, s[|s|..]) == None
  {
  }

  method ScanBrackets(k: Kind, s: Bytes, start: nat) returns (next: nat, complete: bool)
    requires start <= |s|
    requires k == BRACES || k == SQUARES
    ensures match CloseAt(k, START, s[start..])
            case Some(n) => complete && next == start + n
            case None => !complete && next == |s|
  {
    hide CloseAt;
    NothingCloses(k, s);
    var depth, inString, escaped := 0, false, false;
    var j := start;
    while j < |s|
      invariant start <= j <= |s|
      invariant CloseAt(k, START, s[start..]) == Shift(CloseAt(k, Cursor(depth, inString, escaped), s[j..]), j - start)
    {
      var ch := s[j];
      ghost var c := Cursor(depth, inString, escaped);
      CloseAtIndex(k, c, s, j);
      j := j + 1;
      if inString {
        if escaped {
          escaped := false;
        } else if ch == BACKSLASH {
          escaped := true;
        } else if ch == QUOTE {
          inString := false;
        }
      } else if ch == QUOTE {
        inString := true;
      } else if ch == k.open {
        depth := depth + 1;
      } else if ch == k.close {
        depth := depth - 1;
        if depth == 0 {
          return j, true;
        }
      }
      assert Cursor(depth, inString, escaped) == Step(k, c, ch);
    }
    return |s|, false;
  }

  /** The first JSON object of s, or all of s while it is still open. */
  datatype ObjectPrefix = ObjectPrefix(prefix: Bytes, complete: bool)

  function FirstObject(s: Bytes): ObjectPrefix {
    if s == [] || s[0] != LBRACE then ObjectPrefix([], false)
    else match CloseAt(BRACES, START, s)
      case Some(n) => ObjectPrefix(s[..n], true)
      case None => ObjectPrefix(s, false)
  }

  method FirstJSONObjectPrefix(s: Bytes) returns (prefix: Bytes, complete: bool)
    ensures ObjectPrefix(prefix, complete) == FirstObject(s)
  {
    if s == [] || s[0] != LBRACE {
      return [], false;
    }
    var next: nat;
    assert s[0..] == s;
    next, complete := ScanBrackets(BRACES, s, 0);
    prefix := s[..next];
  }

  // ---------- strings ----------

  /** Where the first unescaped quote of s is. */
  function QuoteAt(s: Bytes, escaped: bool): (r: Option<nat>)
    ensures r.Some? ==> r.value < |s| && s[r.value] == QUOTE
  {
    if s == [] then None
    else if escaped then Shift(QuoteAt(s[1..], false), 1)
    else if s[0] == BACKSLASH then Shift(QuoteAt(s[1..], true), 1)
    else if s[0] == QUOTE then Some(0)
    else Shift(QuoteAt(s[1..], false), 1)
  }

  lemma NoQuoteInNothing(s: Bytes, escaped: bool)
    ensures QuoteAt(s[|s|..], escaped) == None
  {
  }

  /** QuoteAt read at an index of a longer string. */
  lemma QuoteAtIndex(s: Bytes, i: nat, escaped: bool)
    requires i < |s|
    ensures QuoteAt(s[i..], escaped) ==
            if !escaped && s[i] == QUOTE then Some(0)
            else Shift(QuoteAt(s[i + 1..], !escaped && s[i] == BACKSLASH), 1)
  {
    assert s[i..][1..] == s[i + 1..];
  }

  method ScanJSONStringRaw(s: Bytes, start: nat) returns (raw: Bytes, next: nat, complete: bool)
    ensures start >= |s| || s[start] != QUOTE ==> raw == [] && next == start && !complete
    ensures start < |s| && s[start] == QUOTE ==>
              match QuoteAt(s[start + 1..], false)
              case Some(n) => complete && next == start + n + 2 && raw == s[start + 1..start + 1 + n]
              case None => !complete && next == |s| && raw == s[start + 1..]
  {
    if start >= |s| || s[start] != QUOTE {
      return [], start, false;
    }
    raw, next, complete := ScanToQuote(s, start + 1);
  }

  lemma SliceGrows(s: Bytes, from: nat, i: nat)
    requires from <= i < |s|
    ensures s[from..i] + [s[i]] == s[from..i + 1]
  {
  }

  /** The loop over the body of a string. */
  method ScanToQuote(s: Bytes, from: nat) returns (raw: Bytes, next: nat, complete: bool)
    requires from <= |s|
    ensures match QuoteAt(s[from..], false)
            case Some(n) => complete && next == from + n + 1 && raw == s[from..from + n]
            case None => !complete && next == |s| && raw == s[from..]
  {
    hide QuoteAt;
    raw := [];
    var escaped := false;
    var i := from;
    while i < |s|
      invariant from <= i <= |s|
      invariant raw == s[from..i]
      invariant QuoteAt(s[from..], false) == Shift(QuoteAt(s[i..], escaped), i - from)
    {
      var ch := s[i];
      QuoteAtIndex(s, i, escaped);
      SliceGrows(s, from, i);
      if escaped {
        raw := raw + [ch];
        escaped := false;
      } else if ch == BACKSLASH {
        raw := raw + [ch];
        escaped := true;
      } else if ch == QUOTE {
        return raw, i + 1, true;
      } else {
        raw := raw + [ch];
      }
      i := i + 1;
    }
    NoQuoteInNothing(s, escaped);
    assert s[from..i] == s[from..];
    return raw, |s|, false;
  }

  // ---------- values ----------

  /** Where the first ',' or '}' of s is; all of s when there is none. */
  function DelimiterAt(s: Bytes): (n: nat)
    ensures n <= |s|
  {
    if s == [] || s[0] == COMMA || s[0] == RBRACE then 0 else 1 + DelimiterAt(s[1..])
  }

  /** How many bytes the value at the start of s takes, if it is known to have ended. */
  function ValueEnd(s: Bytes): (r: Option<nat>)
    ensures r.Some? ==> r.value <= |s|
  {
    if s == [] then None
    else if s[0] == QUOTE then Shift(QuoteAt(s[1..], false), 2)
    else if s[0] == LBRACE then CloseAt(BRACES, START, s)
    else if s[0] == LBRACKET then CloseAt(SQUARES, START, s)
    else Some(DelimiterAt(s))
  }

  method SkipJSONValue(s: Bytes, i: nat) returns (next: nat, ok: bool)
    ensures i >= |s| ==> next == i && !ok
    ensures i < |s| ==> match ValueEnd(s[i..])
                        case Some(n) => ok && next == i + n
                        case None => !ok && next == |s|
  {
    if i >= |s| {
      return i, false;
    }
    assert s[i..][0] == s[i] && s[i..][1..] == s[i + 1..];
    if s[i] == QUOTE {
      var _, end, complete := ScanJSONStringRaw(s, i);
      return end, complete;
    } else if s[i] == LBRACE {
      next, ok := ScanBrackets(BRACES, s, i);
    } else if s[i] == LBRACKET {
      next, ok := ScanBrackets(SQUARES, s, i);
    } else {
      var j := i;
      while j < |s|
        invariant i <= j <= |s|
        invariant DelimiterAt(s[i..]) == j - i + DelimiterAt(s[j..])
      {
        if s[j] == COMMA || s[j] == RBRACE {
          return j, true;
        }
        assert s[j..][1..] == s[j + 1..];
        j := j + 1;
      }
      return |s|, true;
    }
  }

  // ---------- the top-level "message" member ----------

  /**
    What the scan of an object text says about its "message" member: nothing yet, seen but
    without a value, present but not a string, an open string, or a closed one. The bodies
    are raw, that is, before escapes are decoded.
   */
  datatype Found = Absent | Pending | NotString | Partial(body: Bytes) | Complete(body: Bytes)

  /** The scan loop on the suffix that is left. decode is the lossy escape decoder. */
  function Extract(decode: Bytes -> Bytes, s: Bytes): Found
    decreases |s|
  {
    var t := SkipWs(s);
    if t == [] || t[0] == RBRACE then Absent
    else if t[0] != QUOTE then Extract(decode, t[1..])
    else match QuoteAt(t[1..], false)
      case None => Absent
      case Some(n) => AfterKey(decode, decode(t[1..n + 1]) == MESSAGE, t[n + 2..])
  }

  /** The part of the loop body that follows a complete member name. */
  function AfterKey(decode: Bytes -> Bytes, wanted: bool, s: Bytes): Found
    decreases |s|
  {
    var u := SkipWs(s);
    if u == [] || u[0] != COLON then Absent
    else
      var v := SkipWs(u[1..]);
      if v == [] then if wanted then Pending else Absent
      else if wanted then AtMessage(v)
      else match ValueEnd(v)
        case None => Absent
        case Some(m) => Extract(decode, v[m..])
  }

  function AtMessage(v: Bytes): Found
    requires v != []
  {
    if v[0] != QUOTE then NotString
    else match QuoteAt(v[1..], false)
      case None => Partial(v[1..])
      case Some(m) => Complete(v[1..m + 1])
  }

  method SkipSpaces(s: Bytes, start: nat) returns (i: nat)
    requires start <= |s|
    ensures start <= i <= |s| && s[i..] == SkipWs(s[start..])
  {
    i := start;
    while i < |s| && IsWs(s[i])
      invariant start <= i <= |s|
      invariant SkipWs(s[start..]) == SkipWs(s[i..])
    {
      assert s[i..][1..] == s[i + 1..];
      i := i + 1;
    }
  }

  /** The search in an object prefix; the text after its opening brace is scanned. */
  function FindMessage(decode: Bytes -> Bytes, obj: Bytes): Found {
    if obj == [] || obj[0] != LBRACE then Absent else Extract(decode, obj[1..])
  }

  method ScanWanted(obj: Bytes, i: nat) returns (f: Found)
    requires i < |obj|
    ensures f == AtMessage(obj[i..])
  {
    ghost var v := obj[i..];
    if obj[i] != QUOTE {
      return NotString;
    }
    var valRaw, _, valComplete := ScanJSONStringRaw(obj, i);
    assert v[1..] == obj[i + 1..];
    if valComplete {
      assert v[1..QuoteAt(v[1..], false).value + 1] == valRaw;
      return Complete(valRaw);
    }
    return Partial(valRaw);
  }

  /** The loop body from the end of a member name on: a result to return, or where to go on. */
  method ScanMember(decode: Bytes -> Bytes, wanted: bool, obj: Bytes, afterKey: nat)
    returns (result: Option<Found>, next: nat)
    requires afterKey <= |obj|
    ensures result.Some? ==> result.value == AfterKey(decode, wanted, obj[afterKey..])
    ensures result.None? ==> afterKey < next <= |obj|
                             && AfterKey(decode, wanted, obj[afterKey..]) == Extract(decode, obj[next..])
  {
    hide Extract, ValueEnd, AtMessage;
    var i := SkipSpaces(obj, afterKey);
    if i >= |obj| || obj[i] != COLON {
      return Some(Absent), i;
    }
    assert obj[i..][1..] == obj[i + 1..];
    i := SkipSpaces(obj, i + 1);
    if i >= |obj| {
      return Some(if wanted then Pending else Absent), i;
    }
    if wanted {
      var f := ScanWanted(obj, i);
      return Some(f), i;
    }
    var nextValue, ok := SkipJSONValue(obj, i);
    if !ok {
      return Some(Absent), i;
    }
    assert obj[i..][nextValue - i..] == obj[nextValue..];
    return None, nextValue;
  }

  /** Extract at a member name. */
  lemma ExtractName(decode: Bytes -> Bytes, t: Bytes)
    requires t != [] && t[0] == QUOTE
    ensures Extract(decode, t) == match QuoteAt(t[1..], false)
                                  case None => Absent
                                  case Some(n) => AfterKey(decode, decode(t[1..n + 1]) == MESSAGE, t[n + 2..])
  {
    assert SkipWs(t) == t;
  }

  lemma ExtractAtOther(decode: Bytes -> Bytes, obj: Bytes, i: nat, j: nat)
    requires i <= j <= |obj| && obj[j..] == SkipWs(obj[i..])
    ensures Extract(decode, obj[i..]) == Extract(decode, obj[j..])
    ensures j == |obj| || obj[j] == RBRACE ==> Extract(decode, obj[j..]) == Absent
    ensures j < |obj| && obj[j] != RBRACE && obj[j] != QUOTE ==>
              Extract(decode, obj[j..]) == Extract(decode, obj[j + 1..])
  {
    var t := obj[j..];
    assert SkipWs(t) == t;
    if t != [] {
      assert t[1..] == obj[j + 1..];
    }
  }

  /** One round of the search loop from a byte that is not a space. */
  method SearchRound(decode: Bytes -> Bytes, obj: Bytes, i: nat) returns (result: Option<Found>, next: nat)
    requires i < |obj| && !IsWs(obj[i])
    ensures result.Some? ==> result.value == Extract(decode, obj[i..])
    ensures result.None? ==> i < next <= |obj| && Extract(decode, obj[i..]) == Extract(decode, obj[next..])
  {
    ExtractAtOther(decode, obj, i, i);
    if obj[i] == RBRACE {
      return Some(Absent), i;
    }
    if obj[i] == COMMA {
      return None, i + 1;
    }
    if obj[i] != QUOTE {
      return None, i + 1;
    }
    ExtractName(decode, obj[i..]);
    assert obj[i..][1..] == obj[i + 1..];
    var keyRaw, afterKey, keyComplete := ScanJSONStringRaw(obj, i);
    if !keyComplete {
      return Some(Absent), i;
    }
    assert obj[i..][1..afterKey - i - 1] == keyRaw && obj[i..][afterKey - i..] == obj[afterKey..];
    result, next := ScanMember(decode, decode(keyRaw) == MESSAGE, obj, afterKey);
  }

  method ExtractTopLevelMessage(decode: Bytes -> Bytes, obj: Bytes) returns (f: Found)
    ensures f == FindMessage(decode, obj)
  {
    if obj == [] || obj[0] != LBRACE {
      return Absent;
    }
    var i := 1;
    while i < |obj|
      invariant 1 <= i <= |obj|
      invariant FindMessage(decode, obj) == Extract(decode, obj[i..])
    {
      var j := SkipSpaces(obj, i);
      ExtractAtOther(decode, obj, i, j);
      if j >= |obj| {
        return Absent;
      }
      var result;
      result, i := SearchRound(decode, obj, j);
      if result.Some? {
        return result.value;
      }
    }
    return Absent;
  }

  /** The bytes of s from its first '{' on; empty when there is none. */
  function FromBrace(s: Bytes): (r: Bytes)
    ensures r != [] ==> r[0] == LBRACE
  {
    if s == [] || s[0] == LBRACE then s else FromBrace(s[1..])
  }

  /** The whole of extractStreamText before decoding: brace, object prefix, member search. */
  function StreamFound(decode: Bytes -> Bytes, raw: Bytes): Found {
    FindMessage(decode, FirstObject(FromBrace(raw)).prefix)
  }

  /** What extractStreamText returns: (text, complete, err). */
  datatype StreamText = StreamText(text: Bytes, complete: bool, isError: bool)

  function Report(decode: Bytes -> Bytes, f: Found): StreamText {
    match f
    case Absent => StreamText([], false, false)
    case Pending => StreamText([], false, false)
    case NotString => StreamText([], false, true)
    case Partial(body) => StreamText(decode(body), false, false)
    case Complete(body) => StreamText(decode(body), true, false)
  }

  method ExtractStreamText(decode: Bytes -> Bytes, raw: Bytes) returns (r: StreamText)
    ensures r == Report(decode, StreamFound(decode, raw))
  {
    var start := 0;
    while start < |raw| && raw[start] != LBRACE
      invariant 0 <= start <= |raw|
      invariant FromBrace(raw) == FromBrace(raw[start..])
    {
      assert raw[start..][1..] == raw[start + 1..];
      start := start + 1;
    }
    if start >= |raw| {
      return StreamText([], false, false);
    }
    var objPrefix, _ := FirstJSONObjectPrefix(raw[start..]);
    if objPrefix == [] {
      return StreamText([], false, false);
    }
    var f := ExtractTopLevelMessage(decode, objPrefix);
    return Report(decode, f);
  }
}
