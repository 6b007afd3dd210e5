/**
  Function calls of the OpenAI Responses client (pkg/model/create/open.go): the calls accumulated
  from a stream of events, and the bounded rounds of requests that answer them.
 */
module ToolRounds {
  import opened Wrappers

  const MAX_TOOL_CALL_DEPTH := 5

  /** Go's int on a 64-bit platform. */
  type GoInt = x: int | -0x8000_0000_0000_0000 <= x < 0x8000_0000_0000_0000

  datatype Call = Call(id: string, callId: string, name: string, arguments: string)

  /** The server-sent events the client reacts to; Stop is the "[DONE]" marker. */
  datatype Event =
    | TextDelta(delta: string)
    | Added(index: GoInt, id: string, callId: string, name: string)
    | ArgsDelta(index: GoInt, delta: string)
    | ArgsDone(index: GoInt, arguments: string)
    | Completed(event: string)
    | Failed(message: string)
    | Stop
    | Ignored

  /** An element of the input of a request. */
  datatype Item =
    | Message(text: string)
    | FunctionCall(callId: string, name: string, arguments: string)
    | CallOutput(callId: string, output: string)

  datatype Input = Text(text: string) | Items(items: seq<Item>)

  /** What the tool handler gives back for a call; an element may be unusable or lack its content. */
  datatype Output = Output(callId: string, content: Option<string>) | Unusable

  /** What the server does with a request: refuse it, or stream events, which may break off. */
  datatype Reply = Refused(message: string) | Stream(events: seq<Event>, broken: bool)

  datatype Error =
    | TooDeep
    | RequestFailed(message: string)
    | StreamFailed(message: string)
    | Broken
    | ToolFailed(message: string)

  datatype Answer = Answer(event: Option<string>, text: string)

  type Server = (nat, Input) -> Reply
  type Handler = (nat, seq<Call>) -> Result<seq<Output>, string>

  // ---------- one stream ----------

  /** The map of calls by output index after one more event. */
  function Applied(calls: map<GoInt, Call>, e: Event): map<GoInt, Call> {
    match e
    case Added(i, id, callId, name) => calls[i := Call(id, callId, name, "")]
    case ArgsDelta(i, delta) =>
      if delta != "" && i in calls then calls[i := calls[i].(arguments := calls[i].arguments + delta)] else calls
    case ArgsDone(i, arguments) =>
      if i in calls then calls[i := calls[i].(arguments := arguments)] else calls
    case _ => calls
  }

  function Accumulated(events: seq<Event>): map<GoInt, Call> {
    if events == [] then map[]
    else Applied(Accumulated(events[..|events| - 1]), events[|events| - 1])
  }

  function TextOf(events: seq<Event>): string {
    if events == [] then ""
    else TextOf(events[..|events| - 1])
         + match events[|events| - 1] case TextDelta(d) => d case _ => ""
  }

  function LastCompleted(events: seq<Event>): Option<string> {
    if events == [] then None
    else match events[|events| - 1]
      case Completed(e) => Some(e)
      case _ => LastCompleted(events[..|events| - 1])
  }

  /** The events up to the first one that ends the reading. */
  function Until(events: seq<Event>): seq<Event> {
    if events == [] || events[0].Stop? || events[0].Failed? then [] else [events[0]] + Until(events[1..])
  }

  /** The event that ends the reading early. */
  function Ender(events: seq<Event>): Option<Event> {
    if events == [] then None
    else if events[0].Stop? || events[0].Failed? then Some(events[0])
    else Ender(events[1..])
  }

  /** What reading a reply ends in: an error, or the text, the last completed event and the calls. */
  function ReadReply(reply: Reply): Result<(map<GoInt, Call>, Answer), Error> {
    match reply
    case Refused(m) => Err(RequestFailed(m))
    case Stream(events, broken) =>
      var end := Ender(events);
      if end.Some? && end.value.Failed? then Err(StreamFailed(end.value.message))
      else if end.None? && broken then Err(Broken)
      else
        var seen := Until(events);
        Ok((Accumulated(seen), Answer(LastCompleted(seen), TextOf(seen))))
  }

  // ---------- the next request ----------

  function Insert(s: seq<GoInt>, k: GoInt): seq<GoInt> {
    if s == [] || k < s[0] then [k] + s else [s[0]] + Insert(s[1..], k)
  }

  /** The indices in ascending order. */
  ghost function Sorted(keys: set<GoInt>): (s: seq<GoInt>)
    ensures Ascending(s) && forall x :: x in s <==> x in keys
    decreases |keys|
  {
    if |keys| == 0 then []
    else
      var k :| k in keys;
      InsertIs(Sorted(keys - {k}), k);
      Insert(Sorted(keys - {k}), k)
  }

  function Pick(calls: map<GoInt, Call>, indices: seq<GoInt>): seq<Call>
    requires forall i | i in indices :: i in calls
  {
    if indices == [] then [] else [calls[indices[0]]] + Pick(calls, indices[1..])
  }

  /** outputsByCallID: the last usable output for each id. */
  function OutputsById(outputs: seq<Output>): map<string, string> {
    if outputs == [] then map[]
    else
      var init, o := OutputsById(outputs[..|outputs| - 1]), outputs[|outputs| - 1];
      if o.Output? && o.content.Some? then init[o.callId := o.content.value] else init
  }

  function BaseItems(input: Input): seq<Item> {
    match input
    case Items(items) => items
    case Text(text) => if text != "" then [Message(text)] else []
  }

  function CallItems(calls: seq<Call>): seq<Item> {
    if calls == [] then []
    else [FunctionCall(calls[0].callId, calls[0].name, calls[0].arguments)] + CallItems(calls[1..])
  }

  function OutputItems(calls: seq<Call>, outputs: map<string, string>): seq<Item> {
    if calls == [] then []
    else
      var init, id := OutputItems(calls[..|calls| - 1], outputs), calls[|calls| - 1].callId;
      if id in outputs then init + [CallOutput(id, outputs[id])] else init
  }

  function NextInput(input: Input, calls: seq<Call>, outputs: seq<Output>): Input {
    Items(BaseItems(input) + CallItems(calls) + OutputItems(calls, OutputsById(outputs)))
  }

  /** What one round of request, reply and tool calls leads to. */
  datatype Round = Finish(result: Result<Answer, Error>) | Again(next: Input)

  ghost function RoundOf(server: Server, handler: Option<Handler>, input: Input, depth: nat): Round {
    match ReadReply(server(depth, input))
    case Err(e) => Finish(Err(e))
    case Ok((calls, answer)) =>
      if calls == map[] || handler.None? then Finish(Ok(answer))
      else
        var picked := SortedCalls(calls);
        match handler.value(depth, picked)
        case Err(m) => Finish(Err(ToolFailed(m)))
        case Ok(outputs) => Again(NextInput(input, picked, outputs))
  }

  /** The requests sent from a depth on, and the final result. */
  ghost function Conversation(server: Server, handler: Option<Handler>, input: Input, depth: nat)
    : (seq<Input>, Result<Answer, Error>)
    decreases MAX_TOOL_CALL_DEPTH - depth
  {
    if depth >= MAX_TOOL_CALL_DEPTH then ([], Err(TooDeep))
    else match RoundOf(server, handler, input, depth)
      case Finish(result) => ([input], result)
      case Again(next) =>
        var (more, result) := Conversation(server, handler, next, depth + 1);
        ([input] + more, result)
  }

  /** The calls in the order of their output indices. */
  ghost function SortedCalls(calls: map<GoInt, Call>): seq<Call> {
    Pick(calls, Sorted(calls.Keys))
  }

  // ---------- sorting ----------

  predicate Ascending(s: seq<GoInt>) { forall i, j | 0 <= i < j < |s| :: s[i] < s[j] }

  lemma {:induction false} InsertIs(s: seq<GoInt>, k: GoInt)
    requires Ascending(s) && k !in s
    ensures Ascending(Insert(s, k))
    ensures forall x :: x in Insert(s, k) <==> x == k || x in s
  {
    if s != [] && k > s[0] {
      assert forall x :: x in s <==> x == s[0] || x in s[1..];
      InsertIs(s[1..], k);
      var t := Insert(s[1..], k);
      assert forall j | 0 < j < |[s[0]] + t| :: ([s[0]] + t)[j] == t[j - 1] && t[j - 1] in t;
      assert forall x | x in s[1..] :: s[0] < x;
    }
  }

  // ---------- the client ----------

  /** createResponseInternal, and the requests it sends on the way. */
  method CreateResponseInternal(server: Server, handler: Option<Handler>, input: Input, depth: nat)
    returns (requests: seq<Input>, result: Result<Answer, Error>)
    ensures (requests, result) == Conversation(server, handler, input, depth)
    decreases MAX_TOOL_CALL_DEPTH - depth
  {
    hide ReadReply, SortedCalls, NextInput;
    if depth >= MAX_TOOL_CALL_DEPTH {
      return [], Err(TooDeep);
    }
    requests := [input];
    var read := Receive(server(depth, input));
    match read
    case Err(e) =>
      result := Err(e);
    case Ok((calls, answer)) =>
      if |calls| == 0 || handler.None? {
        return requests, Ok(answer);
      }
      var picked := InOrder(calls);
      match handler.value(depth, picked)
      case Err(m) =>
        result := Err(ToolFailed(m));
      case Ok(outputs) =>
        var next := BuildInput(input, picked, outputs);
        var more;
        more, result := CreateResponseInternal(server, handler, next, depth + 1);
        requests := requests + more;
  }

  /** CreateResponse starts with a text at depth 0. */
  method CreateResponse(server: Server, handler: Option<Handler>, input: string)
    returns (requests: seq<Input>, result: Result<Answer, Error>)
    ensures (requests, result) == Conversation(server, handler, Text(input), 0)
    ensures 1 <= |requests| <= MAX_TOOL_CALL_DEPTH && requests[0] == Text(input)
  {
    requests, result := CreateResponseInternal(server, handler, Text(input), 0);
    AtMostFive(server, handler, Text(input), 0);
  }

  /** Reads a reply to its end. */
  method Receive(reply: Reply) returns (r: Result<(map<GoInt, Call>, Answer), Error>)
    ensures r == ReadReply(reply)
  {
    hide Until, Ender;
    match reply
    case Refused(m) =>
      return Err(RequestFailed(m));
    case Stream(events, broken) =>
      NothingRead();
      assert events[0..] == events && events[..0] == [];
      var calls, event, fullText := map[], None, "";
      for i := 0 to |events|
        invariant Until(events) == events[..i] + Until(events[i..]) && Ender(events) == Ender(events[i..])
        invariant calls == Accumulated(events[..i])
        invariant fullText == TextOf(events[..i]) && event == LastCompleted(events[..i])
      {
        EventRound(events, i);
        match events[i]
        case Failed(m) =>
          return Err(StreamFailed(m));
        case Stop =>
          return Ok((calls, Answer(event, fullText)));
        case TextDelta(d) =>
          fullText := fullText + d;
        case Completed(e) =>
          event := Some(e);
        case Added(index, id, callId, name) =>
          calls := calls[index := Call(id, callId, name, "")];
        case ArgsDelta(index, delta) =>
          if delta != "" && index in calls {
            calls := calls[index := calls[index].(arguments := calls[index].arguments + delta)];
          }
        case ArgsDone(index, arguments) =>
          if index in calls {
            calls := calls[index := calls[index].(arguments := arguments)];
          }
        case Ignored =>
      }
      assert events[..|events|] == events && events[|events|..] == [] && Until(events) == events;
      if broken {
        return Err(Broken);
      }
      return Ok((calls, Answer(event, fullText)));
  }

  lemma NothingRead()
    ensures Until([]) == [] && Ender([]) == None
  {
  }

  lemma EventRound(events: seq<Event>, i: nat)
    requires i < |events| && Until(events) == events[..i] + Until(events[i..])
    ensures events[..i + 1][..i] == events[..i] && events[..i + 1][i] == events[i]
    ensures if events[i].Stop? || events[i].Failed?
            then Until(events) == events[..i] && Ender(events[i..]) == Some(events[i])
            else Until(events) == events[..i + 1] + Until(events[i + 1..])
                 && Ender(events[i..]) == Ender(events[i + 1..])
  {
    assert events[i..][1..] == events[i + 1..] && events[i..][0] == events[i];
    if !(events[i].Stop? || events[i].Failed?) {
      Assoc(events[..i], [events[i]], Until(events[i + 1..]));
      assert events[..i] + [events[i]] == events[..i + 1];
    }
  }

  /** The keys in the order the map yields them, sorted, and their calls. */
  method InOrder(calls: map<GoInt, Call>) returns (picked: seq<Call>)
    ensures picked == SortedCalls(calls)
  {
    hide Pick, Sorted;
    var indices := SortKeys(calls.Keys);
    NothingPicked(calls, indices);
    picked := [];
    for n := 0 to |indices|
      invariant Pick(calls, indices) == picked + Pick(calls, indices[n..])
    {
      PickRound(calls, indices, n);
      Assoc(picked, [calls[indices[n]]], Pick(calls, indices[n + 1..]));
      picked := picked + [calls[indices[n]]];
    }
    assert picked + [] == picked;
  }

  lemma NothingPicked(calls: map<GoInt, Call>, indices: seq<GoInt>)
    requires forall i | i in indices :: i in calls
    ensures Pick(calls, indices[|indices|..]) == [] && Pick(calls, indices) == [] + Pick(calls, indices[0..])
  {
    assert indices[0..] == indices && [] + Pick(calls, indices) == Pick(calls, indices);
  }

  lemma PickRound(calls: map<GoInt, Call>, indices: seq<GoInt>, n: nat)
    requires n < |indices| && forall i | i in indices :: i in calls
    ensures indices[n] in calls
    ensures Pick(calls, indices[n..]) == [calls[indices[n]]] + Pick(calls, indices[n + 1..])
  {
    assert indices[n..][1..] == indices[n + 1..] && indices[n] in indices[n..];
  }

  method SortKeys(keys: set<GoInt>) returns (indices: seq<GoInt>)
    ensures indices == Sorted(keys)
  {
    indices := [];
    var rest := keys;
    while |rest| > 0
      invariant rest <= keys && Ascending(indices)
      invariant forall x :: x in indices <==> x in keys - rest
      decreases |rest|
    {
      var k :| k in rest;
      InsertIs(indices, k);
      indices := Insert(indices, k);
      rest := rest - {k};
    }
    OneOrder(indices, Sorted(keys));
  }

  /** Two ascending sequences of the same elements are the same. */
  lemma {:induction false} OneOrder(a: seq<GoInt>, b: seq<GoInt>)
    requires Ascending(a) && Ascending(b) && forall x :: x in a <==> x in b
    ensures a == b
  {
    if a == [] {
      HasElement(b);
    } else {
      assert a[0] in b && b[0] in a && a[0] == b[0];
      forall x
        ensures x in a[1..] <==> x in b[1..]
      {
        TailElement(a, x);
        TailElement(b, x);
      }
      OneOrder(a[1..], b[1..]);
    }
  }

  lemma HasElement(s: seq<GoInt>)
    ensures s != [] ==> exists x :: x in s
  {
    if s != [] {
      assert s[0] in s;
    }
  }

  lemma TailElement(s: seq<GoInt>, x: GoInt)
    requires Ascending(s) && s != []
    ensures x in s[1..] <==> x in s && x != s[0]
  {
    assert s == [s[0]] + s[1..];
  }

  /** The input of the next request. */
  method BuildInput(input: Input, calls: seq<Call>, outputs: seq<Output>) returns (next: Input)
    ensures next == NextInput(input, calls, outputs) && Follows(input, calls, outputs, next)
  {
    NextFollows(input, calls, outputs);
    hide Follows;
    var byId := map[];
    for n := 0 to |outputs|
      invariant byId == OutputsById(outputs[..n])
    {
      assert outputs[..n + 1][..n] == outputs[..n];
      match outputs[n]
      case Output(callId, Some(content)) => byId := byId[callId := content];
      case _ =>
    }
    assert outputs[..|outputs|] == outputs;
    var newInput := BaseItems(input);
    newInput := AppendCalls(newInput, calls);
    newInput := AppendOutputs(newInput, calls, byId);
    next := Items(newInput);
  }

  method AppendCalls(items: seq<Item>, calls: seq<Call>) returns (all: seq<Item>)
    ensures all == items + CallItems(calls)
  {
    all := items;
    for n := 0 to |calls|
      invariant all + CallItems(calls[n..]) == items + CallItems(calls)
    {
      var item := FunctionCall(calls[n].callId, calls[n].name, calls[n].arguments);
      assert calls[n..][1..] == calls[n + 1..];
      Assoc(all, [item], CallItems(calls[n + 1..]));
      all := all + [item];
    }
  }

  method AppendOutputs(items: seq<Item>, calls: seq<Call>, outputs: map<string, string>) returns (all: seq<Item>)
    ensures all == items + OutputItems(calls, outputs)
  {
    all := items;
    for n := 0 to |calls|
      invariant all == items + OutputItems(calls[..n], outputs)
    {
      var id := calls[n].callId;
      assert calls[..n + 1][..n] == calls[..n];
      if id in outputs {
        Assoc(items, OutputItems(calls[..n], outputs), [CallOutput(id, outputs[id])]);
        all := all + [CallOutput(id, outputs[id])];
      }
    }
    assert calls[..|calls|] == calls;
  }

  // ---------- interleavings ----------

  predicate Concerns(e: Event, i: GoInt) {
    (e.Added? || e.ArgsDelta? || e.ArgsDone?) && e.index == i
  }

  /** The events of one output index, in order. */
  function Only(events: seq<Event>, i: GoInt): seq<Event> {
    if events == [] then []
    else Only(events[..|events| - 1], i)
         + if Concerns(events[|events| - 1], i) then [events[|events| - 1]] else []
  }

  predicate SameAt(a: map<GoInt, Call>, b: map<GoInt, Call>, i: GoInt) {
    (i in a <==> i in b) && (i in a ==> a[i] == b[i])
  }

  lemma SameApplied(a: map<GoInt, Call>, b: map<GoInt, Call>, e: Event, i: GoInt)
    requires SameAt(a, b, i)
    ensures SameAt(Applied(a, e), Applied(b, e), i)
    ensures !Concerns(e, i) ==> SameAt(Applied(a, e), b, i)
  {
  }

  /** The call at an index depends on the events of that index only. */
  lemma {:induction false} OwnEventsOnly(events: seq<Event>, i: GoInt)
    ensures SameAt(Accumulated(events), Accumulated(Only(events, i)), i)
  {
    if events != [] {
      hide Applied, SameAt, Concerns;
      var init, e := events[..|events| - 1], events[|events| - 1];
      OwnEventsOnly(init, i);
      SameApplied(Accumulated(init), Accumulated(Only(init, i)), e, i);
      if Concerns(e, i) {
        AccumulatedSnoc(Only(init, i), e);
      } else {
        assert Only(init, i) + [] == Only(init, i);
      }
    } else {
      NothingAccumulated(i);
    }
  }

  lemma NothingAccumulated(i: GoInt)
    ensures SameAt(Accumulated([]), Accumulated(Only([], i)), i)
  {
  }

  /** Two streams are interleavings of the same events: the same ones in the same order for every index. */
  ghost predicate Interleaved(a: seq<Event>, b: seq<Event>) {
    forall i: GoInt :: Only(a, i) == Only(b, i)
  }

  /** However the events of different indices are interleaved, the same calls are accumulated. */
  lemma InterleavingIrrelevant(a: seq<Event>, b: seq<Event>)
    requires Interleaved(a, b)
    ensures Accumulated(a) == Accumulated(b)
  {
    forall i: GoInt
      ensures SameAt(Accumulated(a), Accumulated(b), i)
    {
      OwnEventsOnly(a, i);
      OwnEventsOnly(b, i);
      assert Only(a, i) == Only(b, i);
    }
    assert forall i | i in Accumulated(a) :: SameAt(Accumulated(a), Accumulated(b), i);
    assert forall i | i in Accumulated(b) :: SameAt(Accumulated(a), Accumulated(b), i);
  }

  /** Replies that differ in the interleaving of indices only. */
  ghost predicate SameReply(a: Reply, b: Reply) {
    || a == b
    || (&& a.Stream? && b.Stream? && a.broken == b.broken
        && Ender(a.events) == Ender(b.events)
        && Interleaved(Until(a.events), Until(b.events))
        && TextOf(Until(a.events)) == TextOf(Until(b.events))
        && LastCompleted(Until(a.events)) == LastCompleted(Until(b.events)))
  }

  lemma SameRead(a: Reply, b: Reply)
    requires SameReply(a, b)
    ensures ReadReply(a) == ReadReply(b)
  {
    if a != b {
      InterleavingIrrelevant(Until(a.events), Until(b.events));
    }
  }

  lemma SameRound(s: Server, t: Server, handler: Option<Handler>, input: Input, depth: nat)
    requires SameReply(s(depth, input), t(depth, input))
    ensures RoundOf(s, handler, input, depth) == RoundOf(t, handler, input, depth)
  {
    SameRead(s(depth, input), t(depth, input));
  }

  /** A whole conversation does not depend on how the server interleaves the indices. */
  lemma {:induction false} SameConversation(s: Server, t: Server, handler: Option<Handler>, input: Input, depth: nat)
    requires forall d, x :: SameReply(s(d, x), t(d, x))
    ensures Conversation(s, handler, input, depth) == Conversation(t, handler, input, depth)
    decreases MAX_TOOL_CALL_DEPTH - depth
  {
    hide RoundOf, SameReply;
    if depth < MAX_TOOL_CALL_DEPTH {
      SameRound(s, t, handler, input, depth);
      var round := RoundOf(s, handler, input, depth);
      if round.Again? {
        SameConversation(s, t, handler, round.next, depth + 1);
      }
    }
  }

  // ---------- arguments ----------

  function Deltas(i: GoInt, pieces: seq<string>): seq<Event> {
    if pieces == [] then [] else Deltas(i, pieces[..|pieces| - 1]) + [ArgsDelta(i, pieces[|pieces| - 1])]
  }

  lemma AccumulatedSnoc(events: seq<Event>, e: Event)
    ensures Accumulated(events + [e]) == Applied(Accumulated(events), e)
  {
    assert (events + [e])[..|events|] == events;
  }

  lemma DeltaApplied(calls: map<GoInt, Call>, i: GoInt, delta: string)
    requires i in calls
    ensures var after := Applied(calls, ArgsDelta(i, delta));
            i in after && after[i] == calls[i].(arguments := calls[i].arguments + delta)
  {
    assert calls[i].arguments + "" == calls[i].arguments;
  }

  lemma {:induction false} DeltasAccumulate(events: seq<Event>, i: GoInt, pieces: seq<string>)
    requires i in Accumulated(events)
    ensures var calls, after := Accumulated(events), Accumulated(events + Deltas(i, pieces));
            i in after && after[i] == calls[i].(arguments := calls[i].arguments + Join(pieces))
  {
    hide Accumulated, Applied;
    var call := Accumulated(events)[i];
    if pieces == [] {
      assert events + Deltas(i, pieces) == events && call.arguments + Join(pieces) == call.arguments;
    } else {
      var init, x := pieces[..|pieces| - 1], pieces[|pieces| - 1];
      DeltasAccumulate(events, i, init);
      Assoc(events, Deltas(i, init), [ArgsDelta(i, x)]);
      AccumulatedSnoc(events + Deltas(i, init), ArgsDelta(i, x));
      DeltaApplied(Accumulated(events + Deltas(i, init)), i, x);
      assert pieces == init + [x];
      JoinSnoc(init, x);
      Assoc(call.arguments, Join(init), x);
    }
  }

  /** Without a new announcement a call keeps everything but its arguments. */
  lemma {:induction false} CallStays(events: seq<Event>, i: GoInt, more: seq<Event>)
    requires i in Accumulated(events) && forall k | 0 <= k < |more| :: !more[k].Added?
    ensures var calls, after := Accumulated(events), Accumulated(events + more);
            i in after && after[i].(arguments := "") == calls[i].(arguments := "")
  {
    if more == [] {
      assert events + more == events;
    } else {
      hide Accumulated;
      var init, e := more[..|more| - 1], more[|more| - 1];
      CallStays(events, i, init);
      assert more == init + [e];
      Assoc(events, init, [e]);
      AccumulatedSnoc(events + init, e);
    }
  }

  /** There is a call for an index exactly if one was announced. */
  lemma {:induction false} CallsAnnounced(events: seq<Event>, i: GoInt)
    ensures i in Accumulated(events) <==> exists k :: 0 <= k < |events| && events[k].Added? && events[k].index == i
  {
    if events != [] {
      var init, e := events[..|events| - 1], events[|events| - 1];
      CallsAnnounced(init, i);
      assert i in Applied(Accumulated(init), e) <==> i in Accumulated(init) || (e.Added? && e.index == i);
    }
  }

  /** What follows the last announcement of a call: whole is its last "done" event, which middle precedes. */
  function Announced(c: Call, i: GoInt, middle: seq<Event>, whole: Option<string>): seq<Event> {
    [Added(i, c.id, c.callId, c.name)] + if whole.Some? then middle + [ArgsDone(i, whole.value)] else []
  }

  /** An announcement starts a call afresh, and a "done" event replaces its arguments. */
  lemma AnnouncedCall(before: seq<Event>, c: Call, i: GoInt, middle: seq<Event>, whole: Option<string>)
    requires c.arguments == "" && forall k | 0 <= k < |middle| :: !middle[k].Added?
    ensures var calls := Accumulated(before + Announced(c, i, middle, whole));
            i in calls && calls[i] == c.(arguments := if whole.Some? then whole.value else "")
  {
    var added := [Added(i, c.id, c.callId, c.name)];
    AccumulatedSnoc(before, added[0]);
    if whole.Some? {
      var done := [ArgsDone(i, whole.value)];
      CallStays(before + added, i, middle);
      AccumulatedSnoc(before + added + middle, done[0]);
      Assoc(before, added, middle);
      Assoc(before, added + middle, done);
      Assoc(added, middle, done);
    } else {
      assert added + [] == added;
    }
  }

  /**
    Every announced call, whatever else the stream holds and in whatever order: it is the one
    announced last for its index, and its arguments are those of its last "done" event, if there is
    one, followed by the deltas that come after it.
   */
  lemma ArgumentsAreJoined(events: seq<Event>, i: GoInt, before: seq<Event>, c: Call,
                           middle: seq<Event>, whole: Option<string>, pieces: seq<string>)
    requires c.arguments == "" && forall k | 0 <= k < |middle| :: !middle[k].Added?
    requires Only(events, i) == before + Announced(c, i, middle, whole) + Deltas(i, pieces)
    ensures i in Accumulated(events)
    ensures Accumulated(events)[i] == c.(arguments := (if whole.Some? then whole.value else "") + Join(pieces))
  {
    AnnouncedCall(before, c, i, middle, whole);
    hide Announced, Deltas, Accumulated;
    DeltasAccumulate(before + Announced(c, i, middle, whole), i, pieces);
    OwnEventsOnly(events, i);
  }

  // ---------- what is read ----------

  /**
    A reply is read up to "[DONE]", up to an error, which it ends in, or to its end, which is an
    error if the stream has broken off there.
   */
  lemma ReplyRead(seen: seq<Event>, more: seq<Event>, broken: bool, message: string)
    requires forall k | 0 <= k < |seen| :: !seen[k].Stop? && !seen[k].Failed?
    ensures var read := Ok((Accumulated(seen), Answer(LastCompleted(seen), TextOf(seen))));
            && ReadReply(Stream(seen, broken)) == (if broken then Err(Broken) else read)
            && ReadReply(Stream(seen + [Stop] + more, broken)) == read
    ensures ReadReply(Stream(seen + [Failed(message)] + more, broken)) == Err(StreamFailed(message))
    ensures ReadReply(Refused(message)) == Err(RequestFailed(message))
  {
    hide Accumulated, LastCompleted, TextOf;
    ReadUpTo(seen, []);
    ReadUpTo(seen, [Stop] + more);
    ReadUpTo(seen, [Failed(message)] + more);
    hide Until, Ender;
    assert seen + [] == seen;
    Assoc(seen, [Stop], more);
    Assoc(seen, [Failed(message)], more);
  }

  lemma {:induction false} ReadUpTo(seen: seq<Event>, more: seq<Event>)
    requires forall k | 0 <= k < |seen| :: !seen[k].Stop? && !seen[k].Failed?
    requires more == [] || more[0].Stop? || more[0].Failed?
    ensures Until(seen + more) == seen && Ender(seen + more) == if more == [] then None else Some(more[0])
  {
    if seen == [] {
      assert seen + more == more;
    } else {
      assert (seen + more)[0] == seen[0] && (seen + more)[1..] == seen[1..] + more;
      ReadUpTo(seen[1..], more);
      assert [seen[0]] + seen[1..] == seen;
    }
  }

  /** The text is that of the text deltas, in order. */
  lemma {:induction false} TextJoins(a: seq<Event>, b: seq<Event>)
    ensures TextOf(a + b) == TextOf(a) + TextOf(b)
    ensures b == [] ==> TextOf(b) == ""
    ensures |b| == 1 ==> TextOf(b) == if b[0].TextDelta? then b[0].delta else ""
  {
    if b == [] {
      assert a + b == a;
    } else {
      var init, last := b[..|b| - 1], b[|b| - 1];
      TextJoins(a, init);
      assert (a + b)[..|a + b| - 1] == a + init && (a + b)[|a + b| - 1] == last;
      Assoc(TextOf(a), TextOf(init), match last case TextDelta(d) => d case _ => "");
    }
  }

  /** The event of the answer is the last completed one. */
  lemma {:induction false} LastCompletedIs(events: seq<Event>, event: string)
    ensures LastCompleted(events) == Some(event) <==>
            exists k :: && 0 <= k < |events| && events[k] == Completed(event)
                        && forall l | k < l < |events| :: !events[l].Completed?
  {
    if events != [] {
      var last := |events| - 1;
      LastCompletedIs(events[..last], event);
      if !events[last].Completed? && LastCompleted(events) == Some(event) {
        var k :| && 0 <= k < last && events[..last][k] == Completed(event)
                 && forall l | k < l < last :: !events[..last][l].Completed?;
        assert events[k] == Completed(event) && forall l | k < l < last :: !events[..last][l].Completed?
                                                                       && events[l] == events[..last][l];
      }
    }
  }

  // ---------- conversations ----------

  lemma RoundNeverTooDeep(server: Server, handler: Option<Handler>, input: Input, depth: nat)
    ensures RoundOf(server, handler, input, depth) != Finish(Err(TooDeep))
  {
  }

  /** From a depth on, at most the remaining number of requests is sent, exactly that many when the limit is hit. */
  lemma {:induction false} AtMostFive(server: Server, handler: Option<Handler>, input: Input, depth: nat)
    requires depth <= MAX_TOOL_CALL_DEPTH
    ensures var (requests, result) := Conversation(server, handler, input, depth);
            && |requests| <= MAX_TOOL_CALL_DEPTH - depth
            && (depth < MAX_TOOL_CALL_DEPTH ==> requests != [] && requests[0] == input)
            && (result == Err(TooDeep) ==> |requests| == MAX_TOOL_CALL_DEPTH - depth)
    decreases MAX_TOOL_CALL_DEPTH - depth
  {
    hide RoundOf;
    if depth < MAX_TOOL_CALL_DEPTH {
      RoundNeverTooDeep(server, handler, input, depth);
      var round := RoundOf(server, handler, input, depth);
      if round.Again? {
        AtMostFive(server, handler, round.next, depth + 1);
      }
    }
  }

  /** Every output in a list follows the call it answers. */
  ghost predicate Paired(items: seq<Item>) {
    forall p | 0 <= p < |items| && items[p].CallOutput? :: Answered(items[..p], items[p].callId)
  }

  ghost predicate Answered(before: seq<Item>, callId: string) {
    exists q :: 0 <= q < |before| && before[q].FunctionCall? && before[q].callId == callId
  }

  /** b is a list that begins with all of a. */
  predicate Extends(a: Input, b: Input) { b.Items? && BaseItems(a) <= b.items }

  lemma {:induction false} CallItemsAre(calls: seq<Call>)
    ensures |CallItems(calls)| == |calls|
    ensures forall k | 0 <= k < |calls| ::
              CallItems(calls)[k] == FunctionCall(calls[k].callId, calls[k].name, calls[k].arguments)
  {
    if calls != [] {
      CallItemsAre(calls[1..]);
    }
  }

  /** This element of the handler's answer is an output for that id. */
  predicate Gives(o: Output, callId: string) { o.Output? && o.callId == callId && o.content.Some? }

  ghost predicate Given(outputs: seq<Output>, callId: string) {
    exists j :: 0 <= j < |outputs| && Gives(outputs[j], callId)
  }

  /** content is that of the last output for this id. */
  ghost predicate LastGiven(outputs: seq<Output>, callId: string, content: string) {
    exists j :: && 0 <= j < |outputs| && outputs[j] == Output(callId, Some(content))
                && forall l | j < l < |outputs| :: !Gives(outputs[l], callId)
  }

  lemma GivenSoFar(outputs: seq<Output>, o: Output, callId: string)
    ensures Given(outputs + [o], callId) <==> Given(outputs, callId) || Gives(o, callId)
  {
    var all := outputs + [o];
    if Gives(o, callId) {
      assert all[|outputs|] == o;
    } else if Given(outputs, callId) {
      var j :| 0 <= j < |outputs| && Gives(outputs[j], callId);
      assert all[j] == outputs[j];
    }
  }

  lemma LastGivenSoFar(outputs: seq<Output>, o: Output, callId: string, content: string)
    requires if Gives(o, callId) then content == o.content.value else LastGiven(outputs, callId, content)
    ensures LastGiven(outputs + [o], callId, content)
  {
    var all := outputs + [o];
    if Gives(o, callId) {
      assert all[|outputs|] == Output(callId, Some(content));
    } else {
      var j :| && 0 <= j < |outputs| && outputs[j] == Output(callId, Some(content))
               && forall l | j < l < |outputs| :: !Gives(outputs[l], callId);
      assert all[j] == outputs[j];
    }
  }

  lemma {:induction false} OutputsByIdAre(outputs: seq<Output>, callId: string)
    ensures callId in OutputsById(outputs) <==> Given(outputs, callId)
    ensures callId in OutputsById(outputs) ==> LastGiven(outputs, callId, OutputsById(outputs)[callId])
  {
    if outputs != [] {
      hide Given, LastGiven;
      var init, o := outputs[..|outputs| - 1], outputs[|outputs| - 1];
      OutputsByIdAre(init, callId);
      assert init + [o] == outputs;
      GivenSoFar(init, o, callId);
      if callId in OutputsById(outputs) {
        LastGivenSoFar(init, o, callId, OutputsById(outputs)[callId]);
      }
    }
  }

  /** which are the calls that the answers belong to: all that have been given an output, in order. */
  ghost predicate Picks(which: seq<nat>, answers: seq<Item>, calls: seq<Call>, outputs: seq<Output>) {
    && |which| == |answers|
    && (forall n | 0 <= n < |which| ::
          && which[n] < |calls| && answers[n].CallOutput? && answers[n].callId == calls[which[n]].callId
          && LastGiven(outputs, answers[n].callId, answers[n].output))
    && (forall m, n | 0 <= m < n < |which| :: which[m] < which[n])
    && (forall k: nat | k < |calls| && Given(outputs, calls[k].callId) :: k in which)
  }

  lemma {:induction false} OutputItemsAnswer(calls: seq<Call>, outputs: seq<Output>) returns (which: seq<nat>)
    ensures Picks(which, OutputItems(calls, OutputsById(outputs)), calls, outputs)
  {
    hide OutputsById, Given, LastGiven;
    which := [];
    if calls != [] {
      var n := |calls| - 1;
      which := OutputItemsAnswer(calls[..n], outputs);
      OutputsByIdAre(outputs, calls[n].callId);
      ghost var before := which;
      if calls[n].callId in OutputsById(outputs) {
        which := which + [n];
        assert n == which[|which| - 1];
      }
      forall k: nat | k < |calls| && Given(outputs, calls[k].callId)
        ensures k in which
      {
        if k < n {
          assert calls[..n][k] == calls[k];
          assert k in before;
        }
      }
    }
  }

  /** items are what an earlier input is repeated as. */
  predicate Repeats(items: seq<Item>, input: Input) {
    match input
    case Items(earlier) => items == earlier
    case Text(text) => items == if text == "" then [] else [Message(text)]
  }

  predicate Lists(items: seq<Item>, calls: seq<Call>) {
    && |items| == |calls|
    && forall k | 0 <= k < |calls| ::
         items[k] == FunctionCall(calls[k].callId, calls[k].name, calls[k].arguments)
  }

  /** next repeats the earlier input, lists the calls and then gives the outputs that they have got. */
  ghost predicate Follows(input: Input, calls: seq<Call>, outputs: seq<Output>, next: Input) {
    exists earlier, listed, answers, which ::
      && Repeats(earlier, input) && Lists(listed, calls) && Picks(which, answers, calls, outputs)
      && next == Items(earlier + listed + answers)
  }

  lemma NextFollows(input: Input, calls: seq<Call>, outputs: seq<Output>)
    ensures Follows(input, calls, outputs, NextInput(input, calls, outputs))
  {
    CallItemsAre(calls);
    var which := OutputItemsAnswer(calls, outputs);
    hide Picks, OutputItems, OutputsById, CallItems;
    assert Repeats(BaseItems(input), input) && Lists(CallItems(calls), calls);
  }

  /** picked are the calls of the map in ascending order of their indices. */
  ghost predicate InIndexOrder(picked: seq<Call>, calls: map<GoInt, Call>) {
    exists indices: seq<GoInt> :: Ascending(indices) && IndexedBy(picked, calls, indices)
  }

  ghost predicate IndexedBy(picked: seq<Call>, calls: map<GoInt, Call>, indices: seq<GoInt>) {
    && (forall i: GoInt :: i in calls <==> i in indices)
    && |picked| == |indices| && forall k | 0 <= k < |indices| :: indices[k] in calls && picked[k] == calls[indices[k]]
  }

  lemma SortedCallsAre(calls: map<GoInt, Call>)
    ensures InIndexOrder(SortedCalls(calls), calls)
  {
    var indices := Sorted(calls.Keys);
    PickedAre(calls, indices);
    assert IndexedBy(SortedCalls(calls), calls, indices);
  }

  lemma {:induction false} PickedAre(calls: map<GoInt, Call>, indices: seq<GoInt>)
    requires forall i | i in indices :: i in calls
    ensures |Pick(calls, indices)| == |indices|
    ensures forall k | 0 <= k < |indices| :: indices[k] in calls && Pick(calls, indices)[k] == calls[indices[k]]
  {
    if indices != [] {
      PickedAre(calls, indices[1..]);
      assert forall k | 0 <= k < |indices| :: indices[k] in indices;
    }
  }

  /** How one request leads to the next: its reply holds calls, and the handler has answered them. */
  ghost predicate LeadsTo(server: Server, handler: Option<Handler>, depth: nat, request: Input, next: Input) {
    handler.Some? &&
    match ReadReply(server(depth, request))
    case Err(_) => false
    case Ok((calls, _)) =>
      calls != map[] &&
      exists picked, outputs ::
        && InIndexOrder(picked, calls) && handler.value(depth, picked) == Ok(outputs)
        && Follows(request, picked, outputs, next)
  }

  /** How the last request ends the conversation; at is its depth. */
  ghost predicate EndsIn(server: Server, handler: Option<Handler>, at: nat, request: Input,
                         result: Result<Answer, Error>) {
    match ReadReply(server(at, request))
    case Err(e) => result == Err(e)
    case Ok((calls, answer)) =>
      if calls == map[] || handler.None? then result == Ok(answer)
      else exists picked :: InIndexOrder(picked, calls) &&
             match handler.value(at, picked)
             case Err(m) => result == Err(ToolFailed(m))
             case Ok(_) => at == MAX_TOOL_CALL_DEPTH - 1 && result == Err(TooDeep)
  }

  lemma RoundLeads(server: Server, handler: Option<Handler>, input: Input, depth: nat)
    ensures match RoundOf(server, handler, input, depth)
            case Again(next) => LeadsTo(server, handler, depth, input, next)
            case Finish(result) => EndsIn(server, handler, depth, input, result)
    ensures RoundOf(server, handler, input, depth).Again? && depth == MAX_TOOL_CALL_DEPTH - 1 ==>
              EndsIn(server, handler, depth, input, Err(TooDeep))
  {
    hide ReadReply, SortedCalls, NextInput, Follows, InIndexOrder;
    match ReadReply(server(depth, input))
    case Err(_) =>
    case Ok((calls, _)) =>
      if calls != map[] && handler.Some? {
        SortedCallsAre(calls);
        match handler.value(depth, SortedCalls(calls))
        case Err(_) =>
        case Ok(outputs) => NextFollows(input, SortedCalls(calls), outputs);
      }
  }

  /**
    A whole conversation: it starts with the input, each request leads to the one after it, and the
    last one ends it; beyond the limit nothing is sent.
   */
  lemma {:induction false} ConversationRuns(server: Server, handler: Option<Handler>, input: Input, depth: nat)
    ensures var (requests, result) := Conversation(server, handler, input, depth);
            if depth >= MAX_TOOL_CALL_DEPTH then requests == [] && result == Err(TooDeep)
            else
              && requests != [] && requests[0] == input
              && (forall k | 0 < k < |requests| ::
                    LeadsTo(server, handler, depth + k - 1, requests[k - 1], requests[k]))
              && EndsIn(server, handler, depth + |requests| - 1, requests[|requests| - 1], result)
    decreases MAX_TOOL_CALL_DEPTH - depth
  {
    hide RoundOf, LeadsTo, EndsIn;
    if depth < MAX_TOOL_CALL_DEPTH {
      RoundLeads(server, handler, input, depth);
      var round := RoundOf(server, handler, input, depth);
      if round.Again? {
        ConversationRuns(server, handler, round.next, depth + 1);
        var more := Conversation(server, handler, round.next, depth + 1).0;
        var requests := [input] + more;
        forall k | 0 < k < |requests|
          ensures LeadsTo(server, handler, depth + k - 1, requests[k - 1], requests[k])
        {
          if k > 1 {
            assert requests[k - 1] == more[k - 2] && requests[k] == more[k - 1];
          }
        }
      }
    }
  }

  lemma NextIsPaired(input: Input, calls: seq<Call>, outputs: seq<Output>)
    requires Paired(BaseItems(input))
    ensures Extends(input, NextInput(input, calls, outputs))
    ensures Paired(BaseItems(NextInput(input, calls, outputs)))
  {
    var base, cs, os := BaseItems(input), CallItems(calls), OutputItems(calls, OutputsById(outputs));
    var all := NextInput(input, calls, outputs).items;
    CallItemsAre(calls);
    var which := OutputItemsAnswer(calls, outputs);
    hide LastGiven, Given, OutputsById, OutputItems, CallItems;
    forall p | 0 <= p < |all| && all[p].CallOutput?
      ensures Answered(all[..p], all[p].callId)
    {
      if p < |base| {
        assert all[..p] == base[..p] && all[p] == base[p];
      } else {
        var n := p - |base| - |cs|;
        assert n >= 0 && all[p] == os[n] && which[n] < |calls|;
        assert all[..p][|base| + which[n]] == cs[which[n]];
      }
    }
  }

  lemma RoundExtends(server: Server, handler: Option<Handler>, input: Input, depth: nat)
    requires Paired(BaseItems(input)) && RoundOf(server, handler, input, depth).Again?
    ensures var next := RoundOf(server, handler, input, depth).next;
            Extends(input, next) && Paired(BaseItems(next))
  {
    var picked := SortedCalls(ReadReply(server(depth, input)).value.0);
    NextIsPaired(input, picked, handler.value(depth, picked).value);
  }

  /**
    The requests of a conversation: each extends the one before it, and in each every
    function_call_output follows a function_call with its call_id.
   */
  lemma {:induction false} RequestsGrow(server: Server, handler: Option<Handler>, input: Input, depth: nat)
    requires Paired(BaseItems(input))
    ensures var requests := Conversation(server, handler, input, depth).0;
            && (forall k | 0 <= k < |requests| :: Paired(BaseItems(requests[k])))
            && (forall k | 0 < k < |requests| :: Extends(requests[k - 1], requests[k]))
    decreases MAX_TOOL_CALL_DEPTH - depth
  {
    hide RoundOf, Paired, Extends;
    if depth < MAX_TOOL_CALL_DEPTH {
      var round := RoundOf(server, handler, input, depth);
      if round.Again? {
        RoundExtends(server, handler, input, depth);
        RequestsGrow(server, handler, round.next, depth + 1);
        AtMostFive(server, handler, round.next, depth + 1);
      }
    }
  }
}
