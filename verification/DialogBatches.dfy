/**
  The write-behind buffer for dialog messages (pkg/endpoint/endpoint.go): messages are kept per
  thread and written in batches, with writes that may fail.
 */
module DialogBatches {
  import opened Wrappers

  datatype Message = Message(creator: nat, text: string, timestamp: int)

  /** What the environment decides: which messages can be marshalled, and which database writes fail. */
  datatype Env = Env(marshals: Message -> bool, fails: nat -> bool)

  /** A row of the dialog table. */
  datatype Row = Row(thread: nat, message: Message)

  /**
    A batch that was taken out of a thread's buffer, how many of its messages were gone through,
    and the write attempts it used: those numbered from start up to but not including end.
   */
  datatype Batch = Batch(thread: nat, messages: seq<Message>, done: nat, start: nat, end: nat)

  /** The buffer, the database, the number of write attempts so far, and the batches taken so far. */
  datatype World = World(buffer: map<nat, seq<Message>>, db: seq<Row>, writes: nat, taken: seq<Batch>)

  const START := World(map[], [], 0, [])

  /** A Go map read: a missing key has the empty value. */
  function Get<T>(m: map<nat, seq<T>>, t: nat): seq<T> {
    if t in m then m[t] else []
  }

  function Marshalled(env: Env, messages: seq<Message>): seq<Message> {
    if messages == [] then []
    else Marshalled(env, messages[..|messages| - 1])
         + if env.marshals(messages[|messages| - 1]) then [messages[|messages| - 1]] else []
  }

  function Rows(t: nat, messages: seq<Message>): seq<Row> {
    if messages == [] then []
    else Rows(t, messages[..|messages| - 1]) + [Row(t, messages[|messages| - 1])]
  }

  /** How many messages are gone through before a write fails, and the write attempts then used up. */
  function GoneThrough(env: Env, messages: seq<Message>, i: nat, writes: nat): (r: (nat, nat))
    requires i <= |messages|
    ensures i <= r.0 <= |messages| && writes <= r.1
    decreases |messages| - i
  {
    if i == |messages| then (i, writes)
    else if !env.marshals(messages[i]) then GoneThrough(env, messages, i + 1, writes)
    else if env.fails(writes) then (i, writes + 1)
    else GoneThrough(env, messages, i + 1, writes + 1)
  }

  /** flushThreadBatch: the world after it and whether it succeeded. */
  function Flushed(env: Env, w: World, t: nat): (World, bool) {
    var batch := Get(w.buffer, t);
    if batch == [] then (w, true)
    else
      var (done, writes) := GoneThrough(env, batch, 0, w.writes);
      (World(w.buffer - {t},
             w.db + Rows(t, Marshalled(env, batch[..done])),
             writes,
             w.taken + [Batch(t, batch, done, w.writes, writes)]),
       done == |batch|)
  }

  /** The buffer with one more message, before any flush. */
  function Buffered(w: World, t: nat, m: Message): World {
    w.(buffer := w.buffer[t := Get(w.buffer, t) + [m]])
  }

  /** SaveDialog; an error of the flush is ignored. */
  function Saved(env: Env, size: int, w: World, t: nat, m: Message): World {
    var w' := Buffered(w, t, m);
    if |Get(w'.buffer, t)| >= size then Flushed(env, w', t).0 else w'
  }

  /** FlushAllBatches when the threads are visited in a given order; the first failure ends it. */
  function FlushedAll(env: Env, w: World, order: seq<nat>): (World, bool)
    decreases |order|
  {
    if order == [] then (w, true)
    else
      var (w', ok) := FlushedAll(env, w, order[..|order| - 1]);
      if ok then Flushed(env, w', order[|order| - 1]) else (w', false)
  }

  class Endpoint {
    const env: Env
    const batchSize: int
    var messageBatch: map<nat, seq<Message>>
    var table: seq<Row>
    var attempts: nat
    ghost var taken: seq<Batch>

    ghost function View(): World
      reads this
    {
      World(messageBatch, table, attempts, taken)
    }

    constructor (env: Env, batchSize: int)
      ensures View() == START && this.env == env && this.batchSize == batchSize
    {
      this.env, this.batchSize := env, batchSize;
      messageBatch, table, attempts, taken := map[], [], 0, [];
    }

    /** The database call for one message. */
    method Write(t: nat, m: Message) returns (ok: bool)
      modifies this`table, this`attempts
      ensures attempts == old(attempts) + 1 && ok == !env.fails(old(attempts))
      ensures table == if ok then old(table) + [Row(t, m)] else old(table)
    {
      ok := !env.fails(attempts);
      attempts := attempts + 1;
      if ok {
        table := table + [Row(t, m)];
      }
    }

    method FlushThreadBatch(t: nat) returns (ok: bool)
      modifies this
      ensures (View(), ok) == Flushed(env, old(View()), t)
      ensures ok <==> AllWritten(env, old(attempts), attempts)
    {
      FlushIs(env, View(), t, t);
      var batch := Get(messageBatch, t);
      if |batch| == 0 {
        return true;
      }
      messageBatch := messageBatch - {t};
      ghost var (done, writes) := GoneThrough(env, batch, 0, attempts);
      taken := taken + [Batch(t, batch, done, attempts, writes)];
      ok := WriteBatch(t, batch);
    }

    /** The loop over the messages of a batch. */
    method WriteBatch(t: nat, batch: seq<Message>) returns (ok: bool)
      modifies this`table, this`attempts
      ensures var (done, writes) := GoneThrough(env, batch, 0, old(attempts));
              && ok == (done == |batch|) && attempts == writes
              && table == old(table) + Rows(t, Marshalled(env, batch[..done]))
    {
      hide Rows, Marshalled, GoneThrough;
      NoRows(env, t, batch);
      for i := 0 to |batch|
        invariant GoneThrough(env, batch, 0, old(attempts)) == GoneThrough(env, batch, i, attempts)
        invariant table == old(table) + Rows(t, Marshalled(env, batch[..i]))
      {
        MarshalledStep(env, batch, i);
        GoneRound(env, batch, i, attempts);
        if !env.marshals(batch[i]) {
          continue;
        }
        RowsSnoc(t, Marshalled(env, batch[..i]), batch[i]);
        Assoc(old(table), Rows(t, Marshalled(env, batch[..i])), [Row(t, batch[i])]);
        var written := Write(t, batch[i]);
        if !written {
          return false;
        }
      }
      GoneRound(env, batch, |batch|, attempts);
      assert batch[..|batch|] == batch;
      ok := true;
    }

    /**
      The threads are visited in whatever order the map yields them. Success means that every write
      has succeeded and that nothing is left in any buffer.
     */
    method FlushAllBatches() returns (ok: bool, ghost order: seq<nat>)
      modifies this
      ensures forall t | t in order :: t in old(messageBatch)
      ensures ok ==> forall t | t in old(messageBatch) :: t in order
      ensures (View(), ok) == FlushedAll(env, old(View()), order)
      ensures ok <==> AllWritten(env, old(attempts), attempts)
      ensures ok ==> forall t :: Get(messageBatch, t) == []
    {
      hide GoneThrough, Marshalled, Rows, AllWritten, Flushed;
      order := [];
      var rest := messageBatch.Keys;
      while |rest| > 0
        invariant rest <= old(messageBatch).Keys
        invariant forall t :: t in order <==> t in old(messageBatch).Keys - rest
        invariant (View(), true) == FlushedAll(env, old(View()), order)
        decreases |rest|
      {
        var t :| t in rest;
        rest := rest - {t};
        FlushedAllSnoc(env, old(View()), order, t);
        order := order + [t];
        if |Get(messageBatch, t)| == 0 {
          FlushNothing(env, View(), t);
        } else {
          var flushed := FlushThreadBatch(t);
          if !flushed {
            FlushAllIs(env, old(View()), order, t);
            return false, order;
          }
        }
      }
      forall t
        ensures Get(messageBatch, t) == []
      {
        FlushAllIs(env, old(View()), order, t);
      }
      FlushAllIs(env, old(View()), order, 0);
      ok := true;
    }

    method SaveDialog(t: nat, m: Message)
      modifies this
      ensures View() == Saved(env, batchSize, old(View()), t, m)
      ensures var waiting := old(Get(messageBatch, t)) + [m];
              if |waiting| < batchSize
              then Get(messageBatch, t) == waiting && table == old(table) && attempts == old(attempts)
              else Get(messageBatch, t) == []
      ensures forall u | u != t :: Get(messageBatch, u) == old(Get(messageBatch, u))
    {
      messageBatch := messageBatch[t := Get(messageBatch, t) + [m]];
      if |messageBatch[t]| >= batchSize {
        var _ := FlushThreadBatch(t);
      }
    }
  }

  /** None of the write attempts from start up to but not including end failed. */
  predicate AllWritten(env: Env, start: nat, end: nat) {
    forall n: nat | start <= n < end :: !env.fails(n)
  }

  lemma {:induction false} GoneThroughAll(env: Env, messages: seq<Message>, i: nat, writes: nat)
    requires i <= |messages|
    ensures var (done, end) := GoneThrough(env, messages, i, writes);
            done == |messages| <==> AllWritten(env, writes, end)
    decreases |messages| - i
  {
    if i < |messages| {
      if !env.marshals(messages[i]) {
        GoneThroughAll(env, messages, i + 1, writes);
      } else if !env.fails(writes) {
        GoneThroughAll(env, messages, i + 1, writes + 1);
      }
    }
  }

  /** A flush empties its thread's buffer and no other, and succeeds exactly if no write of it failed. */
  lemma FlushIs(env: Env, w: World, t: nat, u: nat)
    ensures var (w', ok) := Flushed(env, w, t);
            && w.writes <= w'.writes && (ok <==> AllWritten(env, w.writes, w'.writes))
            && Get(w'.buffer, u) == if t == u then [] else Get(w.buffer, u)
  {
    GoneThroughAll(env, Get(w.buffer, t), 0, w.writes);
  }

  lemma FlushNothing(env: Env, w: World, t: nat)
    requires Get(w.buffer, t) == []
    ensures Flushed(env, w, t) == (w, true)
  {
  }

  /** A flush of several threads succeeds exactly if no write failed, and then empties all their buffers. */
  lemma {:induction false} FlushAllIs(env: Env, w: World, order: seq<nat>, u: nat)
    ensures var (w', ok) := FlushedAll(env, w, order);
            && w.writes <= w'.writes && (ok <==> AllWritten(env, w.writes, w'.writes))
            && (u !in order ==> Get(w'.buffer, u) == Get(w.buffer, u))
            && (ok && u in order ==> Get(w'.buffer, u) == [])
    decreases |order|
  {
    if order != [] {
      hide Flushed, Get;
      var init, t := order[..|order| - 1], order[|order| - 1];
      FlushAllIs(env, w, init, u);
      assert order == init + [t];
      FlushIs(env, FlushedAll(env, w, init).0, t, u);
    }
  }

  lemma MarshalledStep(env: Env, batch: seq<Message>, i: nat)
    requires i < |batch|
    ensures var before := Marshalled(env, batch[..i]);
            Marshalled(env, batch[..i + 1]) == if env.marshals(batch[i]) then before + [batch[i]] else before
  {
    assert batch[..i + 1][..i] == batch[..i];
    assert Marshalled(env, batch[..i]) + [] == Marshalled(env, batch[..i]);
  }

  lemma GoneRound(env: Env, batch: seq<Message>, i: nat, writes: nat)
    requires i <= |batch|
    ensures GoneThrough(env, batch, i, writes) ==
              if i == |batch| then (i, writes)
              else if !env.marshals(batch[i]) then GoneThrough(env, batch, i + 1, writes)
              else if env.fails(writes) then (i, writes + 1)
              else GoneThrough(env, batch, i + 1, writes + 1)
  {
  }

  lemma NoRows(env: Env, t: nat, batch: seq<Message>)
    ensures Rows(t, Marshalled(env, batch[..0])) == []
  {
  }

  lemma RowsSnoc(t: nat, messages: seq<Message>, m: Message)
    ensures Rows(t, messages + [m]) == Rows(t, messages) + [Row(t, m)]
  {
    assert (messages + [m])[..|messages|] == messages;
  }

  lemma FlushedAllSnoc(env: Env, w: World, order: seq<nat>, t: nat)
    ensures FlushedAll(env, w, order + [t])
            == var (w', ok) := FlushedAll(env, w, order); if ok then Flushed(env, w', t) else (w', false)
  {
    assert (order + [t])[..|order|] == order;
  }

  // ---------- what the operations keep ----------

  /** The messages stored for a thread, in order. */
  function StoredFor(table: seq<Row>, t: nat): seq<Message> {
    if table == [] then []
    else StoredFor(table[..|table| - 1], t)
         + if table[|table| - 1].thread == t then [table[|table| - 1].message] else []
  }

  /** The messages of a thread's batches, and the part of them that was written. */
  function AllOf(taken: seq<Batch>, t: nat): seq<Message> {
    if taken == [] then []
    else
      var init, b := AllOf(taken[..|taken| - 1], t), taken[|taken| - 1];
      if b.thread == t then init + b.messages else init
  }

  function WrittenOf(env: Env, taken: seq<Batch>, t: nat): seq<Message> {
    if taken == [] then []
    else
      var init, b := WrittenOf(env, taken[..|taken| - 1], t), taken[|taken| - 1];
      if b.thread == t then init + WrittenPart(env, b) else init
  }

  /** The written part of a batch: what could be marshalled before the first failed write. */
  function WrittenPart(env: Env, b: Batch): seq<Message> {
    if b.done <= |b.messages| then Marshalled(env, b.messages[..b.done]) else []
  }

  /** The batches used up the write attempts one after the other, each by going through its messages. */
  predicate Chained(env: Env, taken: seq<Batch>, writes: nat) {
    if taken == [] then writes == 0
    else
      var b := taken[|taken| - 1];
      && GoneThrough(env, b.messages, 0, b.start) == (b.done, b.end)
      && b.end == writes
      && Chained(env, taken[..|taken| - 1], b.start)
  }

  /**
    The books of one thread: everything sent to it is in its batches or still buffered,
    everything stored for it is the written part of those batches, and every write attempt
    ever made belongs to exactly one batch.
   */
  predicate Accounted(env: Env, w: World, t: nat, sent: seq<Message>) {
    && sent == AllOf(w.taken, t) + Get(w.buffer, t)
    && StoredFor(w.db, t) == WrittenOf(env, w.taken, t)
    && Chained(env, w.taken, w.writes)
  }

  /** The buffer of a thread is below the batch size. */
  predicate Short(size: int, w: World, t: nat) { |Get(w.buffer, t)| < size }

  lemma {:induction false} StoredRows(table: seq<Row>, t: nat, u: nat, messages: seq<Message>)
    ensures StoredFor(table + Rows(t, messages), u) == StoredFor(table, u) + if t == u then messages else []
  {
    if messages == [] {
      assert table + [] == table && StoredFor(table, u) + [] == StoredFor(table, u);
    } else {
      var init, m := messages[..|messages| - 1], messages[|messages| - 1];
      StoredRows(table, t, u, init);
      assert messages == init + [m];
      Assoc(table, Rows(t, init), [Row(t, m)]);
      var before := table + Rows(t, init);
      assert (before + [Row(t, m)])[..|before|] == before;
      Assoc(StoredFor(table, u), init, [m]);
      assert StoredFor(table, u) + [] == StoredFor(table, u);
    }
  }

  lemma BatchTaken(env: Env, taken: seq<Batch>, b: Batch, t: nat)
    ensures AllOf(taken + [b], t) == AllOf(taken, t) + if b.thread == t then b.messages else []
    ensures WrittenOf(env, taken + [b], t)
            == WrittenOf(env, taken, t) + if b.thread == t then WrittenPart(env, b) else []
    ensures GoneThrough(env, b.messages, 0, b.start) == (b.done, b.end) && Chained(env, taken, b.start) ==>
              Chained(env, taken + [b], b.end)
  {
    assert (taken + [b])[..|taken|] == taken;
    assert AllOf(taken, t) + [] == AllOf(taken, t) && WrittenOf(env, taken, t) + [] == WrittenOf(env, taken, t);
  }

  /** Flushing a thread keeps the books of every thread, whether it fails or not, and empties its buffer. */
  lemma FlushAccounted(env: Env, w: World, t: nat, u: nat, sent: seq<Message>)
    requires Accounted(env, w, u, sent)
    ensures Accounted(env, Flushed(env, w, t).0, u, sent)
    ensures Get(Flushed(env, w, t).0.buffer, u) == if t == u then [] else Get(w.buffer, u)
  {
    hide Chained, AllOf, WrittenOf, StoredFor, Rows;
    var batch := Get(w.buffer, t);
    if batch != [] {
      var (done, writes) := GoneThrough(env, batch, 0, w.writes);
      StoredRows(w.db, t, u, Marshalled(env, batch[..done]));
      BatchTaken(env, w.taken, Batch(t, batch, done, w.writes, writes), u);
      assert sent + [] == sent;
      assert AllOf(w.taken, u) + [] == AllOf(w.taken, u);
    }
  }

  lemma BufferAccounted(env: Env, w: World, t: nat, m: Message, u: nat, sent: seq<Message>)
    requires Accounted(env, w, u, sent)
    ensures Accounted(env, Buffered(w, t, m), u, if t == u then sent + [m] else sent)
  {
    Assoc(AllOf(w.taken, u), Get(w.buffer, u), [m]);
  }

  lemma SaveAccounted(env: Env, size: int, w: World, t: nat, m: Message, u: nat, sent: seq<Message>)
    requires size >= 1 && Accounted(env, w, u, sent) && Short(size, w, u)
    ensures var w' := Saved(env, size, w, t, m);
            Accounted(env, w', u, if t == u then sent + [m] else sent) && Short(size, w', u)
  {
    hide Accounted;
    BufferAccounted(env, w, t, m, u, sent);
    FlushAccounted(env, Buffered(w, t, m), t, u, if t == u then sent + [m] else sent);
  }

  lemma {:induction false} FlushAllAccounted(env: Env, size: int, w: World, order: seq<nat>, u: nat, sent: seq<Message>)
    requires size >= 1 && Accounted(env, w, u, sent) && Short(size, w, u)
    ensures var w' := FlushedAll(env, w, order).0; Accounted(env, w', u, sent) && Short(size, w', u)
    decreases |order|
  {
    hide Accounted;
    if order != [] {
      var init := order[..|order| - 1];
      FlushAllAccounted(env, size, w, init, u, sent);
      FlushAccounted(env, FlushedAll(env, w, init).0, order[|order| - 1], u, sent);
    }
  }

  // ---------- runs ----------

  datatype Op = Save(thread: nat, message: Message) | FlushAll(order: seq<nat>)

  function Step(env: Env, size: int, w: World, op: Op): World {
    match op
    case Save(t, m) => Saved(env, size, w, t, m)
    case FlushAll(order) => FlushedAll(env, w, order).0
  }

  function After(env: Env, size: int, ops: seq<Op>): World {
    if ops == [] then START else Step(env, size, After(env, size, ops[..|ops| - 1]), ops[|ops| - 1])
  }

  /** The messages sent to a thread. */
  function SentTo(ops: seq<Op>, t: nat): seq<Message> {
    if ops == [] then []
    else
      var op := ops[|ops| - 1];
      if op.Save? && op.thread == t then SentTo(ops[..|ops| - 1], t) + [op.message] else SentTo(ops[..|ops| - 1], t)
  }

  /**
    After every run of saves and flushes, with any writes failing: each thread's books are balanced
    and its buffer is below the batch size. What the books say about failed writes is drawn from
    them below.
   */
  lemma {:induction false} RunAccounted(env: Env, size: int, ops: seq<Op>, t: nat)
    requires size >= 1
    ensures Accounted(env, After(env, size, ops), t, SentTo(ops, t))
    ensures Short(size, After(env, size, ops), t)
  {
    if ops != [] {
      hide Accounted, Short;
      var init := ops[..|ops| - 1];
      RunAccounted(env, size, init, t);
      match ops[|ops| - 1]
      case Save(u, m) => SaveAccounted(env, size, After(env, size, init), u, m, t, SentTo(init, t));
      case FlushAll(order) => FlushAllAccounted(env, size, After(env, size, init), order, t, SentTo(init, t));
    }
  }

  // ---------- what a failed write loses ----------

  /** The batch was not gone through to its end. */
  predicate CutShort(b: Batch) { b.done < |b.messages| }

  /** One of the write attempts of the batch failed. */
  ghost predicate WriteFailed(env: Env, b: Batch) {
    exists n: nat :: b.start <= n < b.end && env.fails(n)
  }

  function CountFailed(env: Env, writes: nat): nat {
    if writes == 0 then 0 else CountFailed(env, writes - 1) + if env.fails(writes - 1) then 1 else 0
  }

  function CountCutShort(taken: seq<Batch>): nat {
    if taken == [] then 0
    else CountCutShort(taken[..|taken| - 1]) + if CutShort(taken[|taken| - 1]) then 1 else 0
  }

  /** Going through a batch stops early at a failed write, its last one, and at nothing else. */
  lemma {:induction false} GoneThroughIs(env: Env, messages: seq<Message>, i: nat, writes: nat)
    requires i <= |messages|
    ensures var (done, end) := GoneThrough(env, messages, i, writes);
            && (forall n: nat | writes <= n < end :: env.fails(n) <==> n == end - 1 && done < |messages|)
            && (done < |messages| ==> writes < end && env.marshals(messages[done]))
            && CountFailed(env, end) == CountFailed(env, writes) + if done < |messages| then 1 else 0
    decreases |messages| - i
  {
    if i < |messages| {
      if !env.marshals(messages[i]) {
        GoneThroughIs(env, messages, i + 1, writes);
      } else if !env.fails(writes) {
        GoneThroughIs(env, messages, i + 1, writes + 1);
      }
    }
  }

  /** A batch is cut short exactly if one of its own writes failed; then its last one did, on a message that is lost. */
  lemma CutShortIffFailed(env: Env, b: Batch)
    requires GoneThrough(env, b.messages, 0, b.start) == (b.done, b.end)
    ensures CutShort(b) <==> WriteFailed(env, b)
    ensures CutShort(b) ==> b.start < b.end && env.fails(b.end - 1) && env.marshals(b.messages[b.done])
  {
    GoneThroughIs(env, b.messages, 0, b.start);
  }

  lemma {:induction false} ChainedBatch(env: Env, taken: seq<Batch>, writes: nat, b: Batch)
    requires Chained(env, taken, writes) && b in taken
    ensures GoneThrough(env, b.messages, 0, b.start) == (b.done, b.end) && b.end <= writes
  {
    if b != taken[|taken| - 1] {
      ChainedBatch(env, taken[..|taken| - 1], taken[|taken| - 1].start, b);
    }
  }

  lemma {:induction false} CountsAgree(env: Env, taken: seq<Batch>, writes: nat)
    requires Chained(env, taken, writes)
    ensures CountCutShort(taken) == CountFailed(env, writes)
  {
    if taken != [] {
      var b := taken[|taken| - 1];
      CountsAgree(env, taken[..|taken| - 1], b.start);
      GoneThroughIs(env, b.messages, 0, b.start);
    }
  }

  /**
    Over every run: a failed write cuts short exactly one batch. There are as many batches cut
    short as failed writes, and each of them had its own write fail; every other batch was
    gone through to its end.
   */
  lemma FailureCutsOneBatch(env: Env, size: int, ops: seq<Op>)
    requires size >= 1
    ensures var w := After(env, size, ops);
            && CountCutShort(w.taken) == CountFailed(env, w.writes)
            && forall b | b in w.taken :: CutShort(b) <==> WriteFailed(env, b)
  {
    var w := After(env, size, ops);
    RunAccounted(env, size, ops, 0);
    CountsAgree(env, w.taken, w.writes);
    forall b | b in w.taken ensures CutShort(b) <==> WriteFailed(env, b) {
      ChainedBatch(env, w.taken, w.writes, b);
      CutShortIffFailed(env, b);
    }
  }

  /** What can be marshalled is found message by message. */
  lemma {:induction false} MarshalledAppend(env: Env, a: seq<Message>, b: seq<Message>)
    ensures Marshalled(env, a + b) == Marshalled(env, a) + Marshalled(env, b)
    ensures |b| == 1 ==> Marshalled(env, b) == if env.marshals(b[0]) then b else []
    decreases |b|
  {
    if b == [] {
      assert a + b == a && Marshalled(env, a) + [] == Marshalled(env, a);
    } else {
      var init := b[..|b| - 1];
      assert (a + b)[..|a + b| - 1] == a + init;
      MarshalledAppend(env, a, init);
    }
  }

  /** What a batch lost: all that could have been written from the failed write on. */
  function LostPart(env: Env, b: Batch): seq<Message> {
    if b.done <= |b.messages| then Marshalled(env, b.messages[b.done..]) else []
  }

  function CountLost(env: Env, taken: seq<Batch>, t: nat): nat {
    if taken == [] then 0
    else
      var b := taken[|taken| - 1];
      CountLost(env, taken[..|taken| - 1], t) + if b.thread == t then |LostPart(env, b)| else 0
  }

  /** A batch loses something exactly if one of its writes failed. */
  lemma BatchLoss(env: Env, b: Batch)
    requires GoneThrough(env, b.messages, 0, b.start) == (b.done, b.end)
    ensures Marshalled(env, b.messages) == WrittenPart(env, b) + LostPart(env, b)
    ensures LostPart(env, b) == [] <==> !WriteFailed(env, b)
  {
    var rest := b.messages[b.done..];
    assert b.messages == b.messages[..b.done] + rest;
    MarshalledAppend(env, b.messages[..b.done], rest);
    CutShortIffFailed(env, b);
    hide GoneThrough, WriteFailed;
    if CutShort(b) {
      FirstIsLost(env, rest);
    }
  }

  lemma FirstIsLost(env: Env, rest: seq<Message>)
    requires rest != [] && env.marshals(rest[0])
    ensures Marshalled(env, rest) != []
  {
    assert rest == [rest[0]] + rest[1..];
    MarshalledAppend(env, [rest[0]], rest[1..]);
  }

  /** No batch of the thread had a write fail. */
  ghost predicate NoWriteFailed(env: Env, taken: seq<Batch>, t: nat) {
    forall b | b in taken && b.thread == t :: !WriteFailed(env, b)
  }

  lemma {:induction false} LossOf(env: Env, taken: seq<Batch>, writes: nat, t: nat)
    requires Chained(env, taken, writes)
    ensures |Marshalled(env, AllOf(taken, t))| == |WrittenOf(env, taken, t)| + CountLost(env, taken, t)
    ensures CountLost(env, taken, t) == 0 <==> NoWriteFailed(env, taken, t)
    ensures CountLost(env, taken, t) == 0 ==> Marshalled(env, AllOf(taken, t)) == WrittenOf(env, taken, t)
  {
    if taken != [] {
      hide Marshalled, GoneThrough, WriteFailed, NoWriteFailed, LostPart, WrittenPart;
      var init, b := taken[..|taken| - 1], taken[|taken| - 1];
      LossOf(env, init, b.start, t);
      BatchLoss(env, b);
      MarshalledAppend(env, AllOf(init, t), b.messages);
      OneMoreBatch(env, init, b, t);
      assert taken == init + [b];
    }
  }

  lemma OneMoreBatch(env: Env, taken: seq<Batch>, b: Batch, t: nat)
    ensures NoWriteFailed(env, taken + [b], t)
            <==> NoWriteFailed(env, taken, t) && (b.thread == t ==> !WriteFailed(env, b))
  {
    hide WriteFailed;
    assert forall c :: c in taken + [b] <==> c in taken || c == b;
  }

  /**
    The loss of a thread, exactly: what could be marshalled of the messages sent to it is what
    is stored, what is buffered, and what its batches lost; and nothing is lost exactly if no
    write of any of its own batches failed, whatever happened to other threads.
   */
  lemma NothingLostIff(env: Env, size: int, ops: seq<Op>, t: nat)
    requires size >= 1
    ensures var w := After(env, size, ops);
            var stored, waiting := StoredFor(w.db, t), Marshalled(env, Get(w.buffer, t));
            && |Marshalled(env, SentTo(ops, t))| == |stored| + |waiting| + CountLost(env, w.taken, t)
            && (stored + waiting == Marshalled(env, SentTo(ops, t)) <==> NoWriteFailed(env, w.taken, t))
  {
    hide Marshalled, WriteFailed;
    var w := After(env, size, ops);
    RunAccounted(env, size, ops, t);
    LossOf(env, w.taken, w.writes, t);
    MarshalledAppend(env, AllOf(w.taken, t), Get(w.buffer, t));
  }

  lemma {:induction false} AllMarshalled(env: Env, messages: seq<Message>)
    requires forall m: Message :: env.marshals(m)
    ensures Marshalled(env, messages) == messages
  {
    if messages != [] {
      AllMarshalled(env, messages[..|messages| - 1]);
    }
  }

  /** While no write has failed, stored ++ buffered == sent, up to messages that cannot be marshalled. */
  lemma NothingLost(env: Env, size: int, ops: seq<Op>, t: nat)
    requires size >= 1 && AllWritten(env, 0, After(env, size, ops).writes)
    ensures var w := After(env, size, ops);
            && StoredFor(w.db, t) + Marshalled(env, Get(w.buffer, t)) == Marshalled(env, SentTo(ops, t))
            && ((forall m: Message :: env.marshals(m)) ==> StoredFor(w.db, t) + Get(w.buffer, t) == SentTo(ops, t))
  {
    var w := After(env, size, ops);
    NothingLostIff(env, size, ops, t);
    RunAccounted(env, size, ops, t);
    forall b | b in w.taken ensures !WriteFailed(env, b) {
      ChainedBatch(env, w.taken, w.writes, b);
    }
    if forall m: Message :: env.marshals(m) {
      AllMarshalled(env, Get(w.buffer, t));
      AllMarshalled(env, SentTo(ops, t));
    }
  }

  // ---------- order ----------

  /** a is what remains of b when some elements are left out. */
  predicate Subsequence(a: seq<Message>, b: seq<Message>) {
    a == [] ||
    (b != [] &&
     ((a[|a| - 1] == b[|b| - 1] && Subsequence(a[..|a| - 1], b[..|b| - 1])) || Subsequence(a, b[..|b| - 1])))
  }

  lemma {:induction false} SubsequenceAppend(a: seq<Message>, b: seq<Message>, c: seq<Message>, d: seq<Message>)
    requires Subsequence(a, b) && Subsequence(c, d)
    ensures Subsequence(a + c, b + d)
    decreases |d|
  {
    if d == [] {
      assert a + c == a && b + d == b;
    } else {
      var d' := d[..|d| - 1];
      assert (b + d)[..|b + d| - 1] == b + d';
      if c != [] && c[|c| - 1] == d[|d| - 1] && Subsequence(c[..|c| - 1], d') {
        SubsequenceAppend(a, b, c[..|c| - 1], d');
        assert (a + c)[..|a + c| - 1] == a + c[..|c| - 1];
      } else {
        SubsequenceAppend(a, b, c, d');
      }
    }
  }

  lemma {:induction false} SubsequenceOfItself(a: seq<Message>)
    ensures Subsequence(a, a)
  {
    if a != [] {
      SubsequenceOfItself(a[..|a| - 1]);
    }
  }

  lemma {:induction false} MarshalledInOrder(env: Env, messages: seq<Message>)
    ensures Subsequence(Marshalled(env, messages), messages)
  {
    if messages != [] {
      var init, m := messages[..|messages| - 1], messages[|messages| - 1];
      MarshalledInOrder(env, init);
      assert messages == init + [m];
      SubsequenceOfItself([m]);
      SubsequenceAppend(Marshalled(env, init), init, if env.marshals(m) then [m] else [], [m]);
    }
  }

  lemma {:induction false} WrittenInOrder(env: Env, taken: seq<Batch>, t: nat)
    ensures Subsequence(WrittenOf(env, taken, t), AllOf(taken, t))
  {
    if taken != [] {
      var init, b := taken[..|taken| - 1], taken[|taken| - 1];
      WrittenInOrder(env, init, t);
      PartInOrder(env, b);
      SubsequenceAppend(WrittenOf(env, init, t), AllOf(init, t), WrittenPart(env, b), b.messages);
    }
  }

  lemma PartInOrder(env: Env, b: Batch)
    ensures Subsequence(WrittenPart(env, b), b.messages)
  {
    if b.done <= |b.messages| {
      MarshalledInOrder(env, b.messages[..b.done]);
      var part := WrittenPart(env, b);
      SubsequenceAppend(part, b.messages[..b.done], [], b.messages[b.done..]);
      assert part + [] == part && b.messages[..b.done] + b.messages[b.done..] == b.messages;
    }
  }

  /** Whatever fails, what is stored and then what is buffered are in the order in which they were sent. */
  lemma StoredInOrder(env: Env, size: int, ops: seq<Op>, t: nat)
    requires size >= 1
    ensures var w := After(env, size, ops); Subsequence(StoredFor(w.db, t) + Get(w.buffer, t), SentTo(ops, t))
  {
    RunAccounted(env, size, ops, t);
    var w := After(env, size, ops);
    WrittenInOrder(env, w.taken, t);
    SubsequenceOfItself(Get(w.buffer, t));
    SubsequenceAppend(StoredFor(w.db, t), AllOf(w.taken, t), Get(w.buffer, t), Get(w.buffer, t));
  }
}
