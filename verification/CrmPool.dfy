/**
  The worker pool of pkg/crm/crm.go as a step system: a bounded main queue, a dispatcher that
  picks a worker by a hash of the phone, and workers that handle their queues one message at
  a time, looking a contact up in a cache, on the server, and creating it if it is missing.
  Every finite run of these steps is considered, so a cancelled pool is a run that stops.
 */
module CrmPool {
  import opened Wrappers

  /** text tells messages of the same contact apart. */
  datatype Message = Message(phone: string, alt: string, text: string)

  /** What a contact is looked up by. */
  datatype Ident = Phone(phone: string) | Alt(alt: string)

  /** hash is the 32-bit FNV-1a sum of a phone; any function will do. */
  datatype Config = Config(workers: nat, hash: string -> nat, altContacts: bool, createContacts: bool)

  const MAIN_CAPACITY := 100
  const WORKER_CAPACITY := 10

  predicate ValidConfig(c: Config) { 1 <= c.workers <= 255 }

  /** uint8(sum) % numWorkers. */
  function WorkerFor(c: Config, phone: string): (w: nat)
    requires ValidConfig(c)
    ensures w < c.workers
  {
    c.hash(phone) % 256 % c.workers
  }

  /** The phone has priority over the alternative contact; without either a message is ignored. */
  function IdentOf(c: Config, m: Message): Option<Ident> {
    if m.phone != "" then Some(Phone(m.phone))
    else if m.alt != "" && c.altContacts then Some(Alt(m.alt))
    else None
  }

  /** What a worker is doing: the points of processor between its calls to the server. */
  datatype Job =
    | Idle
    | Begun(msg: Message)        // before the cache lookup
    | Searching(msg: Message)    // the cache had nothing; the server is asked
    | Creating(msg: Message)     // the server had nothing; a contact is being created
    | WithContact(msg: Message)  // lead and note handling

  datatype State = State(
    main: seq<Message>,
    held: Option<Message>,
    queues: seq<seq<Message>>,
    jobs: seq<Job>,
    cache: set<Ident>,
    server: set<Ident>,
    accepted: seq<Message>,
    processed: seq<Message>,
    created: multiset<Ident>)

  /** A pool that has just been started, with whatever contacts the server already has. */
  predicate Init(c: Config, s: State) {
    && s.main == [] && s.held.None? && s.cache == {}
    && s.queues == seq(c.workers, _ => [])
    && s.jobs == seq(c.workers, _ => Idle)
    && s.accepted == [] && s.processed == [] && s.created == multiset{}
  }

  datatype Action =
    | Send(msg: Message)
    | Take
    | Put
    | Start(w: nat)
    | CacheHit(w: nat)
    | CacheMiss(w: nat)
    | Found(w: nat)
    | NotFound(w: nat)
    | Created(w: nat)
    | CreatedResponseLost(w: nat)
    | Finish(w: nat)
    | Expire(gone: set<Ident>)
    | CreatedElsewhere(ident: Ident)

  /** The job of a worker that has one, and the contact it is for. */
  predicate Working(c: Config, s: State, w: nat) {
    w < |s.jobs| && !s.jobs[w].Idle? && IdentOf(c, s.jobs[w].msg).Some?
  }

  function Target(c: Config, s: State, w: nat): Ident
    requires Working(c, s, w)
  {
    IdentOf(c, s.jobs[w].msg).value
  }

  ghost predicate SendStep(s: State, m: Message, s': State) {
    s' == if |s.main| < MAIN_CAPACITY then s.(main := s.main + [m], accepted := s.accepted + [m]) else s
  }

  ghost predicate TakeStep(s: State, s': State) {
    s.held.None? && s.main != [] && s' == s.(held := Some(s.main[0]), main := s.main[1..])
  }

  ghost predicate PutStep(c: Config, s: State, s': State)
    requires ValidConfig(c)
  {
    && s.held.Some?
    && var w := WorkerFor(c, s.held.value.phone);
       w < |s.queues| && |s.queues[w]| < WORKER_CAPACITY
       && s' == s.(held := None, queues := s.queues[w := s.queues[w] + [s.held.value]])
  }

  ghost predicate StartStep(s: State, w: nat, s': State) {
    && w < |s.queues| && w < |s.jobs| && s.jobs[w].Idle? && s.queues[w] != []
    && s' == s.(jobs := s.jobs[w := Begun(s.queues[w][0])], queues := s.queues[w := s.queues[w][1..]])
  }

  /** The end of processor, or any of its early returns. */
  ghost predicate FinishStep(s: State, w: nat, s': State) {
    && w < |s.jobs| && !s.jobs[w].Idle?
    && s' == s.(jobs := s.jobs[w := Idle], processed := s.processed + [s.jobs[w].msg])
  }

  /** The steps inside processor that keep the message, and those of the cache and the server. */
  ghost predicate InnerStep(c: Config, s: State, a: Action, s': State) {
    match a
    case CacheHit(w) =>
      && Working(c, s, w) && s.jobs[w].Begun? && Target(c, s, w) in s.cache
      && s' == s.(jobs := s.jobs[w := WithContact(s.jobs[w].msg)])
    case CacheMiss(w) =>
      && Working(c, s, w) && s.jobs[w].Begun? && Target(c, s, w) !in s.cache
      && s' == s.(jobs := s.jobs[w := Searching(s.jobs[w].msg)])
    case Found(w) =>
      && Working(c, s, w) && s.jobs[w].Searching? && Target(c, s, w) in s.server
      && s' == s.(jobs := s.jobs[w := WithContact(s.jobs[w].msg)], cache := s.cache + {Target(c, s, w)})
    case NotFound(w) =>
      && c.createContacts
      && Working(c, s, w) && s.jobs[w].Searching? && Target(c, s, w) !in s.server
      && s' == s.(jobs := s.jobs[w := Creating(s.jobs[w].msg)])
    case Created(w) =>
      && Working(c, s, w) && s.jobs[w].Creating?
      && s' == s.(jobs := s.jobs[w := WithContact(s.jobs[w].msg)], cache := s.cache + {Target(c, s, w)},
                  server := s.server + {Target(c, s, w)}, created := s.created + multiset{Target(c, s, w)})
    case Expire(gone) =>
      s' == s.(cache := s.cache - gone)
    case CreatedElsewhere(ident) =>
      s' == s.(server := s.server + {ident})
    case _ => false
  }

  /** The contact was created but the answer failed, so the message is given up. */
  ghost predicate LostStep(c: Config, s: State, w: nat, s': State) {
    && Working(c, s, w) && s.jobs[w].Creating?
    && s' == s.(jobs := s.jobs[w := Idle], processed := s.processed + [s.jobs[w].msg],
                server := s.server + {Target(c, s, w)}, created := s.created + multiset{Target(c, s, w)})
  }

  ghost predicate Step(c: Config, s: State, a: Action, s': State)
    requires ValidConfig(c)
  {
    match a
    case Send(m) => SendStep(s, m, s')
    case Take => TakeStep(s, s')
    case Put => PutStep(c, s, s')
    case Start(w) => StartStep(s, w, s')
    case Finish(w) => FinishStep(s, w, s')
    case CreatedResponseLost(w) => LostStep(c, s, w, s')
    case _ => InnerStep(c, s, a, s')
  }

  ghost predicate IsRun(c: Config, states: seq<State>, actions: seq<Action>)
    requires ValidConfig(c)
  {
    && |states| == |actions| + 1
    && Init(c, states[0])
    && forall i :: 0 <= i < |actions| ==> Step(c, states[i], actions[i], states[i + 1])
  }

  // ---------- sharding ----------

  /** Everything a worker has or had queued belongs to it. */
  ghost predicate Placed(c: Config, s: State)
    requires ValidConfig(c)
  {
    && |s.queues| == c.workers && |s.jobs| == c.workers
    && (forall w, i | 0 <= w < |s.queues| && 0 <= i < |s.queues[w]| :: WorkerFor(c, s.queues[w][i].phone) == w)
    && (forall w | 0 <= w < |s.jobs| :: !s.jobs[w].Idle? ==> WorkerFor(c, s.jobs[w].msg.phone) == w)
  }

  lemma StepPlaced(c: Config, s: State, a: Action, s': State)
    requires ValidConfig(c) && Placed(c, s) && Step(c, s, a, s')
    ensures Placed(c, s')
  {
    match a
    case Put => PutPlaced(c, s, s');
    case Start(w) => StartPlaced(c, s, w, s');
    case _ => InnerPlaced(c, s, a, s');
  }

  lemma PutPlaced(c: Config, s: State, s': State)
    requires ValidConfig(c) && Placed(c, s) && PutStep(c, s, s')
    ensures Placed(c, s')
  {
  }

  lemma StartPlaced(c: Config, s: State, w: nat, s': State)
    requires ValidConfig(c) && Placed(c, s) && StartStep(s, w, s')
    ensures Placed(c, s')
  {
  }

  lemma InnerPlaced(c: Config, s: State, a: Action, s': State)
    requires ValidConfig(c) && Placed(c, s) && Step(c, s, a, s') && !a.Put? && !a.Start?
    ensures s'.queues == s.queues && Placed(c, s')
  {
  }

  /** One contact, one worker: the phone decides, and alternative contacts come without a phone. */
  lemma SameIdentSameWorker(c: Config, m: Message, n: Message)
    requires ValidConfig(c) && IdentOf(c, m).Some? && IdentOf(c, m) == IdentOf(c, n)
    ensures WorkerFor(c, m.phone) == WorkerFor(c, n.phone)
  {
  }

  // ---------- at most one contact for an identifier ----------

  ghost predicate SingleContacts(c: Config, s: State) {
    && (forall i: Ident :: s.created[i] <= 1)
    && (forall i: Ident :: i in s.created ==> i in s.server)
    && (forall w | 0 <= w < |s.jobs| :: Working(c, s, w) && s.jobs[w].Creating? ==> Target(c, s, w) !in s.created)
  }

  lemma StepSingleContacts(c: Config, s: State, a: Action, s': State)
    requires ValidConfig(c) && Placed(c, s) && SingleContacts(c, s) && Step(c, s, a, s')
    ensures SingleContacts(c, s')
  {
    if a.Created? || a.CreatedResponseLost? {
      CreationSingle(c, s, a.w, s');
    } else {
      assert s'.created == s.created && s.server <= s'.server;
      forall v | 0 <= v < |s'.jobs| && Working(c, s', v) && s'.jobs[v].Creating?
        ensures Target(c, s', v) !in s'.created
      {
        NewlyCreating(c, s, a, s', v);
      }
    }
  }

  lemma NewlyCreating(c: Config, s: State, a: Action, s': State, v: nat)
    requires ValidConfig(c) && SingleContacts(c, s) && Step(c, s, a, s') && !a.Created? && !a.CreatedResponseLost?
    requires Working(c, s', v) && s'.jobs[v].Creating?
    ensures Target(c, s', v) !in s.created
  {
    if a != NotFound(v) {
      assert v < |s.jobs| && s'.jobs[v] == s.jobs[v];
    }
  }

  /** Only the worker of a contact creates it, so a creation never doubles another one. */
  lemma CreationSingle(c: Config, s: State, w: nat, s': State)
    requires ValidConfig(c) && Placed(c, s) && SingleContacts(c, s)
    requires Working(c, s, w) && s.jobs[w].Creating?
    requires s'.created == s.created + multiset{Target(c, s, w)} && s'.server == s.server + {Target(c, s, w)}
    requires |s'.jobs| == |s.jobs| && !s'.jobs[w].Creating?
    requires forall v :: 0 <= v < |s.jobs| && v != w ==> s'.jobs[v] == s.jobs[v]
    ensures SingleContacts(c, s')
  {
    forall v | 0 <= v < |s'.jobs| && Working(c, s', v) && s'.jobs[v].Creating?
      ensures Target(c, s', v) !in s'.created
    {
      assert v != w && s'.jobs[v] == s.jobs[v];
      assert Target(c, s, v) != Target(c, s, w) by {
        if Target(c, s, v) == Target(c, s, w) {
          SameIdentSameWorker(c, s.jobs[v].msg, s.jobs[w].msg);
        }
      }
    }
  }

  lemma {:induction false} RunSound(c: Config, states: seq<State>, actions: seq<Action>, i: nat)
    requires ValidConfig(c) && IsRun(c, states, actions) && i < |states|
    ensures Placed(c, states[i]) && SingleContacts(c, states[i])
  {
    if i > 0 {
      RunSound(c, states, actions, i - 1);
      StepPlaced(c, states[i - 1], actions[i - 1], states[i]);
      StepSingleContacts(c, states[i - 1], actions[i - 1], states[i]);
    }
  }

  /**
    In every run, whatever the cache forgets, whichever responses fail or get lost, and
    whatever contacts appear on the server meanwhile, the pool creates at most one contact
    for an identifier.
   */
  lemma AtMostOneContact(c: Config, states: seq<State>, actions: seq<Action>, i: nat, ident: Ident)
    requires ValidConfig(c) && IsRun(c, states, actions) && i < |states|
    ensures states[i].created[ident] <= 1
  {
    RunSound(c, states, actions, i);
  }

  /** In every run two calls of processor for one contact never overlap. */
  lemma NoOverlap(c: Config, states: seq<State>, actions: seq<Action>, i: nat, v: nat, w: nat)
    requires ValidConfig(c) && IsRun(c, states, actions) && i < |states|
    requires Working(c, states[i], v) && Working(c, states[i], w) && v != w
    ensures Target(c, states[i], v) != Target(c, states[i], w)
  {
    RunSound(c, states, actions, i);
    var s := states[i];
    if Target(c, s, v) == Target(c, s, w) {
      SameIdentSameWorker(c, s.jobs[v].msg, s.jobs[w].msg);
    }
  }

  // ---------- refinement of one FIFO for each phone ----------

  /** The messages of one phone, in order. */
  function Of(ms: seq<Message>, phone: string): seq<Message> {
    if ms == [] then [] else (if ms[0].phone == phone then [ms[0]] else []) + Of(ms[1..], phone)
  }

  lemma {:induction false} OfAppend(a: seq<Message>, b: seq<Message>, phone: string)
    ensures Of(a + b, phone) == Of(a, phone) + Of(b, phone)
  {
    if a == [] {
      assert a + b == b;
    } else {
      var head := if a[0].phone == phone then [a[0]] else [];
      assert (a + b)[0] == a[0] && (a + b)[1..] == a[1..] + b;
      assert Of(a + b, phone) == head + Of(a[1..] + b, phone);
      OfAppend(a[1..], b, phone);
      Assoc(head, Of(a[1..], phone), Of(b, phone));
    }
  }

  function Current(j: Job): seq<Message> {
    if j.Idle? then [] else [j.msg]
  }

  function Held(s: State): seq<Message> {
    if s.held.None? then [] else [s.held.value]
  }

  /** All that is on its way through worker w: its job, its queue, the dispatcher, the main queue. */
  function Line(s: State, w: nat): seq<Message>
    requires w < |s.queues| && w < |s.jobs|
  {
    Current(s.jobs[w]) + (s.queues[w] + (Held(s) + s.main))
  }

  /** One FIFO queue: what has left it and what is in it. */
  datatype Fifo = Fifo(done: seq<Message>, waiting: seq<Message>)

  /** The queue of one phone. */
  function FifoOf(c: Config, s: State, phone: string): Fifo
    requires ValidConfig(c) && |s.queues| == c.workers && |s.jobs| == c.workers
  {
    Fifo(Of(s.processed, phone), Of(Line(s, WorkerFor(c, phone)), phone))
  }

  /** The steps of a FIFO: nothing, a message enters at the back, or the front one leaves. */
  predicate FifoStep(f: Fifo, g: Fifo, entered: seq<Message>) {
    || g == f.(waiting := f.waiting + entered)
    || (entered == [] && f.waiting != [] && g == Fifo(f.done + [f.waiting[0]], f.waiting[1..]))
  }

  function Entered(a: Action, s: State, phone: string): seq<Message> {
    if a.Send? && |s.main| < MAIN_CAPACITY && a.msg.phone == phone then [a.msg] else []
  }

  /** Every step of the pool is a step of the FIFO of each phone. */
  lemma {:induction false} StepRefinesFifo(c: Config, s: State, a: Action, s': State, phone: string)
    requires ValidConfig(c) && Placed(c, s) && Step(c, s, a, s')
    ensures Placed(c, s')
    ensures FifoStep(FifoOf(c, s, phone), FifoOf(c, s', phone), Entered(a, s, phone))
    ensures Of(s'.accepted, phone) == Of(s.accepted, phone) + Entered(a, s, phone)
  {
    StepPlaced(c, s, a, s');
    var w := WorkerFor(c, phone);
    match a
    case Send(m) =>
      SendRefines(s, m, s', w, phone);
    case Take =>
      TakeLine(s, s', w);
    case Put =>
      PutRefines(c, s, s', phone);
    case Start(v) =>
      StartLine(s, v, s', w);
    case Finish(v) =>
      FinishRefines(c, s, v, s', phone);
    case CreatedResponseLost(v) =>
      FinishRefines(c, s, v, s', phone);
    case _ =>
      InnerLine(c, s, a, s', w);
  }

  lemma InnerLine(c: Config, s: State, a: Action, s': State, w: nat)
    requires InnerStep(c, s, a, s') && w < |s.queues| && w < |s.jobs|
    ensures w < |s'.queues| && w < |s'.jobs| && Line(s', w) == Line(s, w)
    ensures s'.processed == s.processed && s'.accepted == s.accepted
  {
    assert Current(s'.jobs[w]) == Current(s.jobs[w]);
  }

  lemma SendRefines(s: State, m: Message, s': State, w: nat, phone: string)
    requires SendStep(s, m, s') && w < |s.queues| && w < |s.jobs|
    ensures Of(Line(s', w), phone) == Of(Line(s, w), phone) + Entered(Send(m), s, phone)
    ensures Of(s'.accepted, phone) == Of(s.accepted, phone) + Entered(Send(m), s, phone)
  {
    if |s.main| < MAIN_CAPACITY {
      assert Line(s', w) == Line(s, w) + [m];
      OfAppend(Line(s, w), [m], phone);
      OfAppend(s.accepted, [m], phone);
    }
  }

  lemma TakeLine(s: State, s': State, w: nat)
    requires TakeStep(s, s') && w < |s.queues| && w < |s.jobs|
    ensures Line(s', w) == Line(s, w)
  {
    assert s.main == [s.main[0]] + s.main[1..];
  }

  lemma StartLine(s: State, v: nat, s': State, w: nat)
    requires StartStep(s, v, s') && w < |s.queues| && w < |s.jobs|
    ensures Line(s', w) == Line(s, w)
  {
    if v == w {
      assert s.queues[w] == [s.queues[w][0]] + s.queues[w][1..];
    }
  }

  lemma {:induction false} PutRefines(c: Config, s: State, s': State, phone: string)
    requires ValidConfig(c) && Placed(c, s) && Placed(c, s') && PutStep(c, s, s')
    ensures FifoOf(c, s', phone) == FifoOf(c, s, phone)
  {
    hide Of, WorkerFor, Line;
    var m, w := s.held.value, WorkerFor(c, phone);
    PutLine(c, s, s', w);
    if WorkerFor(c, m.phone) != w {
      var front := Current(s.jobs[w]) + s.queues[w];
      OfAppend(front, [m] + s.main, phone);
      OfAppend(front, s.main, phone);
      OfAppend([m], s.main, phone);
      OfOne(m, phone);
      assert [] + Of(s.main, phone) == Of(s.main, phone);
    }
  }

  /** The line of the worker that gets the message is unchanged; from the others it disappears. */
  lemma PutLine(c: Config, s: State, s': State, w: nat)
    requires ValidConfig(c) && PutStep(c, s, s') && w < |s.queues| && w < |s.jobs|
    ensures w < |s'.queues| && w < |s'.jobs|
    ensures if WorkerFor(c, s.held.value.phone) == w then Line(s', w) == Line(s, w)
            else var front := Current(s.jobs[w]) + s.queues[w];
                 && Line(s, w) == front + ([s.held.value] + s.main)
                 && Line(s', w) == front + s.main
  {
    hide WorkerFor;
    var job, queue, m := Current(s.jobs[w]), s.queues[w], s.held.value;
    Assoc(job, queue, [m] + s.main);
    Assoc(job, queue, s.main);
    assert [] + s.main == s.main;
    assert (queue + [m]) + s.main == queue + ([m] + s.main);
  }

  lemma OfOne(m: Message, phone: string)
    ensures Of([m], phone) == if m.phone == phone then [m] else []
  {
  }

  lemma {:induction false} FinishRefines(c: Config, s: State, v: nat, s': State, phone: string)
    requires ValidConfig(c) && Placed(c, s) && Placed(c, s') && v < |s.jobs| && !s.jobs[v].Idle?
    requires s'.jobs == s.jobs[v := Idle] && s'.processed == s.processed + [s.jobs[v].msg]
    requires s'.main == s.main && s'.held == s.held && s'.queues == s.queues
    ensures FifoStep(FifoOf(c, s, phone), FifoOf(c, s', phone), [])
  {
    hide Of, WorkerFor;
    var m, w := s.jobs[v].msg, WorkerFor(c, phone);
    OfAppend(s.processed, [m], phone);
    OfOne(m, phone);
    if v == w {
      assert Line(s, w) == [m] + Line(s', w);
      OfAppend([m], Line(s', w), phone);
    } else {
      assert Line(s', w) == Line(s, w);
    }
  }

  /** In every run the FIFO of a phone holds exactly what was accepted for it, in order. */
  lemma {:induction false} RunConserves(c: Config, states: seq<State>, actions: seq<Action>, i: nat, phone: string)
    requires ValidConfig(c) && IsRun(c, states, actions) && i < |states|
    ensures Placed(c, states[i])
    ensures var f := FifoOf(c, states[i], phone); Of(states[i].accepted, phone) == f.done + f.waiting
  {
    if i > 0 {
      RunConserves(c, states, actions, i - 1, phone);
      StepConserves(c, states[i - 1], actions[i - 1], states[i], phone);
    }
  }

  lemma {:induction false} StepConserves(c: Config, s: State, a: Action, s': State, phone: string)
    requires ValidConfig(c) && Placed(c, s) && Step(c, s, a, s')
    requires var f := FifoOf(c, s, phone); Of(s.accepted, phone) == f.done + f.waiting
    ensures Placed(c, s')
    ensures var f := FifoOf(c, s', phone); Of(s'.accepted, phone) == f.done + f.waiting
  {
    StepRefinesFifo(c, s, a, s', phone);
    FifoConserves(FifoOf(c, s, phone), FifoOf(c, s', phone), Entered(a, s, phone));
  }

  /** A FIFO keeps what entered it: what left and what waits grow together by what enters. */
  lemma FifoConserves(f: Fifo, g: Fifo, entered: seq<Message>)
    requires FifoStep(f, g, entered)
    ensures g.done + g.waiting == f.done + f.waiting + entered
  {
  }

  /** So the processed messages of a phone are a prefix of the accepted ones. */
  lemma ProcessedInOrder(c: Config, states: seq<State>, actions: seq<Action>, i: nat, phone: string)
    requires ValidConfig(c) && IsRun(c, states, actions) && i < |states|
    ensures Of(states[i].processed, phone) <= Of(states[i].accepted, phone)
  {
    RunConserves(c, states, actions, i, phone);
  }

  // ---------- what the pool gets done ----------

  function Length(queue: seq<Message>): nat { |queue| }

  function Load(job: Job): nat { if job.Idle? then 0 else 1 }

  function Total<T>(xs: seq<T>, size: T -> nat): nat {
    if xs == [] then 0 else size(xs[0]) + Total(xs[1..], size)
  }

  lemma {:induction false} TotalUpdate<T>(xs: seq<T>, size: T -> nat, w: nat, x: T)
    requires w < |xs|
    ensures Total(xs[w := x], size) + size(xs[w]) == Total(xs, size) + size(x)
  {
    var ys := xs[w := x];
    if w == 0 {
      assert ys[1..] == xs[1..];
    } else {
      assert ys[0] == xs[0] && ys[1..] == xs[1..][w - 1 := x];
      TotalUpdate(xs[1..], size, w - 1, x);
    }
  }

  /** How many steps of the dispatcher and the workers are due. */
  function Due(s: State): nat {
    4 * |s.main| + 3 * |Held(s)| + 2 * Total(s.queues, Length) + Total(s.jobs, Load)
  }

  /** Nothing is on its way through the pool. */
  predicate Quiet(s: State) {
    && s.main == [] && s.held.None?
    && (forall w | 0 <= w < |s.queues| :: s.queues[w] == [])
    && (forall w | 0 <= w < |s.jobs| :: s.jobs[w].Idle?)
  }

  /** A step that the pool takes on its own. */
  predicate IsOwn(a: Action) { a.Take? || a.Put? || a.Start? || a.Finish? }

  /** The pool is never stuck: while anything is on its way, a step is possible that leaves fewer due. */
  lemma NeverStuck(c: Config, s: State) returns (a: Action, s': State)
    requires ValidConfig(c) && Placed(c, s) && !Quiet(s)
    ensures IsOwn(a) && Step(c, s, a, s') && s'.accepted == s.accepted && Due(s') < Due(s)
  {
    hide Total, Placed;
    assert |s.queues| == c.workers && |s.jobs| == c.workers by { SizesPlaced(c, s); }
    if w :| 0 <= w < |s.jobs| && !s.jobs[w].Idle? {
      a, s' := Finish(w), s.(jobs := s.jobs[w := Idle], processed := s.processed + [s.jobs[w].msg]);
      TotalUpdate(s.jobs, Load, w, Idle);
    } else if w :| 0 <= w < |s.queues| && s.queues[w] != [] {
      var job := Begun(s.queues[w][0]);
      a, s' := Start(w), s.(jobs := s.jobs[w := job], queues := s.queues[w := s.queues[w][1..]]);
      TotalUpdate(s.jobs, Load, w, job);
      TotalUpdate(s.queues, Length, w, s.queues[w][1..]);
    } else if s.held.Some? {
      var w := WorkerFor(c, s.held.value.phone);
      a, s' := Put, s.(held := None, queues := s.queues[w := s.queues[w] + [s.held.value]]);
      TotalUpdate(s.queues, Length, w, s.queues[w] + [s.held.value]);
    } else {
      a, s' := Take, s.(held := Some(s.main[0]), main := s.main[1..]);
    }
  }

  lemma SizesPlaced(c: Config, s: State)
    requires ValidConfig(c) && Placed(c, s)
    ensures |s.queues| == c.workers && |s.jobs| == c.workers
  {
  }

  /**
    From every state of every run the pool can go on by itself until nothing is on its way and
    every accepted message of every phone has been processed, in the order of acceptance.
   */
  lemma {:induction false} Drains(c: Config, states: seq<State>, actions: seq<Action>)
    returns (more: seq<State>, own: seq<Action>)
    requires ValidConfig(c) && IsRun(c, states, actions)
    ensures forall i | 0 <= i < |own| :: IsOwn(own[i])
    ensures IsRun(c, states + more, actions + own)
    ensures var last := (states + more)[|states + more| - 1];
            && Quiet(last) && last.accepted == states[|states| - 1].accepted
            && forall phone :: Of(last.processed, phone) == Of(last.accepted, phone)
    decreases Due(states[|states| - 1])
  {
    var s := states[|states| - 1];
    RunSound(c, states, actions, |states| - 1);
    if Quiet(s) {
      more, own := [], [];
      assert states + more == states && actions + own == actions;
      forall phone ensures Of(s.processed, phone) == Of(s.accepted, phone) {
        RunConserves(c, states, actions, |states| - 1, phone);
        NothingWaits(c, s, phone);
      }
    } else {
      var a, s' := NeverStuck(c, s);
      OneMore(c, states, actions, a, s');
      more, own := Drains(c, states + [s'], actions + [a]);
      more, own := [s'] + more, [a] + own;
      Assoc(states, [s'], more[1..]);
      Assoc(actions, [a], own[1..]);
      assert more == [s'] + more[1..] && own == [a] + own[1..];
    }
  }

  lemma OneMore(c: Config, states: seq<State>, actions: seq<Action>, a: Action, s': State)
    requires ValidConfig(c) && IsRun(c, states, actions) && Step(c, states[|states| - 1], a, s')
    ensures IsRun(c, states + [s'], actions + [a])
  {
    hide Step;
  }

  lemma NothingWaits(c: Config, s: State, phone: string)
    requires ValidConfig(c) && Placed(c, s) && Quiet(s)
    requires var f := FifoOf(c, s, phone); Of(s.accepted, phone) == f.done + f.waiting
    ensures Of(s.processed, phone) == Of(s.accepted, phone)
  {
    hide Of;
    var w := WorkerFor(c, phone);
    assert Line(s, w) == [];
    OfNone(phone);
    assert Of(s.processed, phone) + [] == Of(s.processed, phone);
  }

  lemma OfNone(phone: string)
    ensures Of([], phone) == []
  {
  }

  /** What a message is filed under, if anything: its phone, or else its alternative contact where that is allowed. */
  predicate FiledUnder(c: Config, m: Message, ident: Ident) {
    match ident
    case Phone(phone) => m.phone == phone && phone != ""
    case Alt(alt) => m.phone == "" && m.alt == alt && alt != "" && c.altContacts
  }

  /** A pool that has been started and has handed its first message to its worker. */
  function Handed(c: Config, m: Message, server: set<Ident>): State
    requires ValidConfig(c)
  {
    State([], None, seq(c.workers, _ => []), seq(c.workers, _ => Idle)[WorkerFor(c, m.phone) := Begun(m)],
          {}, server, [m], [], multiset{})
  }

  lemma FirstMessage(c: Config, m: Message, server: set<Ident>) returns (states: seq<State>, actions: seq<Action>)
    requires ValidConfig(c)
    ensures IsRun(c, states, actions) && states[0].server == server
    ensures states[|states| - 1] == Handed(c, m, server)
  {
    hide InnerStep, LostStep, FinishStep;
    var w := WorkerFor(c, m.phone);
    var none: seq<seq<Message>>, idle: seq<Job> := seq(c.workers, _ => []), seq(c.workers, _ => Idle);
    var s0 := State([], None, none, idle, {}, server, [], [], multiset{});
    var s1 := s0.(main := [m], accepted := [m]);
    var s2 := s1.(main := [], held := Some(m));
    var s3 := s2.(held := None, queues := none[w := [m]]);
    var s4 := s3.(queues := none, jobs := idle[w := Begun(m)]);
    states, actions := [s0, s1, s2, s3, s4], [Send(m), Take, Put, Start(w)];
    assert Step(c, s0, Send(m), s1) && Step(c, s1, Take, s2);
    assert Step(c, s2, Put, s3) by {
      assert none[w] + [m] == [m];
    }
    assert Step(c, s3, Start(w), s4) by {
      assert none[w := [m]][w := []] == none && [m][1..] == [];
    }
  }

  /** The three steps of a worker that creates the contact of its message. */
  lemma CreationSteps(c: Config, s: State, w: nat) returns (s1: State, s2: State, s3: State)
    requires ValidConfig(c) && c.createContacts && Working(c, s, w) && s.jobs[w].Begun?
    requires Target(c, s, w) !in s.server && Target(c, s, w) !in s.cache
    ensures var t := Target(c, s, w);
            && Step(c, s, CacheMiss(w), s1) && Step(c, s1, NotFound(w), s2) && Step(c, s2, Created(w), s3)
            && s3 == s.(jobs := s.jobs[w := WithContact(s.jobs[w].msg)], cache := s.cache + {t},
                        server := s.server + {t}, created := s.created + multiset{t})
  {
    hide IdentOf;
    var m, t := s.jobs[w].msg, Target(c, s, w);
    s1 := s.(jobs := s.jobs[w := Searching(m)]);
    s2 := s1.(jobs := s1.jobs[w := Creating(m)]);
    s3 := s2.(jobs := s2.jobs[w := WithContact(m)], cache := s.cache + {t}, server := s.server + {t},
              created := s.created + multiset{t});
    assert s3.jobs == s.jobs[w := WithContact(m)];
  }

  /** The steps from states[0] on, all of worker w. */
  ghost predicate IsWork(c: Config, states: seq<State>, actions: seq<Action>, w: nat)
    requires ValidConfig(c)
  {
    && |states| == |actions| + 1
    && (forall i | 0 <= i < |actions| ::
          Step(c, states[i], actions[i], states[i + 1])
          && actions[i] in {CacheHit(w), CacheMiss(w), Found(w), NotFound(w), Created(w)})
  }

  /**
    A worker gets the contact of its message from every state: from the cache, else from the
    server, else by creating it, which it does exactly if neither has it; then it is cached.
   */
  lemma ContactFound(c: Config, s: State, w: nat) returns (states: seq<State>, actions: seq<Action>)
    requires ValidConfig(c) && Working(c, s, w) && s.jobs[w].Begun?
    requires c.createContacts || Target(c, s, w) in s.cache + s.server
    ensures IsWork(c, states, actions, w) && states[0] == s
    ensures var t := Target(c, s, w);
            var known := t in s.cache || t in s.server;
            states[|actions|] == s.(
              jobs := s.jobs[w := WithContact(s.jobs[w].msg)],
              cache := s.cache + {t},
              server := if known then s.server else s.server + {t},
              created := s.created + if known then multiset{} else multiset{t})
  {
    var m, t := s.jobs[w].msg, Target(c, s, w);
    if t in s.cache {
      assert s.cache + {t} == s.cache && s.created + multiset{} == s.created;
      var s1 := s.(jobs := s.jobs[w := WithContact(m)]);
      assert Step(c, s, CacheHit(w), s1);
      states, actions := [s, s1], [CacheHit(w)];
    } else if t in s.server {
      assert s.created + multiset{} == s.created;
      var s1 := s.(jobs := s.jobs[w := Searching(m)]);
      var s2 := s1.(jobs := s1.jobs[w := WithContact(m)], cache := s.cache + {t});
      assert s2.jobs == s.jobs[w := WithContact(m)];
      assert Step(c, s, CacheMiss(w), s1) && Step(c, s1, Found(w), s2);
      states, actions := [s, s1, s2], [CacheMiss(w), Found(w)];
    } else {
      var s1, s2, s3 := CreationSteps(c, s, w);
      hide Step;
      states, actions := [s, s1, s2, s3], [CacheMiss(w), NotFound(w), Created(w)];
    }
  }

  /** A message for an unknown contact, alone in the pool, leads to that contact being created. */
  lemma ContactIsCreated(c: Config, m: Message, ident: Ident, server: set<Ident>)
    returns (states: seq<State>, actions: seq<Action>)
    requires ValidConfig(c) && c.createContacts && FiledUnder(c, m, ident) && ident !in server
    ensures IsRun(c, states, actions) && states[0].server == server
    ensures var last := states[|states| - 1];
            && last.accepted == [m] && last.processed == [m] && Quiet(last)
            && last.created == multiset{ident} && last.server == server + {ident} && ident in last.cache
  {
    var w := WorkerFor(c, m.phone);
    states, actions := FirstMessage(c, m, server);
    var s1, s2, s3 := CreationSteps(c, Handed(c, m, server), w);
    var s4 := s3.(jobs := s3.jobs[w := Idle], processed := [m]);
    assert Step(c, s3, Finish(w), s4);
    hide Step, IsRun, WorkerFor;
    OneMore(c, states, actions, CacheMiss(w), s1);
    states, actions := states + [s1], actions + [CacheMiss(w)];
    OneMore(c, states, actions, NotFound(w), s2);
    states, actions := states + [s2], actions + [NotFound(w)];
    OneMore(c, states, actions, Created(w), s3);
    states, actions := states + [s3], actions + [Created(w)];
    OneMore(c, states, actions, Finish(w), s4);
    states, actions := states + [s4], actions + [Finish(w)];
  }

  /** Every message in the pool has been accepted, and contacts are created for accepted messages only. */
  ghost predicate Founded(c: Config, s: State) {
    && (forall i | 0 <= i < |s.main| :: s.main[i] in s.accepted)
    && (s.held.Some? ==> s.held.value in s.accepted)
    && (forall w, i | 0 <= w < |s.queues| && 0 <= i < |s.queues[w]| :: s.queues[w][i] in s.accepted)
    && (forall w | 0 <= w < |s.jobs| && !s.jobs[w].Idle? :: s.jobs[w].msg in s.accepted)
    && (forall w | 0 <= w < |s.jobs| && s.jobs[w].Creating? :: c.createContacts)
    && (forall i: Ident | i in s.created :: c.createContacts && Asked(c, s.accepted, i))
  }

  ghost predicate Asked(c: Config, accepted: seq<Message>, ident: Ident) {
    exists k :: 0 <= k < |accepted| && FiledUnder(c, accepted[k], ident)
  }

  lemma StepFounded(c: Config, s: State, a: Action, s': State)
    requires ValidConfig(c) && Placed(c, s) && Founded(c, s) && Step(c, s, a, s')
    ensures Founded(c, s')
  {
    hide Asked, FiledUnder;
    match a
    case Send(m) => AskedMore(c, s.accepted, s'.accepted);
    case Put => PutFounded(c, s, s');
    case Start(w) => StartFounded(c, s, w, s');
    case Created(w) => WorkAsked(c, s, w);
    case CreatedResponseLost(w) => WorkAsked(c, s, w);
    case _ => OtherFounded(c, s, a, s');
  }

  lemma StartFounded(c: Config, s: State, w: nat, s': State)
    requires Founded(c, s) && StartStep(s, w, s')
    ensures Founded(c, s')
  {
    hide Asked;
  }

  lemma OtherFounded(c: Config, s: State, a: Action, s': State)
    requires ValidConfig(c) && Founded(c, s) && Step(c, s, a, s')
    requires !a.Send? && !a.Put? && !a.Start? && !a.Created? && !a.CreatedResponseLost?
    ensures Founded(c, s')
  {
    hide Asked, WorkerFor;
  }

  lemma AskedMore(c: Config, accepted: seq<Message>, more: seq<Message>)
    requires accepted <= more
    ensures forall i | Asked(c, accepted, i) :: Asked(c, more, i)
  {
    forall i | Asked(c, accepted, i) ensures Asked(c, more, i) {
      var k :| 0 <= k < |accepted| && FiledUnder(c, accepted[k], i);
      assert more[k] == accepted[k];
    }
  }

  lemma PutFounded(c: Config, s: State, s': State)
    requires ValidConfig(c) && Founded(c, s) && PutStep(c, s, s')
    ensures Founded(c, s')
  {
    hide Asked, WorkerFor;
  }

  lemma WorkAsked(c: Config, s: State, w: nat)
    requires Founded(c, s) && Working(c, s, w)
    ensures Asked(c, s.accepted, Target(c, s, w))
  {
    var m := s.jobs[w].msg;
    var k :| 0 <= k < |s.accepted| && s.accepted[k] == m;
    assert FiledUnder(c, s.accepted[k], Target(c, s, w));
  }

  /**
    In every run a contact is created only if that is allowed and some accepted message is filed
    under it, and never if the server had it from the start.
   */
  lemma {:induction false} CreatedOnRequest(c: Config, states: seq<State>, actions: seq<Action>, i: nat)
    requires ValidConfig(c) && IsRun(c, states, actions) && i < |states|
    ensures Founded(c, states[i])
    ensures forall ident: Ident | ident in states[i].created ::
              c.createContacts && Asked(c, states[i].accepted, ident) && ident !in states[0].server
    ensures NoneKnown(c, states[i], states[0].server)
  {
    if i > 0 {
      hide Founded;
      CreatedOnRequest(c, states, actions, i - 1);
      RunSound(c, states, actions, i - 1);
      StepFounded(c, states[i - 1], actions[i - 1], states[i]);
      StepNoneKnown(c, states[i - 1], actions[i - 1], states[i], states[0].server);
      FoundedCreated(c, states[i]);
    } else {
      assert Founded(c, states[0]);
    }
  }

  lemma FoundedCreated(c: Config, s: State)
    requires Founded(c, s)
    ensures forall ident: Ident | ident in s.created :: c.createContacts && Asked(c, s.accepted, ident)
  {
  }

  /** What the server had from the start it still has, and nothing of it is or was created. */
  ghost predicate NoneKnown(c: Config, s: State, known: set<Ident>) {
    && known <= s.server
    && (forall ident: Ident | ident in s.created :: ident !in known)
    && (forall w | 0 <= w < |s.jobs| :: Working(c, s, w) && s.jobs[w].Creating? ==> Target(c, s, w) !in known)
  }

  lemma StepNoneKnown(c: Config, s: State, a: Action, s': State, known: set<Ident>)
    requires ValidConfig(c) && NoneKnown(c, s, known) && Step(c, s, a, s')
    ensures NoneKnown(c, s', known)
  {
    if a.Created? || a.CreatedResponseLost? {
      CreationUnknown(c, s, a, s', known);
    } else {
      assert s'.created == s.created && s.server <= s'.server;
      forall v | 0 <= v < |s'.jobs| && Working(c, s', v) && s'.jobs[v].Creating?
        ensures Target(c, s', v) !in known
      {
        NewlyUnknown(c, s, a, s', known, v);
      }
    }
  }

  lemma CreationUnknown(c: Config, s: State, a: Action, s': State, known: set<Ident>)
    requires ValidConfig(c) && NoneKnown(c, s, known) && Step(c, s, a, s') && (a.Created? || a.CreatedResponseLost?)
    ensures NoneKnown(c, s', known)
  {
    hide WorkerFor, IdentOf;
    forall v | 0 <= v < |s'.jobs| && Working(c, s', v) && s'.jobs[v].Creating?
      ensures Target(c, s', v) !in known
    {
      assert s'.jobs[v] == s.jobs[v];
    }
  }

  lemma NewlyUnknown(c: Config, s: State, a: Action, s': State, known: set<Ident>, v: nat)
    requires ValidConfig(c) && NoneKnown(c, s, known) && Step(c, s, a, s') && !a.Created? && !a.CreatedResponseLost?
    requires Working(c, s', v) && s'.jobs[v].Creating?
    ensures Target(c, s', v) !in known
  {
    hide WorkerFor, IdentOf;
    if a != NotFound(v) {
      assert v < |s.jobs| && s'.jobs[v] == s.jobs[v];
    }
  }

  /** The low byte of the hash decides the worker. */
  lemma WorkerOfLowByte(c: Config, phone: string, high: nat, low: nat)
    requires ValidConfig(c) && c.hash(phone) == 256 * high + low && low < 256
    ensures WorkerFor(c, phone) == low % c.workers
  {
  }

  /** No queue ever exceeds its capacity, and leads are handled for contacts that the server has. */
  predicate Sane(c: Config, s: State) {
    && |s.main| <= MAIN_CAPACITY
    && (forall w | 0 <= w < |s.queues| :: |s.queues[w]| <= WORKER_CAPACITY)
    && s.cache <= s.server
    && (forall w | 0 <= w < |s.jobs| :: Working(c, s, w) && s.jobs[w].WithContact? ==> Target(c, s, w) in s.server)
  }

  lemma StepSane(c: Config, s: State, a: Action, s': State)
    requires ValidConfig(c) && Sane(c, s) && Step(c, s, a, s')
    ensures Sane(c, s')
  {
    hide WorkerFor, IdentOf;
    forall v | 0 <= v < |s'.jobs| && Working(c, s', v) && s'.jobs[v].WithContact?
      ensures Target(c, s', v) in s'.server
    {
      if v < |s.jobs| && s'.jobs[v] != s.jobs[v] {
        assert a == CacheHit(v) || a == Found(v) || a == Created(v);
      }
    }
  }

  lemma {:induction false} RunSane(c: Config, states: seq<State>, actions: seq<Action>, i: nat)
    requires ValidConfig(c) && IsRun(c, states, actions) && i < |states|
    ensures Sane(c, states[i])
  {
    if i > 0 {
      hide Sane;
      RunSane(c, states, actions, i - 1);
      StepSane(c, states[i - 1], actions[i - 1], states[i]);
    } else {
      assert Sane(c, states[0]);
    }
  }

  /**
    What the surroundings may do at any moment: forget cached contacts, create contacts
    elsewhere, and lose the answer to a creation that has taken place.
   */
  lemma SurroundingsAreFree(c: Config, s: State, gone: set<Ident>, ident: Ident, w: nat)
    requires ValidConfig(c)
    ensures Step(c, s, Expire(gone), s.(cache := s.cache - gone))
    ensures Step(c, s, CreatedElsewhere(ident), s.(server := s.server + {ident}))
    ensures Working(c, s, w) && s.jobs[w].Creating? ==>
              exists s' :: && Step(c, s, CreatedResponseLost(w), s') && s'.cache == s.cache && s'.jobs[w].Idle?
                           && s'.server == s.server + {Target(c, s, w)}
  {
    hide WorkerFor, IdentOf;
    if Working(c, s, w) && s.jobs[w].Creating? {
      var t := Target(c, s, w);
      var s' := s.(jobs := s.jobs[w := Idle], processed := s.processed + [s.jobs[w].msg],
                   server := s.server + {t}, created := s.created + multiset{t});
      assert Step(c, s, CreatedResponseLost(w), s') && s'.jobs[w] == Idle;
    }
  }
}
