/**
  Event subscribers of a cascade session (pkg/model/realtime_cascade.go): channels in a map
  guarded by a read-write lock. Publishing walks the map under the read lock, one send at a
  time; unsubscribing and closing change it under the write lock, one statement at a time.
 */
module CascadeSubscribers {

  type Chan = nat

  /** The statement a holder of the write lock executes next. */
  datatype Writer =
    | NoWriter
    | Deleting(target: Chan)  // unsubscribe: delete(events, ch) comes next
    | Closing(target: Chan)   // unsubscribe: ch is deleted, close(ch) comes next
    | Sweeping                // close: about to close some channel of the map, or to finish
    | Removing(target: Chan)  // close: the channel is closed, delete comes next

  /** sends and closes record every send and close ever done; todo is what a publisher has still to visit. */
  datatype State = State(
    events: set<Chan>,
    open: set<Chan>,
    todo: map<nat, set<Chan>>,
    writer: Writer,
    sends: seq<(Chan, bool)>,
    closes: multiset<Chan>)

  predicate Init(s: State) {
    s == State({}, {}, map[], NoWriter, [], multiset{})
  }

  datatype Action =
    | Subscribe(ch: Chan)
    | PublishBegin(id: nat)
    | PublishSend(id: nat, ch: Chan)
    | PublishEnd(id: nat)
    | UnsubscribeBegin(ch: Chan)
    | UnsubscribeUnknown(ch: Chan)
    | Delete
    | CloseDeleted
    | CloseBegin
    | SweepOne(ch: Chan)
    | RemoveClosed
    | SweepEnd

  predicate WriteLockFree(s: State) {
    s.todo == map[] && s.writer.NoWriter?
  }

  ghost predicate Step(s: State, a: Action, s': State) {
    match a
    case Subscribe(ch) =>
      // make(chan) gives a channel that never existed before
      && WriteLockFree(s) && ch !in s.open && ch !in s.closes && ch !in s.events
      && s' == s.(events := s.events + {ch}, open := s.open + {ch})
    case PublishBegin(id) =>
      s.writer.NoWriter? && id !in s.todo && s' == s.(todo := s.todo[id := s.events])
    case PublishSend(id, ch) =>
      && id in s.todo && ch in s.todo[id]
      && s' == s.(todo := s.todo[id := s.todo[id] - {ch}], sends := s.sends + [(ch, ch in s.open)])
    case PublishEnd(id) =>
      id in s.todo && s.todo[id] == {} && s' == s.(todo := s.todo - {id})
    case UnsubscribeBegin(ch) =>
      WriteLockFree(s) && ch in s.events && s' == s.(writer := Deleting(ch))
    case UnsubscribeUnknown(ch) =>
      WriteLockFree(s) && ch !in s.events && s' == s
    case Delete =>
      s.writer.Deleting? && s' == s.(events := s.events - {s.writer.target}, writer := Closing(s.writer.target))
    case CloseDeleted =>
      s.writer.Closing? && s' == CloseChan(s, s.writer.target).(writer := NoWriter)
    case CloseBegin =>
      WriteLockFree(s) && s' == s.(writer := Sweeping)
    case SweepOne(ch) =>
      s.writer.Sweeping? && ch in s.events && s' == CloseChan(s, ch).(writer := Removing(ch))
    case RemoveClosed =>
      s.writer.Removing? && s' == s.(events := s.events - {s.writer.target}, writer := Sweeping)
    case SweepEnd =>
      s.writer.Sweeping? && s.events == {} && s' == s.(writer := NoWriter)
  }

  function CloseChan(s: State, ch: Chan): State {
    s.(open := s.open - {ch}, closes := s.closes + multiset{ch})
  }

  ghost predicate IsRun(states: seq<State>, actions: seq<Action>) {
    && |states| == |actions| + 1
    && Init(states[0])
    && forall i :: 0 <= i < |actions| ==> Step(states[i], actions[i], states[i + 1])
  }

  /** The channels of the map, except one that the closing writer is about to delete, are open. */
  ghost predicate MapSound(s: State) {
    match s.writer
    case Closing(target) => target in s.open && target !in s.events && s.events <= s.open
    case Removing(target) => target !in s.open && s.events - {target} <= s.open
    case Deleting(target) => target in s.events && s.events <= s.open
    case _ => s.events <= s.open
  }

  ghost predicate Inv(s: State) {
    && MapSound(s)
    && (s.todo != map[] ==> s.writer.NoWriter?)
    && (forall id :: id in s.todo ==> s.todo[id] <= s.events)
    && (forall ch: Chan :: s.closes[ch] <= 1 && (ch in s.open ==> s.closes[ch] == 0))
    && (forall i :: 0 <= i < |s.sends| ==> s.sends[i].1)
    && NoLeak(s)
  }

  /** An open channel is in the map, except for the moment between delete and close. */
  ghost predicate NoLeak(s: State) {
    s.open <= s.events + if s.writer.Closing? then {s.writer.target} else {}
  }

  lemma StepInv(s: State, a: Action, s': State)
    requires Inv(s) && Step(s, a, s')
    ensures Inv(s')
  {
    match a
    case PublishSend(id, ch) =>
      assert ch in s.events && s.writer.NoWriter?;
    case CloseDeleted => CloseOpenChan(s, s.writer.target);
    case SweepOne(ch) => CloseOpenChan(s, ch);
    case _ =>
  }

  lemma CloseOpenChan(s: State, target: Chan)
    requires target in s.open
    requires forall ch: Chan :: s.closes[ch] <= 1 && (ch in s.open ==> s.closes[ch] == 0)
    ensures var t := CloseChan(s, target);
            forall ch: Chan :: t.closes[ch] <= 1 && (ch in t.open ==> t.closes[ch] == 0)
  {
  }

  /**
    In every interleaving of subscribing, publishing, unsubscribing, interrupting and repeated
    closing, every send goes to an open channel, no channel is closed twice, and whenever no
    writer is at work the map holds the open channels and no others.
   */
  lemma {:induction false} ChannelsSafe(states: seq<State>, actions: seq<Action>, i: nat)
    requires IsRun(states, actions) && i < |states|
    ensures forall k :: 0 <= k < |states[i].sends| ==> states[i].sends[k].1
    ensures forall ch: Chan :: states[i].closes[ch] <= 1
    ensures states[i].writer.NoWriter? ==> states[i].events == states[i].open
    ensures Inv(states[i])
  {
    if i > 0 {
      ChannelsSafe(states, actions, i - 1);
      StepInv(states[i - 1], actions[i - 1], states[i]);
    }
  }

  // ---------- what publishing and closing reach ----------

  /** Publisher id has sent to ch between j and n. */
  ghost predicate SentTo(actions: seq<Action>, id: nat, ch: Chan, j: nat, n: nat)
    requires n <= |actions|
  {
    exists i :: j < i < n && actions[i] == PublishSend(id, ch)
  }

  lemma SentOneMore(actions: seq<Action>, id: nat, ch: Chan, j: nat, n: nat)
    requires j < n < |actions|
    ensures SentTo(actions, id, ch, j, n + 1) <==>
            SentTo(actions, id, ch, j, n) || actions[n] == PublishSend(id, ch)
  {
  }

  /** While a publisher is under way, it has still to visit the channels it began with and has not sent to. */
  lemma {:induction false} VisitSoFar(states: seq<State>, actions: seq<Action>, id: nat, ch: Chan, j: nat, n: nat)
    requires IsRun(states, actions) && j < n <= |actions| && actions[j] == PublishBegin(id)
    requires forall i | j < i < n :: actions[i] != PublishEnd(id)
    ensures id in states[n].todo
    ensures ch in states[n].todo[id] <==> ch in states[j].events && !SentTo(actions, id, ch, j, n)
  {
    assert Step(states[n - 1], actions[n - 1], states[n]);
    if n > j + 1 {
      hide SentTo;
      VisitSoFar(states, actions, id, ch, j, n - 1);
      SentOneMore(actions, id, ch, j, n - 1);
    }
  }

  /** A publication reaches every channel that was in the map when it began, each once, and no other. */
  lemma PublishReachesAll(states: seq<State>, actions: seq<Action>, id: nat, ch: Chan, j: nat, k: nat)
    requires IsRun(states, actions) && j < k < |actions|
    requires actions[j] == PublishBegin(id) && actions[k] == PublishEnd(id)
    requires forall i | j < i < k :: actions[i] != PublishEnd(id)
    ensures ch in states[j].events <==> SentTo(actions, id, ch, j, k)
    ensures forall i, l | j < i < l < k && actions[i] == PublishSend(id, ch) :: actions[l] != PublishSend(id, ch)
  {
    VisitSoFar(states, actions, id, ch, j, k);
    assert Step(states[k], actions[k], states[k + 1]);
    forall i, l | j < i < l < k && actions[i] == PublishSend(id, ch)
      ensures actions[l] != PublishSend(id, ch)
    {
      VisitSoFar(states, actions, id, ch, j, l);
      assert SentTo(actions, id, ch, j, l) && Step(states[l], actions[l], states[l + 1]);
    }
    if SentTo(actions, id, ch, j, k) {
      var i :| j < i < k && actions[i] == PublishSend(id, ch);
      VisitSoFar(states, actions, id, ch, j, i);
      assert Step(states[i], actions[i], states[i + 1]);
    }
  }

  /** ch was subscribed before n. */
  ghost predicate Subscribed(actions: seq<Action>, ch: Chan, n: nat)
    requires n <= |actions|
  {
    exists i :: 0 <= i < n && actions[i] == Subscribe(ch)
  }

  lemma SubscribedOneMore(actions: seq<Action>, ch: Chan, n: nat)
    requires n < |actions|
    ensures Subscribed(actions, ch, n + 1) <==> Subscribed(actions, ch, n) || actions[n] == Subscribe(ch)
  {
  }

  /** In every run a subscribed channel is open and has not been closed, or has been closed exactly once. */
  lemma {:induction false} OpenOrClosedOnce(states: seq<State>, actions: seq<Action>, ch: Chan, n: nat)
    requires IsRun(states, actions) && n < |states|
    ensures Subscribed(actions, ch, n) <==> ch in states[n].open || states[n].closes[ch] == 1
    ensures states[n].closes[ch] == if Subscribed(actions, ch, n) && ch !in states[n].open then 1 else 0
  {
    if n == 0 {
      assert Init(states[0]);
    } else {
      hide Subscribed, Inv;
      OpenOrClosedOnce(states, actions, ch, n - 1);
      SubscribedOneMore(actions, ch, n - 1);
      ChannelsSafe(states, actions, n - 1);
      ClosesOpen(states[n - 1]);
      assert Step(states[n - 1], actions[n - 1], states[n]);
    }
  }

  lemma ClosesOpen(s: State)
    requires Inv(s)
    ensures s.writer.Closing? ==> s.writer.target in s.open
    ensures s.writer.Sweeping? ==> s.events <= s.open
  {
  }

  /** When a close has swept the map, every channel subscribed so far has been closed. */
  lemma CloseReachesAll(states: seq<State>, actions: seq<Action>, ch: Chan, n: nat)
    requires IsRun(states, actions) && n < |actions| && actions[n] == SweepEnd
    ensures Subscribed(actions, ch, n) ==> states[n + 1].closes[ch] == 1
  {
    hide Subscribed;
    assert Step(states[n], actions[n], states[n + 1]);
    ChannelsSafe(states, actions, n + 1);
    OpenOrClosedOnce(states, actions, ch, n);
  }

  // ---------- progress ----------

  ghost predicate Possible(s: State, a: Action) { exists s' :: Step(s, a, s') }

  /** The statements of a holder of the write lock. */
  predicate IsWriting(a: Action) { a.Delete? || a.CloseDeleted? || a.SweepOne? || a.RemoveClosed? || a.SweepEnd? }

  /**
    Nothing gets stuck: a publisher under way can go on, so can a holder of the write lock, and
    while nobody holds a lock every operation can begin.
   */
  lemma NeverStuck(s: State, id: nat, ch: Chan)
    requires Inv(s)
    ensures id in s.todo ==> Possible(s, PublishEnd(id)) || exists x: Chan :: Possible(s, PublishSend(id, x))
    ensures !s.writer.NoWriter? ==> exists a :: IsWriting(a) && Possible(s, a)
    ensures WriteLockFree(s) ==> Possible(s, PublishBegin(id)) && Possible(s, CloseBegin)
    ensures WriteLockFree(s) && ch in s.events ==> Possible(s, UnsubscribeBegin(ch))
    ensures WriteLockFree(s) && ch !in s.open && s.closes[ch] == 0 ==> Possible(s, Subscribe(ch))
  {
    if id in s.todo {
      PublisherGoesOn(s, id);
    }
    if !s.writer.NoWriter? {
      WriterGoesOn(s);
    }
    if WriteLockFree(s) {
      assert Step(s, PublishBegin(id), s.(todo := s.todo[id := s.events]));
      assert Step(s, CloseBegin, s.(writer := Sweeping));
      if ch in s.events {
        assert Step(s, UnsubscribeBegin(ch), s.(writer := Deleting(ch)));
      } else if ch !in s.open && s.closes[ch] == 0 {
        assert Step(s, Subscribe(ch), s.(events := s.events + {ch}, open := s.open + {ch}));
      }
    }
  }

  lemma PublisherGoesOn(s: State, id: nat)
    requires id in s.todo
    ensures Possible(s, PublishEnd(id)) || exists x: Chan :: Possible(s, PublishSend(id, x))
  {
    if s.todo[id] == {} {
      assert Step(s, PublishEnd(id), s.(todo := s.todo - {id}));
    } else {
      var x :| x in s.todo[id];
      assert Step(s, PublishSend(id, x),
                  s.(todo := s.todo[id := s.todo[id] - {x}], sends := s.sends + [(x, x in s.open)]));
    }
  }

  lemma WriterGoesOn(s: State)
    requires Inv(s) && !s.writer.NoWriter?
    ensures exists a :: IsWriting(a) && Possible(s, a)
  {
    match s.writer
    case Deleting(ch) =>
      assert Step(s, Delete, s.(events := s.events - {ch}, writer := Closing(ch)));
      assert IsWriting(Delete) && Possible(s, Delete);
    case Closing(ch) =>
      assert Step(s, CloseDeleted, CloseChan(s, ch).(writer := NoWriter));
      assert IsWriting(CloseDeleted) && Possible(s, CloseDeleted);
    case Removing(ch) =>
      assert Step(s, RemoveClosed, s.(events := s.events - {ch}, writer := Sweeping));
      assert IsWriting(RemoveClosed) && Possible(s, RemoveClosed);
    case Sweeping =>
      if s.events == {} {
        assert Step(s, SweepEnd, s.(writer := NoWriter));
        assert IsWriting(SweepEnd) && Possible(s, SweepEnd);
      } else {
        var ch :| ch in s.events;
        assert Step(s, SweepOne(ch), CloseChan(s, ch).(writer := Removing(ch)));
        assert IsWriting(SweepOne(ch)) && Possible(s, SweepOne(ch));
      }
  }
}
