/**
  Turns and barge-in of the realtime cascade (pkg/model/realtime_cascade.go): the methods of a
  session as they run alone, and every interleaving of turns, interruptions and speakers,
  where a speaker's check and its send are separate steps.
 */
module CascadeTurns {
  import opened ByteStrings

  /** The capacity of audioOut. */
  const AUDIO_BUFFER := 100

  // ---------- the session object ----------

  class CascadeSession {
    var turnID: nat
    var turnLive: bool  // turnCancel is set
    var closed: bool
    var generating: bool
    var drain: bool     // the one-place drain channel holds a signal
    var audioOut: seq<Bytes>

    constructor ()
      ensures turnID == 0 && !turnLive && !closed && audioOut == [] && !drain
    {
      turnID, turnLive, closed, generating, drain, audioOut := 0, false, false, false, false, [];
    }

    predicate IsCurrentTurn(id: nat)
      reads this`turnID, this`turnLive
    {
      turnID == id && turnLive
    }

    method BeginTurn() returns (id: nat)
      modifies this`turnID, this`turnLive
      ensures id == old(turnID) + 1 && IsCurrentTurn(id)
      ensures forall other :: other != id ==> !IsCurrentTurn(other)
    {
      turnLive := true;
      turnID := turnID + 1;
      id := turnID;
    }

    /** Cancels the turn, empties the playback queue and signals the drain. */
    method Interrupt()
      modifies this`turnLive, this`generating, this`audioOut, this`drain
      ensures forall id :: !IsCurrentTurn(id)
      ensures audioOut == [] && drain && !generating
    {
      if turnLive {
        turnLive := false;
      }
      generating := false;
      while audioOut != []
        invariant !turnLive && !generating
        decreases |audioOut|
      {
        audioOut := audioOut[1..];
      }
      drain := true;
    }

    /** Undisturbed, a chunk is queued exactly if it belongs to the current turn and there is room. */
    method PublishAudio(id: nat, pcm: Bytes) returns (ok: bool)
      modifies this`audioOut
      ensures ok <==> pcm != [] && !closed && IsCurrentTurn(id) && |old(audioOut)| < AUDIO_BUFFER
      ensures audioOut == if ok then old(audioOut) + [pcm] else old(audioOut)
    {
      if |pcm| == 0 || closed {
        return false;
      }
      if !IsCurrentTurn(id) {
        return false;
      }
      if |audioOut| < AUDIO_BUFFER {
        audioOut := audioOut + [pcm];
        return true;
      }
      return false;
    }
  }

  // ---------- all interleavings ----------

  /** Where a turn's speaker is inside publishAudio. */
  datatype Phase =
    | Open(pcm: Bytes)     // past the test of the closed flag
    | Checked(pcm: Bytes)  // past the test of the turn; the send comes next

  /** A chunk that entered audioOut, and whether its turn was current at that moment. */
  datatype Entry = Entry(turn: nat, pcm: Bytes, current: bool)

  /** log is everything that ever entered audioOut; the first taken entries have left it. */
  datatype State = State(turnID: nat, live: bool, closed: bool, speakers: map<nat, Phase>, log: seq<Entry>, taken: nat)

  predicate Current(s: State, turn: nat) {
    s.turnID == turn && s.live
  }

  predicate Init(s: State) {
    s == State(0, false, false, map[], [], 0)
  }

  datatype Action =
    | Begin
    | Cancel                           // the critical section of interrupt
    | TakeAudio                        // a round of interrupt's drain loop, or the player
    | PassOpen(turn: nat, pcm: Bytes)
    | PassTurn(turn: nat)
    | Refuse(turn: nat)
    | Send(turn: nat)
    | Close

  ghost predicate Step(s: State, a: Action, s': State) {
    match a
    case Begin =>
      s' == s.(turnID := s.turnID + 1, live := true)
    case Cancel =>
      s' == s.(live := false)
    case TakeAudio =>
      s.taken < |s.log| && s' == s.(taken := s.taken + 1)
    case PassOpen(turn, pcm) =>
      turn !in s.speakers && pcm != [] && !s.closed && s' == s.(speakers := s.speakers[turn := Open(pcm)])
    case PassTurn(turn) =>
      && turn in s.speakers && s.speakers[turn].Open? && Current(s, turn)
      && s' == s.(speakers := s.speakers[turn := Checked(s.speakers[turn].pcm)])
    case Refuse(turn) =>
      && turn in s.speakers && s.speakers[turn].Open? && !Current(s, turn)
      && s' == s.(speakers := s.speakers - {turn})
    case Send(turn) =>
      && turn in s.speakers && s.speakers[turn].Checked?
      && s' == s.(speakers := s.speakers - {turn},
                  log := if |s.log| - s.taken < AUDIO_BUFFER
                         then s.log + [Entry(turn, s.speakers[turn].pcm, Current(s, turn))] else s.log)
    case Close =>
      s' == s.(closed := true)
  }

  ghost predicate IsRun(states: seq<State>, actions: seq<Action>) {
    && |states| == |actions| + 1
    && Init(states[0])
    && forall i :: 0 <= i < |actions| ==> Step(states[i], actions[i], states[i + 1])
  }

  /** How many chunks of a turn entered the queue when the turn was no longer current. */
  function Late(log: seq<Entry>, turn: nat): nat {
    if log == [] then 0
    else Late(log[..|log| - 1], turn) + if log[|log| - 1].turn == turn && !log[|log| - 1].current then 1 else 0
  }

  predicate Waiting(s: State, turn: nat) {
    turn in s.speakers && s.speakers[turn].Checked?
  }

  /**
    What every step keeps for every turn. A turn that is not current has a late chunk behind
    it, or one in the hands of its speaker, but not both; a current turn, and one that has
    not begun, has no late chunk.
   */
  predicate TurnInv(s: State, turn: nat) {
    && (Waiting(s, turn) ==> turn <= s.turnID)
    && Late(s.log, turn) + (if Waiting(s, turn) then 1 else 0) <= 1
    && (Current(s, turn) || turn > s.turnID ==> Late(s.log, turn) == 0)
  }

  ghost predicate Inv(s: State) {
    s.taken <= |s.log| && forall turn: nat :: TurnInv(s, turn)
  }

  lemma StepInv(s: State, a: Action, s': State)
    requires Inv(s) && Step(s, a, s')
    ensures Inv(s')
  {
    forall turn: nat ensures TurnInv(s', turn) {
      assert TurnInv(s, turn);
      if a.Send? && s'.log != s.log {
        LateSnoc(s.log, Entry(a.turn, s.speakers[a.turn].pcm, Current(s, a.turn)), turn);
      }
    }
  }

  lemma LateSnoc(log: seq<Entry>, e: Entry, turn: nat)
    ensures Late(log + [e], turn) == Late(log, turn) + if e.turn == turn && !e.current then 1 else 0
  {
    assert (log + [e])[..|log|] == log;
  }

  lemma {:induction false} RunInv(states: seq<State>, actions: seq<Action>, i: nat)
    requires IsRun(states, actions) && i < |states|
    ensures Inv(states[i])
  {
    if i > 0 {
      RunInv(states, actions, i - 1);
      StepInv(states[i - 1], actions[i - 1], states[i]);
    }
  }

  /** In every interleaving at most one chunk of a turn is queued after the turn stopped being current. */
  lemma AtMostOneLateChunk(states: seq<State>, actions: seq<Action>, i: nat, turn: nat)
    requires IsRun(states, actions) && i < |states|
    ensures Late(states[i].log, turn) <= 1
  {
    RunInv(states, actions, i);
    assert TurnInv(states[i], turn);
  }

  /** The bound is reached: the check passes, the user interrupts, and the send still goes through. */
  lemma OneLateChunkHappens(pcm: Bytes)
    requires pcm != []
    ensures exists states: seq<State>, actions: seq<Action> ::
              IsRun(states, actions) && Late(states[|actions|].log, 1) == 1
  {
    var s0 := State(0, false, false, map[], [], 0);
    var s1 := s0.(turnID := 1, live := true);
    var s2 := s1.(speakers := map[1 := Open(pcm)]);
    var s3 := s1.(speakers := map[1 := Checked(pcm)]);
    var s4 := s3.(live := false);
    var late := Entry(1, pcm, false);
    var s5 := s4.(speakers := map[], log := [late]);
    var states := [s0, s1, s2, s3, s4, s5];
    var actions := [Begin, PassOpen(1, pcm), PassTurn(1), Cancel, Send(1)];
    assert s4.speakers - {1} == map[] && s0.log + [late] == [late];
    assert forall i :: 0 <= i < |actions| ==> Step(states[i], actions[i], states[i + 1]);
    assert IsRun(states, actions);
    assert Late([late], 1) == 1 by {
      assert [late][..0] == [];
    }
    assert states[|actions|] == s5;
  }

  /** Turn ids never go back, and a turn that has begun and is not current stays so. */
  lemma {:induction false} StaysPast(states: seq<State>, actions: seq<Action>, i: nat, k: nat, turn: nat)
    requires IsRun(states, actions) && i <= k < |states|
    ensures states[i].turnID <= states[k].turnID
    ensures turn <= states[i].turnID && !Current(states[i], turn) ==> !Current(states[k], turn)
  {
    if i < k {
      StaysPast(states, actions, i, k - 1, turn);
      assert Step(states[k - 1], actions[k - 1], states[k]);
    }
  }

  // ---------- exactly when a chunk is late ----------

  /** A new turn or an interruption comes strictly between two steps of a run. */
  ghost predicate Interrupted(actions: seq<Action>, j: nat, k: nat) {
    exists i :: j < i < k && i < |actions| && (actions[i].Begin? || actions[i].Cancel?)
  }

  /** The check at j and the send at k belong to one call of publishAudio for the turn. */
  ghost predicate OneCall(actions: seq<Action>, turn: nat, j: nat, k: nat) {
    && j < k < |actions|
    && actions[j] == PassTurn(turn) && actions[k] == Send(turn)
    && forall i | j < i < k :: actions[i] != Send(turn)
  }

  /** A turn that is current after the step at j stays so exactly until it is interrupted. */
  lemma {:induction false} CurrentUntilInterrupted(states: seq<State>, actions: seq<Action>, turn: nat, j: nat, k: nat)
    requires IsRun(states, actions) && j < k <= |actions| && Current(states[j + 1], turn)
    ensures Current(states[k], turn) <==> !Interrupted(actions, j, k)
  {
    if j + 1 < k {
      CurrentUntilInterrupted(states, actions, turn, j, k - 1);
      StaysPast(states, actions, j + 1, k - 1, turn);
      assert Step(states[k - 1], actions[k - 1], states[k]);
      OneLater(actions, j, k - 1);
    }
  }

  lemma OneLater(actions: seq<Action>, j: nat, k: nat)
    requires j < k < |actions|
    ensures Interrupted(actions, j, k + 1) <==> Interrupted(actions, j, k) || actions[k].Begin? || actions[k].Cancel?
  {
    if Interrupted(actions, j, k) {
      var i :| j < i < k && i < |actions| && (actions[i].Begin? || actions[i].Cancel?);
      assert j < i < k + 1;
    }
  }

  /** From its check to its send, the speaker of a turn holds one chunk, whatever the others do. */
  lemma {:induction false} SpeakerWaits(states: seq<State>, actions: seq<Action>, turn: nat, j: nat, k: nat)
    requires IsRun(states, actions) && j < k <= |actions|
    requires turn in states[j].speakers && actions[j] == PassTurn(turn)
    requires forall i | j < i < k :: actions[i] != Send(turn)
    ensures turn in states[k].speakers && states[k].speakers[turn] == Checked(states[j].speakers[turn].pcm)
  {
    assert Step(states[k - 1], actions[k - 1], states[k]);
    if j + 1 < k {
      SpeakerWaits(states, actions, turn, j, k - 1);
    }
  }

  /**
    The exact condition for one call of publishAudio, whatever happens between its two steps:
    if the queue has room, the chunk is queued, and it is late exactly if a turn began or an
    interruption came between the check and the send.
   */
  lemma LateIffInterrupted(states: seq<State>, actions: seq<Action>, turn: nat, j: nat, k: nat)
    requires IsRun(states, actions) && OneCall(actions, turn, j, k)
    ensures turn in states[j].speakers
    ensures states[k + 1].log ==
              if |states[k].log| - states[k].taken < AUDIO_BUFFER
              then states[k].log + [Entry(turn, states[j].speakers[turn].pcm, !Interrupted(actions, j, k))]
              else states[k].log
  {
    assert Step(states[j], actions[j], states[j + 1]);
    SpeakerWaits(states, actions, turn, j, k);
    CurrentUntilInterrupted(states, actions, turn, j, k);
    assert Step(states[k], actions[k], states[k + 1]);
  }

  /** Without an interruption in between, and whatever other steps are, a publication is never late. */
  lemma UndisturbedPublish(states: seq<State>, actions: seq<Action>, turn: nat, j: nat, k: nat)
    requires IsRun(states, actions) && OneCall(actions, turn, j, k) && !Interrupted(actions, j, k)
    ensures Late(states[k + 1].log, turn) == Late(states[k].log, turn)
    ensures |states[k].log| - states[k].taken < AUDIO_BUFFER ==>
              |states[k + 1].log| == |states[k].log| + 1 && states[k + 1].log[|states[k].log|].current
  {
    LateIffInterrupted(states, actions, turn, j, k);
    if |states[k].log| - states[k].taken < AUDIO_BUFFER {
      LateSnoc(states[k].log, Entry(turn, states[j].speakers[turn].pcm, true), turn);
    }
  }

  /** Every send has a check of its own. */
  lemma {:induction false} CheckBefore(states: seq<State>, actions: seq<Action>, turn: nat, k: nat) returns (j: nat)
    requires IsRun(states, actions) && k < |states| && Waiting(states[k], turn)
    ensures j < k && actions[j] == PassTurn(turn) && forall i | j < i < k :: actions[i] != Send(turn)
  {
    assert k > 0;
    assert Step(states[k - 1], actions[k - 1], states[k]);
    if actions[k - 1] == PassTurn(turn) {
      j := k - 1;
    } else {
      j := CheckBefore(states, actions, turn, k - 1);
    }
  }

  /** A call of publishAudio queued its chunk although it was interrupted between check and send. */
  ghost predicate LateCall(states: seq<State>, actions: seq<Action>, turn: nat, j: nat, k: nat)
    requires |states| == |actions| + 1
  {
    OneCall(actions, turn, j, k) && states[k + 1].log != states[k].log && Interrupted(actions, j, k)
  }

  /** There is such a call among the first n steps. */
  ghost predicate HasLateCall(states: seq<State>, actions: seq<Action>, turn: nat, n: nat)
    requires |states| == |actions| + 1
  {
    exists j: nat, k: nat :: k < n && LateCall(states, actions, turn, j, k)
  }

  lemma OneMoreStep(states: seq<State>, actions: seq<Action>, turn: nat, n: nat)
    requires |states| == |actions| + 1
    ensures HasLateCall(states, actions, turn, n + 1)
            <==> HasLateCall(states, actions, turn, n) || exists j: nat :: LateCall(states, actions, turn, j, n)
  {
    hide LateCall;
    if HasLateCall(states, actions, turn, n) {
      var j: nat, k: nat :| k < n && LateCall(states, actions, turn, j, k);
      assert k < n + 1;
    }
  }

  /** A run has a late chunk of a turn exactly if it has such a call. */
  lemma {:induction false} LateChunkIff(states: seq<State>, actions: seq<Action>, n: nat, turn: nat)
    requires IsRun(states, actions) && n < |states|
    ensures Late(states[n].log, turn) > 0 <==> HasLateCall(states, actions, turn, n)
  {
    if n == 0 {
      assert Init(states[0]);
    } else {
      hide HasLateCall, LateCall, Late, IsRun;
      LateChunkIff(states, actions, n - 1, turn);
      LateStep(states, actions, n - 1, turn);
      OneMoreStep(states, actions, turn, n - 1);
    }
  }

  lemma LateStep(states: seq<State>, actions: seq<Action>, k: nat, turn: nat)
    requires IsRun(states, actions) && k < |actions|
    ensures Late(states[k + 1].log, turn) > Late(states[k].log, turn)
            <==> exists j: nat :: LateCall(states, actions, turn, j, k)
    ensures Late(states[k + 1].log, turn) >= Late(states[k].log, turn)
  {
    var s, s' := states[k], states[k + 1];
    assert Step(s, actions[k], s');
    if actions[k] == Send(turn) {
      var j := CheckBefore(states, actions, turn, k);
      LateIffInterrupted(states, actions, turn, j, k);
      if s'.log != s.log {
        LateSnoc(s.log, Entry(turn, states[j].speakers[turn].pcm, !Interrupted(actions, j, k)), turn);
        forall i: nat | LateCall(states, actions, turn, i, k) ensures Interrupted(actions, j, k) {
          LateIffInterrupted(states, actions, turn, i, k);
        }
        assert Interrupted(actions, j, k) ==> LateCall(states, actions, turn, j, k);
      }
    } else if s'.log != s.log {
      LateSnoc(s.log, Entry(actions[k].turn, s.speakers[actions[k].turn].pcm, Current(s, actions[k].turn)), turn);
    }
  }

  /** A turn that was current and stopped being current never becomes current again. */
  lemma NeverCurrentAgain(states: seq<State>, actions: seq<Action>, i: nat, j: nat, k: nat, turn: nat)
    requires IsRun(states, actions) && i <= j <= k < |states|
    requires Current(states[i], turn) && !Current(states[j], turn)
    ensures !Current(states[k], turn)
  {
    StaysPast(states, actions, i, j, turn);
    StaysPast(states, actions, j, k, turn);
  }

  /** A new turn gets an id no earlier state had. */
  lemma BeginIsNew(states: seq<State>, actions: seq<Action>, i: nat, j: nat)
    requires IsRun(states, actions) && i <= j < |actions| && actions[j] == Begin
    ensures states[j + 1].turnID > states[i].turnID && Current(states[j + 1], states[j + 1].turnID)
  {
    StaysPast(states, actions, i, j, 0);
    assert Step(states[j], actions[j], states[j + 1]);
  }

  // ---------- what is heard after a barge-in ----------

  function Queue(s: State): seq<Entry>
    requires s.taken <= |s.log|
  {
    s.log[s.taken..]
  }

  /** How many of the entries belong to a turn. */
  function CountOf(entries: seq<Entry>, turn: nat): nat {
    if entries == [] then 0
    else CountOf(entries[..|entries| - 1], turn) + if entries[|entries| - 1].turn == turn then 1 else 0
  }

  /** From a state where the turn is past on, only late chunks of it are added to the log. */
  lemma {:induction false} AddedAreLate(states: seq<State>, actions: seq<Action>, j: nat, k: nat, turn: nat)
    requires IsRun(states, actions) && j <= k < |states|
    requires turn <= states[j].turnID && !Current(states[j], turn)
    ensures |states[j].log| <= |states[k].log|
    ensures CountOf(states[k].log[|states[j].log|..], turn) + Late(states[j].log, turn) == Late(states[k].log, turn)
  {
    var n := |states[j].log|;
    if j == k {
      assert states[k].log[n..] == [];
    } else {
      AddedAreLate(states, actions, j, k - 1, turn);
      StaysPast(states, actions, j, k - 1, turn);
      AddedStep(states[k - 1], actions[k - 1], states[k], n, turn);
    }
  }

  lemma AddedStep(s: State, a: Action, s': State, n: nat, turn: nat)
    requires Step(s, a, s') && n <= |s.log| && !Current(s, turn)
    ensures n <= |s'.log|
    ensures CountOf(s'.log[n..], turn) + Late(s.log, turn) == CountOf(s.log[n..], turn) + Late(s'.log, turn)
  {
    hide CountOf, Late;
    if a.Send? && s'.log != s.log {
      var e := Entry(a.turn, s.speakers[a.turn].pcm, Current(s, a.turn));
      LateSnoc(s.log, e, turn);
      assert s'.log[n..] == s.log[n..] + [e];
      CountSnoc(s.log[n..], e, turn);
    }
  }

  lemma CountSnoc(entries: seq<Entry>, e: Entry, turn: nat)
    ensures CountOf(entries + [e], turn) == CountOf(entries, turn) + if e.turn == turn then 1 else 0
  {
    assert (entries + [e])[..|entries|] == entries;
  }

  lemma {:induction false} CountOfSuffix(entries: seq<Entry>, from: nat, turn: nat)
    requires from <= |entries|
    ensures CountOf(entries[from..], turn) <= CountOf(entries, turn)
    decreases |entries|
  {
    if from < |entries| {
      var init := entries[..|entries| - 1];
      CountOfSuffix(init, from, turn);
      assert entries[from..][..|entries| - from - 1] == init[from..];
    }
  }

  lemma {:induction false} TakenGrows(states: seq<State>, actions: seq<Action>, j: nat, k: nat)
    requires IsRun(states, actions) && j <= k < |states|
    ensures states[j].taken <= states[k].taken
  {
    if j < k {
      TakenGrows(states, actions, j, k - 1);
      assert Step(states[k - 1], actions[k - 1], states[k]);
    }
  }

  /**
    After an interruption has drained the queue, the queue never again holds more than one
    chunk of the interrupted turn, however turns, speakers and the player interleave.
   */
  lemma BargeInBound(states: seq<State>, actions: seq<Action>, j: nat, k: nat, turn: nat)
    requires IsRun(states, actions) && j <= k < |states|
    requires turn <= states[j].turnID && !Current(states[j], turn)
    requires states[j].taken == |states[j].log|
    ensures states[k].taken <= |states[k].log| && CountOf(Queue(states[k]), turn) <= 1
  {
    RunInv(states, actions, k);
    AddedAreLate(states, actions, j, k, turn);
    TakenGrows(states, actions, j, k);
    var n := |states[j].log|;
    var added := states[k].log[n..];
    assert Late(states[k].log, turn) <= 1 by {
      AtMostOneLateChunk(states, actions, k, turn);
    }
    CountOfSuffix(added, states[k].taken - n, turn);
    assert added[states[k].taken - n..] == Queue(states[k]);
  }

  // ---------- calls, closing and the player ----------

  function Speaking(s: State, turn: nat): nat { if turn in s.speakers then 1 else 0 }

  function CallsBegun(actions: seq<Action>, turn: nat): nat {
    if actions == [] then 0
    else
      var a := actions[|actions| - 1];
      CallsBegun(actions[..|actions| - 1], turn) + if a.PassOpen? && a.turn == turn then 1 else 0
  }

  function CallsEnded(actions: seq<Action>, turn: nat): nat {
    if actions == [] then 0
    else
      var a := actions[|actions| - 1];
      CallsEnded(actions[..|actions| - 1], turn) + if (a.Send? || a.Refuse?) && a.turn == turn then 1 else 0
  }

  function AudioTaken(actions: seq<Action>): nat {
    if actions == [] then 0
    else AudioTaken(actions[..|actions| - 1]) + if actions[|actions| - 1].TakeAudio? then 1 else 0
  }

  /** In every run each call of publishAudio ends with its send or its refusal, and the queue is left in order. */
  lemma {:induction false} CallsAreClosed(states: seq<State>, actions: seq<Action>, k: nat, turn: nat)
    requires IsRun(states, actions) && k < |states|
    ensures CallsBegun(actions[..k], turn) == CallsEnded(actions[..k], turn) + Speaking(states[k], turn)
    ensures states[k].taken == AudioTaken(actions[..k])
  {
    if k > 0 {
      CallsAreClosed(states, actions, k - 1, turn);
      assert actions[..k][..k - 1] == actions[..k - 1];
      assert Step(states[k - 1], actions[k - 1], states[k]);
      hide Step, Speaking;
      CallStep(states[k - 1], actions[k - 1], states[k], turn);
    }
  }

  lemma CallStep(s: State, a: Action, s': State, turn: nat)
    requires Step(s, a, s')
    ensures Speaking(s', turn) + (if (a.Send? || a.Refuse?) && a.turn == turn then 1 else 0)
            == Speaking(s, turn) + if a.PassOpen? && a.turn == turn then 1 else 0
    ensures s'.taken == s.taken + if a.TakeAudio? then 1 else 0
  {
  }

  ghost predicate Possible(s: State, a: Action) { exists s' :: Step(s, a, s') }

  /** A call under way goes on: it passes the test of the turn exactly if that is current, and then sends. */
  lemma CallGoesOn(s: State, turn: nat)
    requires turn in s.speakers
    ensures Possible(s, Send(turn)) <==> s.speakers[turn].Checked?
    ensures Possible(s, PassTurn(turn)) <==> s.speakers[turn].Open? && Current(s, turn)
    ensures Possible(s, Refuse(turn)) <==> s.speakers[turn].Open? && !Current(s, turn)
  {
    var pcm := s.speakers[turn].pcm;
    if s.speakers[turn].Checked? {
      assert Step(s, Send(turn), s.(
        speakers := s.speakers - {turn},
        log := if |s.log| - s.taken < AUDIO_BUFFER then s.log + [Entry(turn, pcm, Current(s, turn))] else s.log));
    } else if Current(s, turn) {
      assert Step(s, PassTurn(turn), s.(speakers := s.speakers[turn := Checked(pcm)]));
    } else {
      assert Step(s, Refuse(turn), s.(speakers := s.speakers - {turn}));
    }
  }

  /** From a closed state on, only the call under way can add a chunk of a turn. */
  lemma {:induction false} ClosedAdds(states: seq<State>, actions: seq<Action>, j: nat, k: nat, turn: nat)
    requires IsRun(states, actions) && j <= k < |states| && states[j].closed
    ensures states[k].closed && |states[j].log| <= |states[k].log|
    ensures CountOf(states[k].log[|states[j].log|..], turn) + Speaking(states[k], turn) <= Speaking(states[j], turn)
  {
    var n := |states[j].log|;
    if j == k {
      assert states[k].log[n..] == [];
    } else {
      ClosedAdds(states, actions, j, k - 1, turn);
      assert Step(states[k - 1], actions[k - 1], states[k]);
      ClosedStep(states[k - 1], actions[k - 1], states[k], n, turn);
    }
  }

  lemma ClosedStep(s: State, a: Action, s': State, n: nat, turn: nat)
    requires Step(s, a, s') && n <= |s.log| && s.closed
    ensures s'.closed && n <= |s'.log|
    ensures CountOf(s'.log[n..], turn) + Speaking(s', turn) <= CountOf(s.log[n..], turn) + Speaking(s, turn)
  {
    hide CountOf;
    if a.Send? && s'.log != s.log {
      var e := Entry(a.turn, s.speakers[a.turn].pcm, Current(s, a.turn));
      assert s'.log[n..] == s.log[n..] + [e];
      CountSnoc(s.log[n..], e, turn);
    }
  }

  /** After closing at most one more chunk of a turn is queued, and none without a call under way. */
  lemma CloseEndsAudio(states: seq<State>, actions: seq<Action>, j: nat, k: nat, turn: nat)
    requires IsRun(states, actions) && j < k < |states| && actions[j] == Close
    ensures |states[j].log| <= |states[k].log|
    ensures CountOf(states[k].log[|states[j].log|..], turn) <= Speaking(states[j], turn)
  {
    assert Step(states[j], actions[j], states[j + 1]);
    ClosedAdds(states, actions, j + 1, k, turn);
  }
}
