/**
  The write loop of the Scribe client (pkg/model/elevenlabs/realtime_stt.go): passes audio on and
  ends an utterance with a commit after enough silence.
 */
module SilenceCommit {
  import opened Wrappers
  import opened ByteStrings

  /** 800 ms in the unit of the clock. */
  const COMMIT_SILENCE_FOR := 800_000_000

  /** A chunk of audio and what the clock shows when it is handled. */
  datatype Chunk = Chunk(payload: Bytes, at: int)

  datatype Frame = Audio(payload: Bytes) | Commit

  /** The variables of the loop. */
  datatype Ear = Ear(speaking: bool, silenceSince: Option<int>)

  const DEAF := Ear(false, None)

  /** What one chunk changes, and whether silence commits at it; loud is the RMS threshold test. */
  function Heard(loud: Bytes -> bool, ear: Ear, c: Chunk): (Ear, bool) {
    if c.payload == [] then (ear, false)
    else if loud(c.payload) then (Ear(true, None), false)
    else if !ear.speaking then (ear, false)
    else match ear.silenceSince
      case None => (Ear(true, Some(c.at)), false)
      case Some(t) => if c.at - t >= COMMIT_SILENCE_FOR then (DEAF, true) else (ear, false)
  }

  function After(loud: Bytes -> bool, chunks: seq<Chunk>, n: nat): Ear
    requires n <= |chunks|
  {
    if n == 0 then DEAF else Heard(loud, After(loud, chunks, n - 1), chunks[n - 1]).0
  }

  predicate CommitsAt(loud: Bytes -> bool, chunks: seq<Chunk>, k: nat)
    requires k < |chunks|
  {
    Heard(loud, After(loud, chunks, k), chunks[k]).1
  }

  /** The frames for one chunk, and for the first n chunks. */
  function FramesAt(loud: Bytes -> bool, chunks: seq<Chunk>, k: nat): seq<Frame>
    requires k < |chunks|
  {
    if chunks[k].payload == [] then []
    else [Audio(chunks[k].payload)] + if CommitsAt(loud, chunks, k) then [Commit] else []
  }

  function Frames(loud: Bytes -> bool, chunks: seq<Chunk>, n: nat): seq<Frame>
    requires n <= |chunks|
  {
    if n == 0 then [] else Frames(loud, chunks, n - 1) + FramesAt(loud, chunks, n - 1)
  }

  /** The connection: it takes a number of frames and then fails. */
  class Socket {
    var sent: seq<Frame>
    const room: nat

    constructor (room: nat)
      ensures sent == [] && this.room == room
    {
      sent := [];
      this.room := room;
    }

    method Write(frame: Frame) returns (ok: bool)
      modifies this
      ensures ok <==> |old(sent)| < room
      ensures sent == if ok then old(sent) + [frame] else old(sent)
    {
      ok := |sent| < room;
      if ok {
        sent := sent + [frame];
      }
    }
  }

  /** What a fresh socket holds after being handed these frames until the first failure. */
  predicate Handed(sent: seq<Frame>, room: nat, frames: seq<Frame>, ok: bool) {
    && (ok <==> |frames| <= room)
    && sent == if ok then frames else frames[..room]
  }

  /**
    The loop; when it is cancelled instead of closed, it has handled the chunks so far. Closing the
    input commits once more, if the connection has held until then.
   */
  method WriteLoop(loud: Bytes -> bool, socket: Socket, chunks: seq<Chunk>, closed: bool) returns (ok: bool)
    requires socket.sent == []
    modifies socket
    ensures var frames := Frames(loud, chunks, |chunks|);
            if |frames| > socket.room || (closed && |frames| == socket.room)
            then !ok && socket.sent == frames[..socket.room]
            else ok && socket.sent == if closed then frames + [Commit] else frames
  {
    hide FramesAt;
    var ear := DEAF;
    for n := 0 to |chunks|
      invariant ear == After(loud, chunks, n)
      invariant Handed(socket.sent, socket.room, Frames(loud, chunks, n), true)
    {
      ok, ear := WriteChunk(loud, socket, ear, chunks, n);
      if !ok {
        FramesGrow(loud, chunks, n + 1);
        return;
      }
    }
    ok := true;
    if closed {
      ok := socket.Write(Commit);
    }
  }

  lemma {:induction false} FramesGrow(loud: Bytes -> bool, chunks: seq<Chunk>, n: nat)
    requires n <= |chunks|
    ensures Frames(loud, chunks, n) <= Frames(loud, chunks, |chunks|)
    decreases |chunks| - n
  {
    hide FramesAt;
    if n < |chunks| {
      FramesGrow(loud, chunks, n + 1);
    }
  }

  /** One round of the loop. */
  method WriteChunk(loud: Bytes -> bool, socket: Socket, was: Ear, chunks: seq<Chunk>, n: nat)
    returns (ok: bool, ear: Ear)
    requires n < |chunks| && was == After(loud, chunks, n)
    requires Handed(socket.sent, socket.room, Frames(loud, chunks, n), true)
    modifies socket
    ensures Handed(socket.sent, socket.room, Frames(loud, chunks, n + 1), ok)
    ensures ok ==> ear == After(loud, chunks, n + 1)
  {
    var c := chunks[n];
    ear, ok := was, true;
    if |c.payload| == 0 {
      return;
    }
    ok := socket.Write(Audio(c.payload));
    if !ok {
      return;
    }
    if loud(c.payload) {
      ear := Ear(true, None);
      return;
    }
    if !ear.speaking {
      return;
    }
    match ear.silenceSince
    case None =>
      ear := ear.(silenceSince := Some(c.at));
    case Some(t) =>
      if c.at - t >= COMMIT_SILENCE_FOR {
        ok := socket.Write(Commit);
        ear := DEAF;
      }
  }

  // ---------- the audio ----------

  function AudioOf(frames: seq<Frame>): seq<Bytes> {
    if frames == [] then []
    else (match frames[0] case Audio(p) => [p] case Commit => []) + AudioOf(frames[1..])
  }

  function Payloads(chunks: seq<Chunk>, n: nat): seq<Bytes>
    requires n <= |chunks|
  {
    if n == 0 then []
    else Payloads(chunks, n - 1) + if chunks[n - 1].payload == [] then [] else [chunks[n - 1].payload]
  }

  lemma {:induction false} AudioOfAppend(a: seq<Frame>, b: seq<Frame>)
    ensures AudioOf(a + b) == AudioOf(a) + AudioOf(b)
  {
    if a == [] {
      assert a + b == b;
    } else {
      var head := match a[0] case Audio(p) => [p] case Commit => [];
      assert (a + b)[0] == a[0] && (a + b)[1..] == a[1..] + b;
      assert AudioOf(a + b) == head + AudioOf(a[1..] + b);
      AudioOfAppend(a[1..], b);
      Assoc(head, AudioOf(a[1..]), AudioOf(b));
    }
  }

  /** Every non-empty chunk is sent once, unchanged and in order, whatever the commits between them. */
  lemma {:induction false} AudioConserved(loud: Bytes -> bool, chunks: seq<Chunk>, n: nat)
    requires n <= |chunks|
    ensures AudioOf(Frames(loud, chunks, n)) == Payloads(chunks, n)
  {
    hide FramesAt, AudioOf;
    if n == 0 {
      AudioOfNone();
    } else {
      AudioConserved(loud, chunks, n - 1);
      AudioOfAppend(Frames(loud, chunks, n - 1), FramesAt(loud, chunks, n - 1));
      AudioAt(loud, chunks, n - 1);
    }
  }

  lemma AudioAt(loud: Bytes -> bool, chunks: seq<Chunk>, k: nat)
    requires k < |chunks|
    ensures AudioOf(FramesAt(loud, chunks, k)) == if chunks[k].payload == [] then [] else [chunks[k].payload]
  {
    hide CommitsAt;
    if chunks[k].payload != [] {
      var rest := if CommitsAt(loud, chunks, k) then [Commit] else [];
      assert FramesAt(loud, chunks, k)[1..] == rest;
      assert [Commit][1..] == [] && AudioOf(rest) == [];
    }
  }

  lemma AudioOfNone()
    ensures AudioOf([]) == []
  {
  }

  // ---------- when silence commits ----------

  predicate IsLoud(loud: Bytes -> bool, c: Chunk) { c.payload != [] && loud(c.payload) }

  predicate IsQuiet(loud: Bytes -> bool, c: Chunk) { c.payload != [] && !loud(c.payload) }

  /** l is the last loud chunk before n. */
  predicate LoudLast(loud: Bytes -> bool, chunks: seq<Chunk>, l: nat, n: nat)
    requires n <= |chunks|
  {
    l < n && IsLoud(loud, chunks[l]) && forall i | l < i < n :: !IsLoud(loud, chunks[i])
  }

  /** f is the first quiet chunk after l. */
  predicate QuietFirst(loud: Bytes -> bool, chunks: seq<Chunk>, l: nat, f: nat, n: nat)
    requires n <= |chunks|
  {
    l < f < n && IsQuiet(loud, chunks[f]) && forall i | l < i < f :: !IsQuiet(loud, chunks[i])
  }

  /** No quiet chunk between f and n comes long enough after f. */
  predicate NoneLong(loud: Bytes -> bool, chunks: seq<Chunk>, f: nat, n: nat)
    requires f < n <= |chunks|
  {
    forall j | f < j < n && IsQuiet(loud, chunks[j]) :: chunks[j].at - chunks[f].at < COMMIT_SILENCE_FOR
  }

  /** The silence after loud chunk l, first heard at f, has not lasted long enough before n. */
  predicate Counting(loud: Bytes -> bool, chunks: seq<Chunk>, l: nat, f: nat, n: nat)
    requires n <= |chunks|
  {
    LoudLast(loud, chunks, l, n) && QuietFirst(loud, chunks, l, f, n) && NoneLong(loud, chunks, f, n)
  }

  /** The silence is long enough at k for the first time. */
  predicate LongSilence(loud: Bytes -> bool, chunks: seq<Chunk>, l: nat, f: nat, k: nat)
    requires k < |chunks|
  {
    && Counting(loud, chunks, l, f, k)
    && IsQuiet(loud, chunks[k])
    && chunks[k].at - chunks[f].at >= COMMIT_SILENCE_FOR
  }

  /** Nothing was loud, or the last loud chunk has had its long silence. */
  ghost predicate Idle(loud: Bytes -> bool, chunks: seq<Chunk>, n: nat)
    requires n <= |chunks|
  {
    || (forall i | 0 <= i < n :: !IsLoud(loud, chunks[i]))
    || exists l: nat, f: nat, k: nat ::
         k < n && LongSilence(loud, chunks, l, f, k) && LoudLast(loud, chunks, l, n)
  }

  ghost predicate Explained(loud: Bytes -> bool, chunks: seq<Chunk>, n: nat, ear: Ear)
    requires n <= |chunks|
  {
    if !ear.speaking then ear.silenceSince == None && Idle(loud, chunks, n)
    else match ear.silenceSince
      case None =>
        exists l: nat :: LoudLast(loud, chunks, l, n) && forall i | l < i < n :: !IsQuiet(loud, chunks[i])
      case Some(t) =>
        exists l: nat, f: nat :: Counting(loud, chunks, l, f, n) && chunks[f].at == t
  }

  lemma {:induction false} StateExplained(loud: Bytes -> bool, chunks: seq<Chunk>, n: nat)
    requires n <= |chunks|
    ensures Explained(loud, chunks, n, After(loud, chunks, n))
  {
    if n > 0 {
      StateExplained(loud, chunks, n - 1);
      StepExplained(loud, chunks, n - 1, After(loud, chunks, n - 1));
    }
  }

  lemma StepExplained(loud: Bytes -> bool, chunks: seq<Chunk>, k: nat, ear: Ear)
    requires k < |chunks| && Explained(loud, chunks, k, ear)
    ensures Explained(loud, chunks, k + 1, Heard(loud, ear, chunks[k]).0)
  {
    var c := chunks[k];
    if IsLoud(loud, c) {
      assert LoudLast(loud, chunks, k, k + 1);
    } else if !ear.speaking {
      if exists i :: 0 <= i < k && IsLoud(loud, chunks[i]) {
        var l: nat, f: nat, j: nat :|
          j < k && LongSilence(loud, chunks, l, f, j) && LoudLast(loud, chunks, l, k);
        assert LoudLast(loud, chunks, l, k + 1);
      }
    } else if ear.silenceSince.None? {
      AwaitingExplained(loud, chunks, k, ear);
    } else {
      CountingExplained(loud, chunks, k, ear);
    }
  }

  lemma AwaitingExplained(loud: Bytes -> bool, chunks: seq<Chunk>, k: nat, ear: Ear)
    requires k < |chunks| && Explained(loud, chunks, k, ear) && !IsLoud(loud, chunks[k])
    requires ear.speaking && ear.silenceSince.None?
    ensures Explained(loud, chunks, k + 1, Heard(loud, ear, chunks[k]).0)
  {
    var l: nat :| LoudLast(loud, chunks, l, k) && forall i | l < i < k :: !IsQuiet(loud, chunks[i]);
    assert LoudLast(loud, chunks, l, k + 1);
    if IsQuiet(loud, chunks[k]) {
      assert Counting(loud, chunks, l, k, k + 1);
    }
  }

  lemma CountingExplained(loud: Bytes -> bool, chunks: seq<Chunk>, k: nat, ear: Ear)
    requires k < |chunks| && Explained(loud, chunks, k, ear) && !IsLoud(loud, chunks[k])
    requires ear.speaking && ear.silenceSince.Some?
    ensures Explained(loud, chunks, k + 1, Heard(loud, ear, chunks[k]).0)
  {
    var c := chunks[k];
    var l: nat, f: nat :| Counting(loud, chunks, l, f, k) && chunks[f].at == ear.silenceSince.value;
    assert LoudLast(loud, chunks, l, k + 1);
    if IsQuiet(loud, c) && c.at - chunks[f].at >= COMMIT_SILENCE_FOR {
      assert LongSilence(loud, chunks, l, f, k);
    } else {
      assert Counting(loud, chunks, l, f, k + 1);
    }
  }

  /** The last loud chunk and the first quiet one after it are unique. */
  lemma OneSilence(loud: Bytes -> bool, chunks: seq<Chunk>, l: nat, f: nat, l': nat, f': nat, n: nat)
    requires n <= |chunks|
    requires LoudLast(loud, chunks, l, n) && LoudLast(loud, chunks, l', n)
    requires QuietFirst(loud, chunks, l, f, n) && QuietFirst(loud, chunks, l', f', n)
    ensures l == l' && f == f'
  {
  }

  /**
    The detector against its history: silence commits at chunk k exactly when there are a last loud
    chunk l and a first quiet chunk f after it such that k is quiet, comes long enough after f, and
    no quiet chunk between them did.
   */
  lemma CommitIffLongSilence(loud: Bytes -> bool, chunks: seq<Chunk>, k: nat)
    requires k < |chunks|
    ensures CommitsAt(loud, chunks, k)
            <==> exists l: nat, f: nat :: LongSilence(loud, chunks, l, f, k)
  {
    var ear := After(loud, chunks, k);
    StateExplained(loud, chunks, k);
    forall l: nat, f: nat | LongSilence(loud, chunks, l, f, k)
      ensures CommitsAt(loud, chunks, k)
    {
      SilenceIsCounted(loud, chunks, l, f, k, ear);
    }
    if CommitsAt(loud, chunks, k) {
      var l: nat, f: nat :| Counting(loud, chunks, l, f, k) && chunks[f].at == ear.silenceSince.value;
      assert LongSilence(loud, chunks, l, f, k);
    }
  }

  lemma SilenceIsCounted(loud: Bytes -> bool, chunks: seq<Chunk>, l: nat, f: nat, n: nat, ear: Ear)
    requires n <= |chunks| && Explained(loud, chunks, n, ear) && Counting(loud, chunks, l, f, n)
    ensures ear == Ear(true, Some(chunks[f].at))
  {
    if !ear.speaking {
      assert IsLoud(loud, chunks[l]);
      var l': nat, f': nat, k: nat :|
        k < n && LongSilence(loud, chunks, l', f', k) && LoudLast(loud, chunks, l', n);
      OneSilence(loud, chunks, l, f, l', f', n);
    } else if ear.silenceSince.Some? {
      var l': nat, f': nat :| Counting(loud, chunks, l', f', n) && chunks[f'].at == ear.silenceSince.value;
      OneSilence(loud, chunks, l, f, l', f', n);
    }
  }

  /**
    What is sent, by the history alone: nothing at first and nothing for an empty chunk; any other
    chunk is sent as audio, with a commit behind it exactly if it ends a long silence.
   */
  lemma FramesOfHistory(loud: Bytes -> bool, chunks: seq<Chunk>, k: nat)
    requires k < |chunks|
    ensures Frames(loud, chunks, 0) == []
    ensures var before, audio := Frames(loud, chunks, k), Audio(chunks[k].payload);
            Frames(loud, chunks, k + 1) ==
            if chunks[k].payload == [] then before
            else if exists l: nat, f: nat :: LongSilence(loud, chunks, l, f, k) then before + [audio] + [Commit]
            else before + [audio]
  {
    CommitIffLongSilence(loud, chunks, k);
    hide LongSilence, CommitsAt;
    var before, audio := Frames(loud, chunks, k), Audio(chunks[k].payload);
    Assoc(before, [audio], [Commit]);
    assert [audio] + [] == [audio] && before + [] == before;
  }

  /** Between two silence commits somebody has spoken. */
  lemma SpeechBetweenCommits(loud: Bytes -> bool, chunks: seq<Chunk>, j: nat, k: nat)
    requires j < k < |chunks| && CommitsAt(loud, chunks, j) && CommitsAt(loud, chunks, k)
    ensures exists l :: j < l < k && IsLoud(loud, chunks[l])
  {
    CommitIffLongSilence(loud, chunks, j);
    CommitIffLongSilence(loud, chunks, k);
    var l: nat, f: nat :| LongSilence(loud, chunks, l, f, j);
    var l': nat, f': nat :| LongSilence(loud, chunks, l', f', k);
    if l' < j {
      OneSilence(loud, chunks, l, f, l', f', j);
    }
    assert j < l' < k && IsLoud(loud, chunks[l']);
  }
}
