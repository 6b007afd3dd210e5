/**
  AudioNormalizer of pkg/model/mistral/audio.go: a streaming remover of RIFF/WAVE headers.
  However the byte stream is cut, the output is what one look at the whole stream gives.
 */
module WavHeader {
  import opened Wrappers
  import opened ByteStrings
  import TtsChannels

  const RIFF: Bytes := [82, 73, 70, 70]
  const WAVE: Bytes := [87, 65, 86, 69]
  const DATA: Bytes := [100, 97, 116, 97]

  /** A little-endian number; of four bytes, it is binary.LittleEndian.Uint32. */
  function LittleEndian(b: Bytes): nat {
    if b == [] then 0 else b[0] as nat + 0x100 * LittleEndian(b[1..])
  }

  /** The end of a chunk rounded up to a word. */
  function WordAligned(n: nat): (r: nat)
    ensures r % 2 == 0
  {
    if n % 2 != 0 then n + 1 else n
  }

  /** Where the payload of the data chunk starts, walking the chunks from pos; sizes are padded to words. */
  function PayloadStart(s: Bytes, pos: nat): (r: Option<nat>)
    ensures r.Some? ==> r.value <= |s|
    decreases |s| - pos
  {
    if pos + 8 > |s| then None
    else if s[pos..pos + 4] == DATA then Some(pos + 8)
    else
      var end := pos + 8 + LittleEndian(s[pos + 4..pos + 8]);
      if end > |s| then None else PayloadStart(s, WordAligned(end))
  }

  /** What the bytes seen so far tell about the stream. */
  datatype Verdict = Undecided | NotWav | Payload(start: nat)

  function Judge(s: Bytes): (v: Verdict)
    ensures v.Payload? ==> v.start <= |s|
  {
    if |s| < 12 then Undecided
    else if s[..4] != RIFF || s[8..12] != WAVE then NotWav
    else match PayloadStart(s, 12)
      case None => Undecided
      case Some(k) => Payload(k)
  }

  /** The whole-stream view: the payload of a WAV stream, and any other stream as it is. */
  function Strip(s: Bytes): Bytes {
    if Judge(s).Payload? then s[Judge(s).start..] else s
  }

  datatype State = State(prefix: Bytes, done: bool)

  const START := State([], false)

  function Pushed(n: State, chunk: Bytes): (State, Bytes) {
    if n.done then (n, chunk)
    else
      var s := n.prefix + chunk;
      if Judge(s).Undecided? then (State(s, false), []) else (State([], true), Strip(s))
  }

  /** The walk over the chunks of a prefix that starts like a WAV file. */
  method FindPayload(prefix: Bytes) returns (r: Option<nat>)
    requires |prefix| >= 12
    ensures r == PayloadStart(prefix, 12)
  {
    var pos := 12;
    while pos + 8 <= |prefix|
      invariant PayloadStart(prefix, 12) == PayloadStart(prefix, pos)
      decreases |prefix| - pos
    {
      var chunkID := prefix[pos..pos + 4];
      var chunkSize := LittleEndian(prefix[pos + 4..pos + 8]);
      var dataStart := pos + 8;
      if chunkID == DATA {
        return Some(dataStart);
      }
      if dataStart + chunkSize > |prefix| {
        return None;
      }
      pos := dataStart + chunkSize;
      if pos % 2 != 0 {
        pos := pos + 1;
      }
    }
    return None;
  }

  class AudioNormalizer {
    var prefix: Bytes
    var done: bool

    function View(): State
      reads this
    {
      State(prefix, done)
    }

    constructor ()
      ensures View() == START
    {
      prefix, done := [], false;
    }

    method Push(chunk: Bytes) returns (out: Bytes)
      modifies this
      ensures (View(), out) == Pushed(old(View()), chunk)
    {
      if done {
        return chunk;
      }
      prefix := prefix + chunk;
      if |prefix| < 12 {
        return [];
      }
      if prefix[..4] != RIFF || prefix[8..12] != WAVE {
        done, out := true, prefix;
        prefix := [];
        return;
      }
      var start := FindPayload(prefix);
      match start
      case None =>
        return [];
      case Some(dataStart) =>
        done, out := true, prefix[dataStart..];
        prefix := [];
    }

    method Flush() returns (out: Bytes)
      modifies this
      ensures out == old(prefix) && prefix == []
      ensures done == (old(done) || old(prefix) != [])
    {
      if |prefix| == 0 {
        return [];
      }
      out := prefix;
      prefix, done := [], true;
    }
  }

  // ---------- cutting does not matter ----------

  lemma {:induction false} PayloadStartExtend(s: Bytes, t: Bytes, pos: nat)
    requires PayloadStart(s, pos).Some?
    ensures PayloadStart(s + t, pos) == PayloadStart(s, pos)
    decreases |s| - pos
  {
    assert (s + t)[pos..pos + 4] == s[pos..pos + 4];
    assert (s + t)[pos + 4..pos + 8] == s[pos + 4..pos + 8];
    if s[pos..pos + 4] != DATA {
      var end := pos + 8 + LittleEndian(s[pos + 4..pos + 8]);
      PayloadStartExtend(s, t, WordAligned(end));
    }
  }

  /** A verdict, once given, stands for every continuation of the stream. */
  lemma JudgeExtend(s: Bytes, t: Bytes)
    requires !Judge(s).Undecided?
    ensures Judge(s + t) == Judge(s)
  {
    assert (s + t)[..4] == s[..4];
    assert (s + t)[8..12] == s[8..12];
    if PayloadStart(s, 12).Some? {
      PayloadStartExtend(s, t, 12);
    }
  }

  lemma StripExtend(s: Bytes, t: Bytes)
    requires !Judge(s).Undecided?
    ensures Strip(s + t) == Strip(s) + t
  {
    JudgeExtend(s, t);
  }

  /** The state and everything emitted after pushing the chunks one by one. */
  function PushAll(chunks: seq<Bytes>): (State, Bytes) {
    if chunks == [] then (START, [])
    else
      var (n, sent) := PushAll(chunks[..|chunks| - 1]);
      var (n', out) := Pushed(n, chunks[|chunks| - 1]);
      (n', sent + out)
  }

  lemma {:induction false} PushAllState(chunks: seq<Bytes>)
    ensures var s := Join(chunks);
            PushAll(chunks) == if Judge(s).Undecided? then (State(s, false), []) else (State([], true), Strip(s))
  {
    if chunks != [] {
      var init, last := chunks[..|chunks| - 1], chunks[|chunks| - 1];
      PushAllState(init);
      assert chunks == init + [last];
      JoinSnoc(init, last);
      if Judge(Join(init)).Undecided? {
        assert PushAll(init) == (State(Join(init), false), []);
        assert [] + Pushed(PushAll(init).0, last).1 == Pushed(PushAll(init).0, last).1;
      } else {
        JudgeExtend(Join(init), last);
        StripExtend(Join(init), last);
      }
    }
  }

  /**
    For every way of cutting a stream, the outputs of Push followed by that of Flush are the
    whole stream without its WAV header, or the untouched stream if it has no complete one.
   */
  lemma {:induction false} CuttingIrrelevant(chunks: seq<Bytes>)
    ensures PushAll(chunks).1 + PushAll(chunks).0.prefix == Strip(Join(chunks))
  {
    PushAllState(chunks);
  }

  // ---------- the header of a real WAV file ----------

  /** A chunk before the data chunk; pad is the byte that fills an odd body up. */
  datatype ChunkFields = ChunkFields(id: Bytes, body: Bytes, pad: byte)

  type Chunk = c: ChunkFields | |c.id| == 4 && c.id != DATA && |c.body| < 0x1_0000_0000
    witness ChunkFields([76, 73, 83, 84], [], 0)

  function PutLittleEndian(n: nat, width: nat): (b: Bytes)
    ensures |b| == width
  {
    if width == 0 then [] else [(n % 0x100) as byte] + PutLittleEndian(n / 0x100, width - 1)
  }

  function Range(width: nat): nat {
    if width == 0 then 1 else 0x100 * Range(width - 1)
  }

  lemma {:induction false} LittleEndianRoundTrip(n: nat, width: nat)
    requires n < Range(width)
    ensures LittleEndian(PutLittleEndian(n, width)) == n
  {
    if width > 0 {
      LittleEndianRoundTrip(n / 0x100, width - 1);
      assert PutLittleEndian(n, width)[1..] == PutLittleEndian(n / 0x100, width - 1);
    }
  }

  lemma RangeOfUint32()
    ensures Range(4) == 0x1_0000_0000
  {
    assert Range(2) == 0x1_0000;
  }

  function PrintChunk(c: Chunk): (r: Bytes)
    ensures |r| == WordAligned(8 + |c.body|)
  {
    (c.id + PutLittleEndian(|c.body|, 4)) + (c.body + if |c.body| % 2 != 0 then [c.pad] else [])
  }

  function PrintChunks(chunks: seq<Chunk>): Bytes {
    if chunks == [] then [] else PrintChunk(chunks[0]) + PrintChunks(chunks[1..])
  }

  lemma {:induction false} WalkChunks(s: Bytes, pos: nat, chunks: seq<Chunk>, rest: Bytes)
    requires pos % 2 == 0 && pos <= |s|
    requires s[pos..] == PrintChunks(chunks) + rest
    requires |rest| >= 8 && rest[..4] == DATA
    ensures PayloadStart(s, pos) == Some(|s| - |rest| + 8)
    decreases |chunks|
  {
    hide PayloadStart, PrintChunk;
    if chunks == [] {
      AtData(s, pos, rest);
    } else {
      var more := PrintChunks(chunks[1..]);
      assert s[pos..] == PrintChunk(chunks[0]) + (more + rest);
      WalkOne(s, pos, chunks[0], more + rest);
      WalkChunks(s, pos + |PrintChunk(chunks[0])|, chunks[1..], rest);
    }
  }

  lemma AtData(s: Bytes, pos: nat, rest: Bytes)
    requires pos <= |s| && s[pos..] == [] + rest && |rest| >= 8 && rest[..4] == DATA
    ensures PayloadStart(s, pos) == Some(|s| - |rest| + 8)
  {
    assert s[pos..] == rest && s[pos..pos + 4] == rest[..4];
  }

  lemma WalkOne(s: Bytes, pos: nat, c: Chunk, tail: Bytes)
    requires pos % 2 == 0 && pos <= |s|
    requires s[pos..] == PrintChunk(c) + tail
    ensures pos + |PrintChunk(c)| <= |s| && s[pos + |PrintChunk(c)|..] == tail
    ensures (pos + |PrintChunk(c)|) % 2 == 0
    ensures PayloadStart(s, pos) == PayloadStart(s, pos + |PrintChunk(c)|)
  {
    ChunkHead(s[pos..], c, tail);
    assert s[pos..pos + 4] == s[pos..][..4] && s[pos + 4..pos + 8] == s[pos..][4..8];
    assert s[pos + |PrintChunk(c)|..] == s[pos..][|PrintChunk(c)|..];
    EvenOffset(pos, 8 + |c.body|);
    OverChunk(s, pos, |PrintChunk(c)|);
  }

  lemma EvenOffset(pos: nat, n: nat)
    requires pos % 2 == 0
    ensures WordAligned(pos + n) == pos + WordAligned(n)
    ensures (pos + WordAligned(n)) % 2 == 0
  {
  }

  lemma OverChunk(s: Bytes, pos: nat, size: nat)
    requires pos + 8 <= |s| && s[pos..pos + 4] != DATA
    requires pos + 8 + LittleEndian(s[pos + 4..pos + 8]) <= |s|
    requires WordAligned(pos + 8 + LittleEndian(s[pos + 4..pos + 8])) == pos + size
    ensures PayloadStart(s, pos) == PayloadStart(s, pos + size)
  {
  }

  lemma ChunkHead(t: Bytes, c: Chunk, tail: Bytes)
    requires t == PrintChunk(c) + tail
    ensures t[..4] == c.id && LittleEndian(t[4..8]) == |c.body| && t[|PrintChunk(c)|..] == tail
  {
    RangeOfUint32();
    LittleEndianRoundTrip(|c.body|, 4);
    assert t[..8] == c.id + PutLittleEndian(|c.body|, 4);
    assert t[..4] == t[..8][..4] && t[4..8] == t[..8][4..];
  }

  /**
    For every RIFF/WAVE file, whatever optional chunks stand before its data chunk and
    whatever its size fields say, what is left is the payload.
   */
  lemma {:induction false} WavPayload(riffSize: Bytes, chunks: seq<Chunk>, dataSize: Bytes, payload: Bytes)
    requires |riffSize| == 4 && |dataSize| == 4
    ensures Strip((RIFF + riffSize + WAVE) + (PrintChunks(chunks) + (DATA + dataSize + payload))) == payload
  {
    var rest := DATA + dataSize + payload;
    assert rest[..4] == DATA && rest[8..] == payload;
    PayloadAfterHead(RIFF + riffSize + WAVE, chunks, rest);
  }

  lemma PayloadAfterHead(head: Bytes, chunks: seq<Chunk>, rest: Bytes)
    requires |head| == 12 && head[..4] == RIFF && head[8..] == WAVE
    requires |rest| >= 8 && rest[..4] == DATA
    ensures Strip(head + (PrintChunks(chunks) + rest)) == rest[8..]
  {
    var s := head + (PrintChunks(chunks) + rest);
    assert s[..4] == head[..4] && s[8..12] == head[8..] && s[12..] == PrintChunks(chunks) + rest;
    WalkChunks(s, 12, chunks, rest);
    assert s[|s| - |rest| + 8..] == rest[8..];
  }

  // ---------- streams that are passed on untouched ----------

  /**
    A stream that does not have RIFF at 0 and WAVE at 8 is passed on untouched, as soon as twelve
    bytes are there, and nothing of it is held back then.
   */
  lemma NotWavUntouched(chunks: seq<Bytes>)
    requires var s := Join(chunks); |s| < 12 || s[..4] != RIFF || s[8..12] != WAVE
    ensures PushAll(chunks).1 + PushAll(chunks).0.prefix == Join(chunks)
    ensures |Join(chunks)| >= 12 ==> PushAll(chunks) == (State([], true), Join(chunks))
  {
    hide PayloadStart;
    PushAllState(chunks);
    assert [] + Join(chunks) == Join(chunks);
  }

  /**
    A RIFF/WAVE stream that ends before the header of its data chunk is complete, behind whole
    optional chunks and inside the header or the body of one more, is held back and then passed on
    untouched by the flush.
   */
  lemma HeaderlessUntouched(chunks: seq<Bytes>, riffSize: Bytes, before: seq<Chunk>, next: Chunk, cut: nat)
    requires |riffSize| == 4 && cut < 8 + |next.body|
    requires Join(chunks) == (RIFF + riffSize + WAVE) + (PrintChunks(before) + PrintChunk(next)[..cut])
    ensures PushAll(chunks) == (State(Join(chunks), false), [])
    ensures PushAll(chunks).1 + PushAll(chunks).0.prefix == Join(chunks)
  {
    hide PrintChunk, PrintChunks, PayloadStart, PushAll, Strip;
    var s := Join(chunks);
    PushAllState(chunks);
    NoPayload(s, RIFF + riffSize + WAVE, before, PrintChunk(next)[..cut]);
    CutChunkNoData(s, |s| - cut, next, cut);
    assert [] + s == s;
  }

  /** The same for a stream that ends inside the eight bytes of the header of the data chunk itself. */
  lemma CutDataHeaderUntouched(chunks: seq<Bytes>, riffSize: Bytes, before: seq<Chunk>, header: Bytes)
    requires |riffSize| == 4 && |header| < 8
    requires Join(chunks) == (RIFF + riffSize + WAVE) + (PrintChunks(before) + header)
    ensures PushAll(chunks) == (State(Join(chunks), false), [])
    ensures PushAll(chunks).1 + PushAll(chunks).0.prefix == Join(chunks)
  {
    hide PrintChunks, PushAll, Strip;
    var s := Join(chunks);
    PushAllState(chunks);
    NoPayload(s, RIFF + riffSize + WAVE, before, header);
    assert [] + s == s;
  }

  /** The walk reaches what follows the optional chunks. */
  lemma NoPayload(s: Bytes, head: Bytes, before: seq<Chunk>, rest: Bytes)
    requires |head| == 12 && head[..4] == RIFF && head[8..] == WAVE
    requires s == head + (PrintChunks(before) + rest)
    ensures |s| >= 12 && s[..4] == RIFF && s[8..12] == WAVE
    ensures |s| - |rest| >= 0 && s[|s| - |rest|..] == rest
    ensures PayloadStart(s, 12) == PayloadStart(s, |s| - |rest|)
  {
    hide PayloadStart;
    assert s[..4] == head[..4] && s[8..12] == head[8..] && s[12..] == PrintChunks(before) + rest;
    WalkAll(s, 12, before, rest);
  }

  lemma {:induction false} WalkAll(s: Bytes, pos: nat, chunks: seq<Chunk>, rest: Bytes)
    requires pos % 2 == 0 && pos <= |s| && s[pos..] == PrintChunks(chunks) + rest
    ensures |s| - |rest| >= pos && s[|s| - |rest|..] == rest
    ensures PayloadStart(s, pos) == PayloadStart(s, |s| - |rest|)
    decreases |chunks|
  {
    hide PayloadStart, PrintChunk;
    if chunks == [] {
      assert [] + rest == rest && |s| - |rest| == pos;
    } else {
      var more := PrintChunks(chunks[1..]);
      assert s[pos..] == PrintChunk(chunks[0]) + (more + rest);
      WalkOne(s, pos, chunks[0], more + rest);
      WalkAll(s, pos + |PrintChunk(chunks[0])|, chunks[1..], rest);
    }
  }

  lemma CutChunkNoData(s: Bytes, pos: nat, c: Chunk, cut: nat)
    requires cut < 8 + |c.body| && pos <= |s| && s[pos..] == PrintChunk(c)[..cut]
    ensures PayloadStart(s, pos) == None
  {
    if pos + 8 <= |s| {
      ChunkHead(PrintChunk(c), c, []);
      assert PrintChunk(c) + [] == PrintChunk(c);
      assert s[pos..pos + 4] == s[pos..][..4] == PrintChunk(c)[..4];
      assert s[pos + 4..pos + 8] == s[pos..][4..8] == PrintChunk(c)[4..8];
    }
  }

  // ---------- 16-bit alignment of what is published ----------

  /** A piece as publishPCM prepares it: format is normalizeTTSFormat, then stereo becomes mono. */
  function Prepared(format: Bytes -> Bytes, chunk: Bytes): Bytes {
    TtsChannels.Normalised(format(chunk))
  }

  function AllPrepared(format: Bytes -> Bytes, chunks: seq<Bytes>): seq<Bytes> {
    if chunks == [] then []
    else AllPrepared(format, chunks[..|chunks| - 1]) + [Prepared(format, chunks[|chunks| - 1])]
  }

  /** The publishPCM closures: an odd piece is held back and put before the next one. */
  function Align(pending: Bytes, audio: Bytes): (r: (Bytes, Bytes)) {
    if audio == [] then (pending, [])
    else if |pending + audio| % 2 != 0 then (pending + audio, [])
    else ([], pending + audio)
  }

  class PcmPublisher {
    var pendingByte: Bytes

    constructor ()
      ensures pendingByte == []
    {
      pendingByte := [];
    }

    /**
      out is what is offered to AudioOut, if it is not empty; accepted and current are what
      PublishAudio and IsCurrentTurn answer then. A refusal is an error only for a current turn.
     */
    method PublishPCM(format: Bytes -> Bytes, chunk: Bytes, accepted: bool, current: bool)
      returns (out: Bytes, ok: bool)
      modifies this
      ensures (pendingByte, out) == Align(old(pendingByte), Prepared(format, chunk))
      ensures ok <==> out == [] || accepted || !current
    {
      var audio := format(chunk);
      audio := TtsChannels.NormalizeTTSChannels(audio);
      if |audio| == 0 {
        return [], true;
      }
      if |pendingByte| > 0 {
        audio := pendingByte + audio;
        pendingByte := [];
      }
      if |audio| % 2 != 0 {
        assert [] + audio == audio;
        pendingByte := pendingByte + audio;
        return [], true;
      }
      if |audio| > 0 && !accepted {
        if !current {
          return audio, true;
        }
        return audio, false;
      }
      return audio, true;
    }
  }

  /** What is held back and what has been offered after preparing and aligning the chunks. */
  function AlignAll(format: Bytes -> Bytes, chunks: seq<Bytes>): (Bytes, seq<Bytes>) {
    if chunks == [] then ([], [])
    else
      var (pending, sent) := AlignAll(format, chunks[..|chunks| - 1]);
      var (pending', out) := Align(pending, Prepared(format, chunks[|chunks| - 1]));
      (pending', sent + [out])
  }

  lemma AlignStep(pending: Bytes, audio: Bytes)
    ensures Align(pending, audio).1 + Align(pending, audio).0 == pending + audio
  {
    assert [] + (pending + audio) == pending + audio == (pending + audio) + [];
    assert audio == [] ==> pending + audio == [] + pending;
  }

  /** No byte of the prepared pieces is lost or moved, and everything offered is a whole number of samples. */
  lemma {:induction false} AlignConserves(format: Bytes -> Bytes, chunks: seq<Bytes>)
    ensures Join(AlignAll(format, chunks).1) + AlignAll(format, chunks).0 == Join(AllPrepared(format, chunks))
    ensures forall i | 0 <= i < |AlignAll(format, chunks).1| :: |AlignAll(format, chunks).1[i]| % 2 == 0
  {
    if chunks != [] {
      hide Prepared, Align;
      var init, audio := chunks[..|chunks| - 1], Prepared(format, chunks[|chunks| - 1]);
      AlignConserves(format, init);
      JoinSnoc(AllPrepared(format, init), audio);
      var (pending, sent) := AlignAll(format, init);
      var (pending', out) := Align(pending, audio);
      JoinSnoc(sent, out);
      AlignStep(pending, audio);
      AlignEven(pending, audio);
      Assoc(Join(sent), out, pending');
      Assoc(Join(sent), pending, audio);
    }
  }

  /** Nothing is held back whenever the bytes so far make whole samples, and an odd number of bytes otherwise. */
  lemma {:induction false} AlignPrompt(format: Bytes -> Bytes, chunks: seq<Bytes>)
    ensures var pending := AlignAll(format, chunks).0;
            if |Join(AllPrepared(format, chunks))| % 2 == 0 then pending == [] else |pending| % 2 == 1
  {
    hide Prepared, Align;
    AlignConserves(format, chunks);
    AlignedEven(AlignAll(format, chunks).1);
    PendingOdd(format, chunks);
  }

  lemma {:induction false} AlignedEven(pieces: seq<Bytes>)
    requires forall i | 0 <= i < |pieces| :: |pieces[i]| % 2 == 0
    ensures |Join(pieces)| % 2 == 0
  {
    if pieces != [] {
      AlignedEven(pieces[1..]);
    }
  }

  lemma {:induction false} PendingOdd(format: Bytes -> Bytes, chunks: seq<Bytes>)
    ensures AlignAll(format, chunks).0 == [] || |AlignAll(format, chunks).0| % 2 == 1
  {
    if chunks != [] {
      hide Prepared;
      PendingOdd(format, chunks[..|chunks| - 1]);
    }
  }

  /** A single piece that comes out of its preparation as whole samples is offered at once. */
  lemma SingleOffered(format: Bytes -> Bytes, chunk: Bytes, pcm: Bytes)
    requires TtsChannels.Normalised(format(chunk)) == pcm && |pcm| % 2 == 0
    ensures AlignAll(format, [chunk]) == ([], [pcm])
  {
    hide TtsChannels.Normalised;
    var none: seq<Bytes> := [];
    assert [chunk][..0] == none;
    assert AlignAll(format, none) == ([], none);
    EvenPasses(pcm);
    assert none + [pcm] == [pcm];
  }

  /**
    Mono sound that arrives as stereo beside a silent channel, in one piece that format leaves
    alone, is offered as mono.
   */
  lemma MonoPublished(format: Bytes -> Bytes, mono: seq<TtsChannels.Sample>, stereo: Bytes)
    requires |mono| >= 4 && TtsChannels.Total(mono) > 0
    requires stereo == TtsChannels.Stereo(mono, TtsChannels.Silence(|mono|)) && format(stereo) == stereo
    ensures AlignAll(format, [stereo]) == ([], [TtsChannels.Mono(mono)])
  {
    hide *;
    TtsChannels.MonoRestored(mono);
    SingleOffered(format, stereo, TtsChannels.Mono(mono));
  }

  lemma EvenPasses(audio: Bytes)
    requires |audio| % 2 == 0
    ensures Align([], audio) == ([], audio)
  {
    assert [] + audio == audio;
  }

  /** A piece that is too short or no whole number of frames is offered as format gives it. */
  lemma OddPiecePrepared(format: Bytes -> Bytes, chunk: Bytes)
    requires |format(chunk)| < 16 || |format(chunk)| % 4 != 0
    ensures AllPrepared(format, [chunk]) == [format(chunk)]
  {
    assert [chunk][..0] == [];
  }

  lemma AlignEven(pending: Bytes, audio: Bytes)
    ensures |Align(pending, audio).1| % 2 == 0
  {
  }
}
