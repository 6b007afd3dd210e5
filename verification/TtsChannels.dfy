/** normalizeTTSChannels (pkg/model/mistral/audio.go): stereo PCM with one silent channel becomes mono. */
module TtsChannels {
  import opened ByteStrings

  /** A little-endian 16-bit sample. */
  datatype Sample = Sample(lo: byte, hi: byte) {
    function Value(): int {
      var u := lo as int + 0x100 * hi as int;
      if u >= 0x8000 then u - 0x1_0000 else u
    }

    function Loudness(): nat {
      if Value() < 0 then -Value() else Value()
    }
  }

  function At(pcm: Bytes, i: nat): Sample
    requires i + 1 < |pcm|
  {
    Sample(pcm[i], pcm[i + 1])
  }

  /** The energy of one channel over the first n frames; the channel is 0 for left and 2 for right. */
  function Energy(pcm: Bytes, channel: nat, n: nat): nat
    requires channel <= 2 && 4 * n <= |pcm|
  {
    if n == 0 then 0 else Energy(pcm, channel, n - 1) + At(pcm, 4 * (n - 1) + channel).Loudness()
  }

  /** The bytes of one channel over the first n frames. */
  function Channel(pcm: Bytes, channel: nat, n: nat): (r: Bytes)
    requires channel <= 2 && 4 * n <= |pcm|
    ensures |r| == 2 * n
  {
    if n == 0 then []
    else
      var s := At(pcm, 4 * (n - 1) + channel);
      Channel(pcm, channel, n - 1) + [s.lo, s.hi]
  }

  /** The mono stream made from a chunk that looks like stereo with one nearly silent channel. */
  function Normalised(pcm: Bytes): Bytes {
    if |pcm| < 16 || |pcm| % 4 != 0 then pcm
    else
      var frames := |pcm| / 4;
      var left, right := Energy(pcm, 0, frames), Energy(pcm, 2, frames);
      if left * 20 < right then Channel(pcm, 2, frames)
      else if right * 20 < left then Channel(pcm, 0, frames)
      else pcm
  }

  method NormalizeTTSChannels(pcm: Bytes) returns (r: Bytes)
    ensures r == Normalised(pcm)
  {
    if |pcm| < 16 || |pcm| % 4 != 0 {
      return pcm;
    }
    var leftEnergy, rightEnergy := 0, 0;
    var frames := |pcm| / 4;
    for i := 0 to frames
      invariant leftEnergy == Energy(pcm, 0, i) && rightEnergy == Energy(pcm, 2, i)
    {
      var left, right := At(pcm, i * 4).Value(), At(pcm, i * 4 + 2).Value();
      leftEnergy := leftEnergy + if left < 0 then -left else left;
      rightEnergy := rightEnergy + if right < 0 then -right else right;
    }
    if leftEnergy == 0 && rightEnergy == 0 {
      return pcm;
    }
    var activeRight := leftEnergy * 20 < rightEnergy;
    var activeLeft := rightEnergy * 20 < leftEnergy;
    if !activeLeft && !activeRight {
      return pcm;
    }
    r := CopyChannel(pcm, if activeRight then 2 else 0);
  }

  /** The copying loop, into a fresh array. */
  method CopyChannel(pcm: Bytes, channel: nat) returns (r: Bytes)
    requires channel <= 2 && |pcm| % 4 == 0
    ensures r == Channel(pcm, channel, |pcm| / 4)
  {
    var frames := |pcm| / 4;
    var out := new byte[frames * 2];
    for i := 0 to frames
      invariant out[..2 * i] == Channel(pcm, channel, i)
    {
      ghost var before := out[..2 * i];
      out[i * 2] := pcm[i * 4 + channel];
      out[i * 2 + 1] := pcm[i * 4 + channel + 1];
      assert out[..2 * (i + 1)] == before + [out[2 * i], out[2 * i + 1]];
    }
    assert out[..2 * frames] == out[..];
    r := out[..];
  }

  // ---------- stereo streams ----------

  /** Two channels of samples, interleaved. */
  function Stereo(left: seq<Sample>, right: seq<Sample>): (r: Bytes)
    requires |left| == |right|
    ensures |r| == 4 * |left|
  {
    if left == [] then []
    else
      var n := |left| - 1;
      Stereo(left[..n], right[..n]) + [left[n].lo, left[n].hi, right[n].lo, right[n].hi]
  }

  function Mono(samples: seq<Sample>): (r: Bytes)
    ensures |r| == 2 * |samples|
  {
    if samples == [] then []
    else
      var last := samples[|samples| - 1];
      Mono(samples[..|samples| - 1]) + [last.lo, last.hi]
  }

  function Total(samples: seq<Sample>): nat {
    if samples == [] then 0 else Total(samples[..|samples| - 1]) + samples[|samples| - 1].Loudness()
  }

  /** What the first n frames give does not depend on what follows them. */
  lemma {:induction false} PrefixOnly(pcm: Bytes, more: Bytes, channel: nat, n: nat)
    requires channel <= 2 && 4 * n <= |pcm|
    ensures Energy(pcm + more, channel, n) == Energy(pcm, channel, n)
    ensures Channel(pcm + more, channel, n) == Channel(pcm, channel, n)
  {
    if n > 0 {
      PrefixOnly(pcm, more, channel, n - 1);
      assert At(pcm + more, 4 * (n - 1) + channel) == At(pcm, 4 * (n - 1) + channel);
    }
  }

  lemma {:induction false} ChannelsOfStereo(left: seq<Sample>, right: seq<Sample>)
    requires |left| == |right|
    ensures var pcm := Stereo(left, right);
            && Energy(pcm, 0, |left|) == Total(left) && Energy(pcm, 2, |left|) == Total(right)
            && Channel(pcm, 0, |left|) == Mono(left) && Channel(pcm, 2, |left|) == Mono(right)
  {
    if left != [] {
      var n := |left| - 1;
      var before, frame := Stereo(left[..n], right[..n]), [left[n].lo, left[n].hi, right[n].lo, right[n].hi];
      ChannelsOfStereo(left[..n], right[..n]);
      PrefixOnly(before, frame, 0, n);
      PrefixOnly(before, frame, 2, n);
      assert At(before + frame, 4 * n) == left[n] && At(before + frame, 4 * n + 2) == right[n];
    }
  }

  /**
    For every stereo chunk of at least four frames: a channel more than twenty times louder than the
    other is what is kept, sample for sample, and otherwise the chunk passes unchanged.
   */
  lemma {:induction false} LouderChannelKept(left: seq<Sample>, right: seq<Sample>)
    requires |left| == |right| >= 4
    ensures Normalised(Stereo(left, right)) ==
              if Total(left) * 20 < Total(right) then Mono(right)
              else if Total(right) * 20 < Total(left) then Mono(left)
              else Stereo(left, right)
  {
    ChannelsOfStereo(left, right);
    assert |Stereo(left, right)| / 4 == |left|;
  }

  /** A chunk that is too short or no whole number of frames is left alone. */
  lemma OddShapesKept(pcm: Bytes)
    requires |pcm| < 16 || |pcm| % 4 != 0
    ensures Normalised(pcm) == pcm
  {
  }

  /** The bytes of a 16-bit number in two's complement, low byte first. */
  function OfValue(v: int): Sample
    requires -0x8000 <= v < 0x8000
  {
    var u := if v < 0 then v + 0x1_0000 else v;
    Sample((u % 0x100) as byte, (u / 0x100) as byte)
  }

  /** Samples are signed numbers, and their loudness is the absolute value. */
  lemma ValueRoundTrip(v: int)
    requires -0x8000 <= v < 0x8000
    ensures OfValue(v).Value() == v
    ensures OfValue(v).Loudness() == if v < 0 then -v else v
  {
  }

  /** The energy of a channel is the sum of the absolute values of its samples. */
  lemma {:induction false} EnergyAdds(a: seq<Sample>, b: seq<Sample>)
    ensures Total(a + b) == Total(a) + Total(b)
    ensures |b| == 1 ==> Total(b) == if b[0].Value() < 0 then -b[0].Value() else b[0].Value()
  {
    hide Sample.Value;
    if b == [] {
      assert a + b == a;
    } else {
      var n := |b| - 1;
      EnergyAdds(a, b[..n]);
      assert (a + b)[..|a| + n] == a + b[..n];
    }
  }

  function Silence(n: nat): (r: seq<Sample>)
    ensures |r| == n
  {
    if n == 0 then [] else Silence(n - 1) + [Sample(0, 0)]
  }

  lemma {:induction false} SilenceIsQuiet(n: nat)
    ensures Total(Silence(n)) == 0
  {
    if n > 0 {
      SilenceIsQuiet(n - 1);
      assert Silence(n)[..n - 1] == Silence(n - 1);
    }
  }

  /** A mono stream that was sent as stereo beside a silent channel is restored, unless it is silent itself. */
  lemma {:induction false} MonoRestored(mono: seq<Sample>)
    requires |mono| >= 4
    ensures var silence := Silence(|mono|);
            if Total(mono) > 0
            then Normalised(Stereo(mono, silence)) == Normalised(Stereo(silence, mono)) == Mono(mono)
            else Normalised(Stereo(mono, silence)) == Stereo(mono, silence)
  {
    SilenceIsQuiet(|mono|);
    LouderChannelKept(mono, Silence(|mono|));
    LouderChannelKept(Silence(|mono|), mono);
  }
}
