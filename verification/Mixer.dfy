/**
  The audio mixer: sounds wait until the next callback, then play from its first frame; each
  callback adds up what is playing and drops what is exhausted.  Samples are real numbers and the
  gains are constant; the sound device, resampling and level meters are not part of this model.
 */
module Mixer {
  datatype Frame = Frame(left: real, right: real)

  const SILENCE := Frame(0.0, 0.0)

  function Add(a: Frame, b: Frame): Frame {
    Frame(a.left + b.left, a.right + b.right)
  }

  function Scale(g: real, a: Frame): Frame {
    Frame(g * a.left, g * a.right)
  }

  // ----- what is heard -----

  /** A sound and the frame of the output at which it starts. */
  datatype Voice = Voice(sound: seq<Frame>, gain: real, start: nat)

  function SampleAt(v: Voice, t: nat): Frame {
    if v.start <= t < v.start + |v.sound| then Scale(v.gain, v.sound[t - v.start]) else SILENCE
  }

  /** The gain-weighted sum of the shifted sounds. */
  function Mix(vs: seq<Voice>, t: nat): Frame {
    if vs == [] then SILENCE else Add(Mix(vs[..|vs| - 1], t), SampleAt(vs[|vs| - 1], t))
  }

  /** `n` frames of the mix from time `t` on. */
  function Block(vs: seq<Voice>, t: nat, n: nat): seq<Frame> {
    seq(n, j requires 0 <= j => Mix(vs, t + j))
  }

  function Amplified(g: real, fs: seq<Frame>): seq<Frame> {
    seq(|fs|, j requires 0 <= j < |fs| => Scale(g, fs[j]))
  }

  function Padded(chunk: seq<Frame>, j: nat): Frame {
    if j < |chunk| then chunk[j] else SILENCE
  }

  /** The voices with frames left to play at time `t`. */
  function Live(vs: seq<Voice>, t: nat): seq<Voice> {
    if vs == [] then [] else
    var v, init := vs[|vs| - 1], Live(vs[..|vs| - 1], t);
    if t < v.start + |v.sound| then init + [v] else init
  }

  lemma {:induction false} LiveSuffices(vs: seq<Voice>, t: nat, u: nat)
    requires t <= u
    ensures Mix(Live(vs, t), u) == Mix(vs, u)
    ensures Live(Live(vs, t), u) == Live(vs, u)
  {
    if vs != [] {
      var init := vs[..|vs| - 1];
      LiveSuffices(init, t, u);
      var l, i := Live(vs, t), Live(init, t);
      if l != i {
        assert l[..|l| - 1] == i;
      }
    }
  }

  lemma AddAssociates(a: Frame, b: Frame, c: Frame)
    ensures Add(Add(a, b), c) == Add(a, Add(b, c))
  {
  }

  lemma AddSilence(a: Frame)
    ensures Add(a, SILENCE) == a
  {
  }

  lemma {:induction false} MixAppend(a: seq<Voice>, b: seq<Voice>, t: nat)
    ensures Mix(a + b, t) == Add(Mix(a, t), Mix(b, t))
  {
    hide SampleAt;
    if b == [] {
      assert a + b == a;
    } else {
      var c, init, v := a + b, b[..|b| - 1], b[|b| - 1];
      assert c[..|c| - 1] == a + init && c[|c| - 1] == v;
      MixAppend(a, init, t);
      AddAssociates(Mix(a, t), Mix(init, t), SampleAt(v, t));
    }
  }

  lemma {:induction false} LiveAppend(a: seq<Voice>, b: seq<Voice>, t: nat)
    ensures Live(a + b, t) == Live(a, t) + Live(b, t)
  {
    if b == [] {
      assert a + b == a;
    } else {
      var c := a + b;
      assert c[..|c| - 1] == a + b[..|b| - 1] && c[|c| - 1] == b[|b| - 1];
      LiveAppend(a, b[..|b| - 1], t);
    }
  }

  /** Voices that have not started by `t` are silent up to there. */
  lemma {:induction false} NotYetHeard(vs: seq<Voice>, t: nat)
    requires forall v <- vs :: t < v.start
    ensures Mix(vs, t) == SILENCE
  {
    if vs != [] {
      NotYetHeard(vs[..|vs| - 1], t);
      assert vs[|vs| - 1] in vs;
    }
  }

  // ----- the mixer -----

  class PlaybackHandle {
    const sound: seq<Frame>
    const gain: real
    var pos: nat

    constructor (sound: seq<Frame>, gain: real)
      ensures this.sound == sound && this.gain == gain && pos == 0
    {
      this.sound, this.gain, pos := sound, gain, 0;
    }

    predicate IsDone()
      reads this
    {
      pos >= |sound|
    }

    /** The next `n` frames, fewer at the end, with the gain applied. */
    method Read(n: nat) returns (chunk: seq<Frame>)
      requires pos <= |sound|
      modifies this
      ensures |chunk| == (if n <= |sound| - old(pos) then n else |sound| - old(pos)) && pos == old(pos) + |chunk|
      ensures forall j :: 0 <= j < |chunk| ==>
                chunk[j] == Frame(gain * sound[old(pos) + j].left, gain * sound[old(pos) + j].right)
    {
      var end := if pos + n <= |sound| then pos + n else |sound|;
      var raw := sound[pos..end];
      pos := pos + |raw|;
      chunk := seq(|raw|, j requires 0 <= j < |raw| => Scale(gain, raw[j]));
    }
  }

  /** The handle plays the voice and has come to time `t`. */
  ghost predicate Plays(h: PlaybackHandle, v: Voice, t: nat)
    reads h
  {
    h.sound == v.sound && h.gain == v.gain && v.start <= t && h.pos == t - v.start && h.pos <= |h.sound|
  }

  ghost predicate PlayAll(hs: seq<PlaybackHandle>, vs: seq<Voice>, t: nat)
    reads hs
  {
    |hs| == |vs| && forall i :: 0 <= i < |hs| ==> Plays(hs[i], vs[i], t)
  }

  ghost predicate Distinct(hs: seq<PlaybackHandle>) {
    forall i, j :: 0 <= i < j < |hs| ==> hs[i] != hs[j]
  }

  ghost function Handles(hs: seq<PlaybackHandle>): set<PlaybackHandle> {
    set h | h in hs
  }

  /** No handle occurs twice. */
  ghost predicate Apart(a: seq<PlaybackHandle>, b: seq<PlaybackHandle>) {
    Distinct(a) && Distinct(b) && forall h <- a :: h !in b
  }

  /** The voices the waiting handles become at time `t`, oldest request first. */
  ghost function Starting(pending: seq<PlaybackHandle>, t: nat): (vs: seq<Voice>)
    ensures |vs| == |pending| && forall v <- vs :: v.start == t
    ensures forall i :: 0 <= i < |vs| ==>
              vs[i].sound == pending[|pending| - 1 - i].sound && vs[i].gain == pending[|pending| - 1 - i].gain
  {
    if pending == [] then [] else
    var h := pending[|pending| - 1];
    [Voice(h.sound, h.gain, t)] + Starting(pending[..|pending| - 1], t)
  }

  lemma ApartMoves(a: seq<PlaybackHandle>, b: seq<PlaybackHandle>)
    requires Apart(a, b) && b != []
    ensures Apart(a + [b[|b| - 1]], b[..|b| - 1])
    ensures (forall h <- b[..|b| - 1] :: h in b) && b[|b| - 1] in b
  {
    var last, rest := b[|b| - 1], b[..|b| - 1];
    assert last in b && last !in rest;
    forall h | h in a + [last] ensures h !in rest {
      assert h in a ==> h !in b;
    }
    assert last !in a;
  }

  lemma NonePending(streams: seq<PlaybackHandle>, t: nat)
    ensures Starting([], t) == [] && (Apart(streams, []) ==> Distinct(streams))
  {
  }

  lemma PlayOneMore(hs: seq<PlaybackHandle>, vs: seq<Voice>, t: nat, h: PlaybackHandle, v: Voice)
    requires PlayAll(hs, vs, t) && Plays(h, v, t)
    ensures PlayAll(hs + [h], vs + [v], t)
  {
    hide Plays;
  }

  lemma StartingLast(pending: seq<PlaybackHandle>, t: nat)
    requires pending != []
    ensures var last := pending[|pending| - 1];
            Starting(pending, t) == [Voice(last.sound, last.gain, t)] + Starting(pending[..|pending| - 1], t)
  {
  }

  class AudioMixer {
    const masterGain: real
    var pending: seq<PlaybackHandle> // newest first
    var streams: seq<PlaybackHandle>

    ghost var clock: nat // frames put out so far
    ghost var voices: seq<Voice> // everything started so far
    ghost var output: seq<Frame>

    /** Streams are the live voices, and the output so far is the mix of the voices. */
    ghost predicate Valid()
      reads this, streams, pending
    {
      && Apart(streams, pending)
      && (forall h <- pending :: h.pos == 0)
      && (forall v <- voices :: v.start <= clock)
      && PlayAll(streams, Live(voices, clock), clock)
      && output == Amplified(masterGain, Block(voices, 0, clock))
    }

    constructor (masterGain: real)
      ensures Valid() && this.masterGain == masterGain && pending == [] && streams == []
      ensures voices == [] && clock == 0 && output == []
    {
      this.masterGain, pending, streams := masterGain, [], [];
      clock, voices, output := 0, [], [];
    }

    method Play(sound: seq<Frame>, gain: real)
      requires Valid()
      modifies this`pending
      ensures Valid()
      ensures |pending| == |old(pending)| + 1 && pending[1..] == old(pending) && fresh(pending[0])
      ensures pending[0].sound == sound && pending[0].gain == gain
    {
      var h := new PlaybackHandle(sound, gain);
      assert h !in streams && h !in pending;
      pending := [h] + pending;
    }

    /** Fills one block: starts what is pending, adds up the streams, applies the master gain. */
    method Callback(outdata: array<Frame>)
      requires Valid()
      modifies this, Handles(streams + pending), outdata
      ensures Valid() && pending == [] && forall h <- streams :: h in old(streams) || h in old(pending)
      ensures voices == old(voices) + Starting(old(pending), old(clock)) && clock == old(clock) + outdata.Length
      ensures output == old(output) + outdata[..]
      ensures outdata[..] == Amplified(masterGain, Block(voices, old(clock), outdata.Length))
    {
      hide Live, Mix, Block, Amplified, Plays;
      ghost var starting := Starting(pending, clock);
      Admit(Live(voices, clock));
      Render(outdata, Live(voices, clock) + starting);
      PlayingIsEnough(voices, starting, clock, outdata.Length);
      AmplifiedAppend(masterGain, Block(voices, 0, clock), Block(voices + starting, clock, outdata.Length));
      clock, voices, output := clock + outdata.Length, voices + starting, output + outdata[..];
    }

    /** Writes the mix of the streams and keeps those with frames left. */
    method Render(outdata: array<Frame>, ghost playing: seq<Voice>)
      requires Distinct(streams) && PlayAll(streams, playing, clock)
      modifies this`streams, Handles(streams), outdata
      ensures Distinct(streams) && (forall h <- streams :: h in old(streams))
      ensures PlayAll(streams, Live(playing, clock + outdata.Length), clock + outdata.Length)
      ensures outdata[..] == Amplified(masterGain, Block(playing, clock, outdata.Length))
    {
      var mixed, survivors := MixBlock(streams, outdata.Length, playing, clock);
      streams := survivors;
      WriteOut(mixed, masterGain, outdata);
    }

    /** Moves everything pending behind the streams, oldest first. */
    method Admit(ghost playing: seq<Voice>)
      requires Apart(streams, pending) && (forall h <- pending :: h.pos == 0) && PlayAll(streams, playing, clock)
      modifies this`streams, this`pending
      ensures pending == [] && Distinct(streams)
      ensures PlayAll(streams, playing + Starting(old(pending), clock), clock)
      ensures forall h <- streams :: h in old(streams) || h in old(pending)
    {
      hide Apart, PlayAll, Starting;
      ghost var now := playing;
      while pending != []
        invariant Apart(streams, pending) && (forall h <- pending :: h.pos == 0) && PlayAll(streams, now, clock)
        invariant now + Starting(pending, clock) == playing + Starting(old(pending), clock)
        invariant forall h <- streams :: h in old(streams) || h in old(pending)
        invariant forall h <- pending :: h in old(pending)
        decreases |pending|
      {
        var last := pending[|pending| - 1];
        ApartMoves(streams, pending);
        StartingLast(pending, clock);
        PlayOneMore(streams, now, clock, last, Voice(last.sound, last.gain, clock));
        now := now + [Voice(last.sound, last.gain, clock)];
        streams, pending := streams + [last], pending[..|pending| - 1];
      }
      NonePending(streams, clock);
      assert now + [] == now;
    }
  }

  /** `outdata[:] = mixed * gain` */
  method WriteOut(mixed: array<Frame>, g: real, outdata: array<Frame>)
    requires mixed != outdata && mixed.Length == outdata.Length
    modifies outdata
    ensures outdata[..] == Amplified(g, mixed[..])
  {
    for j := 0 to outdata.Length
      invariant forall i :: 0 <= i < j ==> outdata[i] == Scale(g, mixed[i])
    {
      outdata[j] := Scale(g, mixed[j]);
    }
  }

  lemma AmplifiedAppend(g: real, a: seq<Frame>, b: seq<Frame>)
    ensures Amplified(g, a + b) == Amplified(g, a) + Amplified(g, b)
  {
  }

  /** From time `t` on, the live voices and the ones starting carry the whole mix, and stay live for
      as long as they would among all voices. */
  lemma PlayingIsEnough(before: seq<Voice>, starting: seq<Voice>, t: nat, frames: nat)
    requires forall v <- starting :: v.start == t
    ensures Block(Live(before, t) + starting, t, frames) == Block(before + starting, t, frames)
    ensures Live(Live(before, t) + starting, t + frames) == Live(before + starting, t + frames)
    ensures Block(before + starting, 0, t + frames) == Block(before, 0, t) + Block(before + starting, t, frames)
  {
    hide Mix, Live, Add;
    forall u: nat | t <= u ensures Mix(Live(before, t) + starting, u) == Mix(before + starting, u) {
      MixAppend(Live(before, t), starting, u);
      MixAppend(before, starting, u);
      LiveSuffices(before, t, u);
    }
    LiveAppend(Live(before, t), starting, t + frames);
    LiveAppend(before, starting, t + frames);
    LiveSuffices(before, t, t + frames);
    forall u: nat | u < t ensures Mix(before + starting, u) == Mix(before, u) {
      MixAppend(before, starting, u);
      NotYetHeard(starting, u);
      AddSilence(Mix(before, u));
    }
  }

  /** Adds up the next `frames` frames of every stream and keeps the streams that are not exhausted. */
  method MixBlock(streams: seq<PlaybackHandle>, frames: nat, ghost vs: seq<Voice>, ghost t: nat)
    returns (mixed: array<Frame>, survivors: seq<PlaybackHandle>)
    requires Distinct(streams) && PlayAll(streams, vs, t)
    modifies Handles(streams)
    ensures fresh(mixed) && mixed.Length == frames
    ensures mixed[..] == Block(vs, t, frames)
    ensures Distinct(survivors) && (forall h <- survivors :: h in streams)
    ensures PlayAll(survivors, Live(vs, t + frames), t + frames)
  {
    hide Mix, SampleAt, Live, Add, Padded, Block;
    mixed := new Frame[frames](_ => SILENCE);
    survivors := [];
    assert Live([], t + frames) == [] by {
      NobodyLives(t + frames);
    }
    assert forall j :: 0 <= j < frames ==> mixed[j] == SILENCE;
    SilentBlock(t, frames);
    assert vs[..0] == [] && mixed[..] == Block([], t, frames);
    for k := 0 to |streams|
      invariant mixed[..] == Block(vs[..k], t, frames)
      invariant forall i :: k <= i < |streams| ==> Plays(streams[i], vs[i], t)
      invariant PlayAll(survivors, Live(vs[..k], t + frames), t + frames)
      invariant Distinct(survivors) && forall h <- survivors :: h in streams[..k]
    {
      var s := streams[k];
      ghost var v := vs[k];
      assert streams[k] !in streams[..k];
      assert Plays(s, v, t);
      ghost var pos := s.pos;
      var chunk := s.Read(frames);
      ReadIsSample(v, t, frames, chunk);
      assert vs[..k + 1][..k] == vs[..k];
      assert streams[..k + 1] == streams[..k] + [s];
      assert vs[..k + 1] == vs[..k] + [v];
      AddChunk(mixed, chunk, vs[..k], v, t);
      LiveOneMore(vs[..k], v, t + frames);
      if !s.IsDone() {
        survivors := survivors + [s];
      }
    }
    assert vs[..|streams|] == vs;
  }

  lemma NobodyLives(t: nat)
    ensures Live([], t) == []
  {
  }

  lemma LiveOneMore(vs: seq<Voice>, v: Voice, t: nat)
    ensures Live(vs + [v], t) == Live(vs, t) + if t < v.start + |v.sound| then [v] else []
  {
    assert (vs + [v])[..|vs|] == vs;
  }

  lemma SilentBlock(t: nat, n: nat)
    ensures Block([], t, n) == seq(n, _ => SILENCE)
  {
    forall j: nat | j < n ensures Block([], t, n)[j] == SILENCE {
      assert Mix([], t + j) == SILENCE;
    }
  }

  lemma ReadIsSample(v: Voice, t: nat, frames: nat, chunk: seq<Frame>)
    requires v.start <= t <= v.start + |v.sound|
    requires |chunk| == var left := v.start + |v.sound| - t; if frames <= left then frames else left
    requires forall j :: 0 <= j < |chunk| ==>
               chunk[j] == Frame(v.gain * v.sound[t - v.start + j].left, v.gain * v.sound[t - v.start + j].right)
    ensures forall j: nat :: j < frames ==> Padded(chunk, j) == SampleAt(v, t + j)
  {
    forall j: nat | j < frames ensures Padded(chunk, j) == SampleAt(v, t + j) {}
  }

  /** `mixed[:n] += chunk` */
  method AddChunk(mixed: array<Frame>, chunk: seq<Frame>, ghost before: seq<Voice>, ghost v: Voice, ghost t: nat)
    requires |chunk| <= mixed.Length && mixed[..] == Block(before, t, mixed.Length)
    requires forall j: nat :: j < mixed.Length ==> Padded(chunk, j) == SampleAt(v, t + j)
    modifies mixed
    ensures mixed[..] == Block(before + [v], t, mixed.Length)
  {
    ghost var was := mixed[..];
    for i := 0 to |chunk|
      invariant forall j :: 0 <= j < i ==> mixed[j] == Add(was[j], chunk[j])
      invariant forall j :: i <= j < mixed.Length ==> mixed[j] == was[j]
    {
      mixed[i] := Add(mixed[i], chunk[i]);
    }
    BlockGrows(before, v, t, was, chunk, mixed[..]);
  }

  lemma BlockGrows(before: seq<Voice>, v: Voice, t: nat, was: seq<Frame>, chunk: seq<Frame>, now: seq<Frame>)
    requires |chunk| <= |was| == |now| && was == Block(before, t, |was|)
    requires forall j: nat :: j < |was| ==> Padded(chunk, j) == SampleAt(v, t + j)
    requires forall j :: 0 <= j < |chunk| ==> now[j] == Add(was[j], chunk[j])
    requires forall j :: |chunk| <= j < |was| ==> now[j] == was[j]
    ensures now == Block(before + [v], t, |was|)
  {
    hide SampleAt;
    var b := Block(before + [v], t, |was|);
    forall j: nat | j < |was| ensures now[j] == b[j] {
      assert (before + [v])[..|before|] == before;
      assert b[j] == Add(was[j], Padded(chunk, j));
    }
  }
}
