/**
  Whole runs of the mixer: the output is a function of when each sound was played, however the
  frames are cut into callbacks, and every sample of a finished sound is in it exactly once.
 */
module MixerRun {
  import opened Mixer

  datatype Event = PlaySound(sound: seq<Frame>, gain: real) | Callback(frames: nat)
  datatype Request = Request(sound: seq<Frame>, gain: real)

  /** What a run amounts to: sounds still waiting, voices with their starting frames, frames put out. */
  datatype Timeline = Timeline(waiting: seq<Request>, voices: seq<Voice>, clock: nat)

  function StartAll(rs: seq<Request>, t: nat): seq<Voice> {
    seq(|rs|, i requires 0 <= i < |rs| => Voice(rs[i].sound, rs[i].gain, t))
  }

  function Next(tl: Timeline, e: Event): Timeline {
    match e
    case PlaySound(s, g) => tl.(waiting := tl.waiting + [Request(s, g)])
    case Callback(n) => Timeline([], tl.voices + StartAll(tl.waiting, tl.clock), tl.clock + n)
  }

  function TimelineFrom(tl: Timeline, es: seq<Event>): Timeline
    decreases es
  {
    if es == [] then tl else TimelineFrom(Next(tl, es[0]), es[1..])
  }

  const SILENT := Timeline([], [], 0)

  function Heard(masterGain: real, tl: Timeline): seq<Frame> {
    Amplified(masterGain, Block(tl.voices, 0, tl.clock))
  }

  // ----- what is heard, channel by channel -----

  function Loudness(v: Voice, t: nat, right: bool): real {
    if !(v.start <= t < v.start + |v.sound|) then 0.0
    else v.gain * if right then v.sound[t - v.start].right else v.sound[t - v.start].left
  }

  /** One channel of the sounds playing at `t`, each weighted with its gain, added up. */
  function ChannelSum(vs: seq<Voice>, t: nat, right: bool): real {
    if vs == [] then 0.0 else Loudness(vs[0], t, right) + ChannelSum(vs[1..], t, right)
  }

  lemma {:induction false} ChannelSumLast(vs: seq<Voice>, t: nat, right: bool)
    requires vs != []
    ensures ChannelSum(vs, t, right) == ChannelSum(vs[..|vs| - 1], t, right) + Loudness(vs[|vs| - 1], t, right)
  {
    hide Loudness;
    if |vs| > 1 {
      assert vs[1..][..|vs| - 2] == vs[..|vs| - 1][1..];
      ChannelSumLast(vs[1..], t, right);
    } else {
      assert vs[1..] == [] && vs[..0] == [];
    }
  }

  lemma SampleChannels(v: Voice, t: nat)
    ensures SampleAt(v, t) == Frame(Loudness(v, t, false), Loudness(v, t, true))
  {
  }

  lemma NoSound(t: nat)
    ensures ChannelSum([], t, false) == ChannelSum([], t, true) == 0.0
  {
  }

  lemma {:induction false} MixIsSum(vs: seq<Voice>, t: nat)
    ensures Mix(vs, t) == Frame(ChannelSum(vs, t, false), ChannelSum(vs, t, true))
  {
    hide Loudness, ChannelSum, SampleAt;
    if vs == [] {
      assert ChannelSum(vs, t, false) == ChannelSum(vs, t, true) == 0.0 by {
        NoSound(t);
      }
    } else {
      MixIsSum(vs[..|vs| - 1], t);
      SampleChannels(vs[|vs| - 1], t);
      ChannelSumLast(vs, t, false);
      ChannelSumLast(vs, t, true);
    }
  }

  /** The output at every time: on either channel, the master gain times the gain-weighted sum. */
  ghost predicate IsSum(output: seq<Frame>, masterGain: real, tl: Timeline) {
    |output| == tl.clock &&
    forall t: nat :: t < tl.clock ==>
      output[t] == Frame(masterGain * ChannelSum(tl.voices, t, false), masterGain * ChannelSum(tl.voices, t, true))
  }

  lemma HeardIsSum(masterGain: real, tl: Timeline)
    ensures IsSum(Heard(masterGain, tl), masterGain, tl)
  {
    hide Mix, ChannelSum;
    forall t: nat | t < tl.clock
      ensures Heard(masterGain, tl)[t] ==
              Frame(masterGain * ChannelSum(tl.voices, t, false), masterGain * ChannelSum(tl.voices, t, true))
    {
      MixIsSum(tl.voices, t);
    }
  }

  // ----- the mixer follows the timeline -----

  ghost predicate Follows(m: AudioMixer, tl: Timeline)
    reads m, m.streams, m.pending
  {
    m.Valid() && m.voices == tl.voices && m.clock == tl.clock &&
    Starting(m.pending, m.clock) == StartAll(tl.waiting, m.clock)
  }

  lemma {:induction false} StartingOneMore(h: PlaybackHandle, hs: seq<PlaybackHandle>, t: nat)
    ensures Starting([h] + hs, t) == Starting(hs, t) + [Voice(h.sound, h.gain, t)]
  {
    if hs != [] {
      assert ([h] + hs)[..|hs|] == [h] + hs[..|hs| - 1];
      StartingOneMore(h, hs[..|hs| - 1], t);
    }
  }

  /** A mixer taken through any interleaving of plays and callbacks has put out what is heard. */
  method Run(masterGain: real, es: seq<Event>) returns (m: AudioMixer)
    ensures Follows(m, TimelineFrom(SILENT, es)) && m.masterGain == masterGain
    ensures m.output == Heard(masterGain, TimelineFrom(SILENT, es))
    ensures IsSum(m.output, masterGain, TimelineFrom(SILENT, es))
  {
    hide Heard, IsSum, Next, AudioMixer.Valid, Starting;
    HeardIsSum(masterGain, TimelineFrom(SILENT, es));
    m := new AudioMixer(masterGain);
    ghost var tl := SILENT;
    NoneWaiting();
    assert es[0..] == es;
    for i := 0 to |es|
      invariant fresh(m) && fresh(Handles(m.streams + m.pending)) && m.masterGain == masterGain
      invariant Follows(m, tl) && TimelineFrom(tl, es[i..]) == TimelineFrom(SILENT, es)
    {
      assert es[i..][1..] == es[i + 1..];
      Perform(m, es[i], tl);
      tl := Next(tl, es[i]);
    }
    FollowsHears(m, tl);
  }

  lemma NoneWaiting()
    ensures Starting([], 0) == StartAll([], 0)
  {
  }

  lemma FollowsHears(m: AudioMixer, tl: Timeline)
    requires Follows(m, tl)
    ensures m.output == Heard(m.masterGain, tl)
  {
  }

  method Perform(m: AudioMixer, e: Event, ghost tl: Timeline)
    requires Follows(m, tl)
    modifies m, Handles(m.streams + m.pending)
    ensures Follows(m, Next(tl, e))
    ensures fresh(Handles(m.streams + m.pending) - old(Handles(m.streams + m.pending)))
  {
    match e
    case PlaySound(s, g) =>
      m.Play(s, g);
      assert m.pending == [m.pending[0]] + m.pending[1..];
      StartingOneMore(m.pending[0], m.pending[1..], m.clock);
    case Callback(n) =>
      var out := new Frame[n](_ => SILENCE);
      m.Callback(out);
  }

  // ----- cutting does not matter -----

  /** Neighbouring callbacks merged into one. */
  function Joined(es: seq<Event>): seq<Event> {
    if es == [] then [] else
    var rest := Joined(es[1..]);
    if es[0].Callback? && rest != [] && rest[0].Callback? then [Callback(es[0].frames + rest[0].frames)] + rest[1..]
    else [es[0]] + rest
  }

  lemma {:induction false} JoinedIsSame(tl: Timeline, es: seq<Event>)
    ensures TimelineFrom(tl, Joined(es)) == TimelineFrom(tl, es)
    decreases es
  {
    if es != [] {
      var rest := Joined(es[1..]);
      JoinedIsSame(Next(tl, es[0]), es[1..]);
      if es[0].Callback? && rest != [] && rest[0].Callback? {
        var a, b := es[0].frames, rest[0].frames;
        assert StartAll([], tl.clock + a) == [];
        var v := tl.voices + StartAll(tl.waiting, tl.clock);
        assert v + [] == v;
        assert Next(Next(tl, Callback(a)), Callback(b)) == Next(tl, Callback(a + b));
      }
    }
  }

  /** Two runs that differ only in how their frames are cut into callbacks are heard alike. */
  lemma CutsDoNotMatter(masterGain: real, a: seq<Event>, b: seq<Event>)
    requires Joined(a) == Joined(b)
    ensures Heard(masterGain, TimelineFrom(SILENT, a)) == Heard(masterGain, TimelineFrom(SILENT, b))
  {
    JoinedIsSame(SILENT, a);
    JoinedIsSame(SILENT, b);
  }

  // ----- every sample once -----

  function Sum(fs: seq<Frame>): Frame {
    if fs == [] then SILENCE else Add(Sum(fs[..|fs| - 1]), fs[|fs| - 1])
  }

  /** The sounds added up with their gains. */
  function SumVoices(vs: seq<Voice>): Frame {
    if vs == [] then SILENCE
    else Add(SumVoices(vs[..|vs| - 1]), Scale(vs[|vs| - 1].gain, Sum(vs[|vs| - 1].sound)))
  }

  function Track(v: Voice, n: nat): seq<Frame> {
    seq(n, t requires 0 <= t => SampleAt(v, t))
  }

  lemma ScaleDistributes(g: real, a: Frame, b: Frame)
    ensures Scale(g, Add(a, b)) == Add(Scale(g, a), Scale(g, b))
  {
  }

  lemma ScaleSilence(g: real)
    ensures Scale(g, SILENCE) == SILENCE
  {
  }

  lemma SumLast(fs: seq<Frame>)
    requires fs != []
    ensures Sum(fs) == Add(Sum(fs[..|fs| - 1]), fs[|fs| - 1])
  {
  }

  lemma TrackLast(v: Voice, n: nat)
    requires n > 0
    ensures Sum(Track(v, n)) == Add(Sum(Track(v, n - 1)), SampleAt(v, n - 1))
  {
    hide SampleAt;
    SumLast(Track(v, n));
    assert Track(v, n)[..n - 1] == Track(v, n - 1);
  }

  /** By frame `n` a voice has contributed exactly its samples up to there. */
  lemma {:induction false} TrackSums(v: Voice, n: nat)
    ensures var k := if n <= v.start then 0 else if n < v.start + |v.sound| then n - v.start else |v.sound|;
            Sum(Track(v, n)) == Scale(v.gain, Sum(v.sound[..k]))
  {
    hide Scale, Sum, Track, Add;
    if n == 0 {
      NothingYet(v);
    } else {
      TrackSums(v, n - 1);
      TrackLast(v, n);
      if v.start < n <= v.start + |v.sound| {
        var k := n - v.start;
        SumLast(v.sound[..k]);
        assert v.sound[..k][..k - 1] == v.sound[..k - 1];
        ScaleDistributes(v.gain, Sum(v.sound[..k - 1]), v.sound[k - 1]);
      } else {
        AddSilence(Sum(Track(v, n - 1)));
      }
    }
  }

  lemma NothingYet(v: Voice)
    ensures Sum(Track(v, 0)) == Scale(v.gain, Sum([])) && v.sound[..0] == []
  {
    ScaleSilence(v.gain);
  }

  lemma {:induction false} SumAdds(a: seq<Frame>, b: seq<Frame>, c: seq<Frame>)
    requires |a| == |b| == |c| && forall i :: 0 <= i < |a| ==> c[i] == Add(a[i], b[i])
    ensures Sum(c) == Add(Sum(a), Sum(b))
  {
    if a != [] {
      SumAdds(a[..|a| - 1], b[..|b| - 1], c[..|c| - 1]);
    }
  }

  lemma {:induction false} BlockSums(vs: seq<Voice>, n: nat)
    requires forall v <- vs :: v.start + |v.sound| <= n
    ensures Sum(Block(vs, 0, n)) == SumVoices(vs)
  {
    hide Scale, SampleAt;
    if vs == [] {
      SilentBlock(0, n);
      SilenceSums(n);
    } else {
      var init, v := vs[..|vs| - 1], vs[|vs| - 1];
      BlockSums(init, n);
      TrackSums(v, n);
      assert v in vs && v.sound[..|v.sound|] == v.sound;
      SumAdds(Block(init, 0, n), Track(v, n), Block(vs, 0, n));
    }
  }

  lemma {:induction false} SilenceSums(n: nat)
    ensures Sum(seq(n, _ => SILENCE)) == SILENCE
  {
    if n > 0 {
      assert seq(n, _ => SILENCE)[..n - 1] == seq(n - 1, _ => SILENCE);
      SilenceSums(n - 1);
    }
  }

  lemma {:induction false} AmplifiedSums(g: real, fs: seq<Frame>)
    ensures Sum(Amplified(g, fs)) == Scale(g, Sum(fs))
  {
    hide Scale;
    if fs == [] {
      ScaleSilence(g);
    } else {
      var init := fs[..|fs| - 1];
      assert Amplified(g, fs)[..|fs| - 1] == Amplified(g, init);
      AmplifiedSums(g, init);
      ScaleDistributes(g, Sum(init), fs[|fs| - 1]);
    }
  }

  /** Once every sound is over, the whole output adds up to all the sounds with their gains. */
  lemma NothingLostOrRepeated(masterGain: real, tl: Timeline)
    requires forall v <- tl.voices :: v.start + |v.sound| <= tl.clock
    ensures Sum(Heard(masterGain, tl)) == Scale(masterGain, SumVoices(tl.voices))
  {
    BlockSums(tl.voices, tl.clock);
    AmplifiedSums(masterGain, Block(tl.voices, 0, tl.clock));
  }
}
