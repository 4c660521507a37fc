/**
  The tempo map of a MIDI file: a list of tempo changes, the time of a tick, the tick of a time.
  Times are exact rationals.  Converting a time to a tick rounds in the MIDI library, whose source
  is not part of this model: the rounding is any function that leaves whole numbers alone.
 */
module TempoMap {
  import opened StableSort

  const DEFAULT_TEMPO := 500_000 // microseconds per beat

  datatype Message = Message(time: nat, body: Body)
  datatype Body =
    | SetTempo(tempo: nat)
    | TrackName(name: string)
    | ProgramChange(channel: int, program: int)
    | NoteOn(channel: int, note: int, velocity: nat)
    | NoteOff(channel: int, note: int, velocity: nat)
    | Other

  datatype TempoEvent = TempoEvent(tick: nat, tempo: nat)
  datatype TempoMap = TempoMap(events: seq<TempoEvent>, tpb: nat)

  /** What building from a file gives: positive tempi at ticks strictly increasing from 0. */
  predicate Valid(m: TempoMap) {
    m.tpb > 0 && m.events != [] && m.events[0].tick == 0 && Increasing(m.events) && forall e <- m.events :: e.tempo > 0
  }

  predicate Increasing(es: seq<TempoEvent>) {
    forall i, j :: 0 <= i < j < |es| ==> es[i].tick < es[j].tick
  }

  // ----- seconds as exact fractions -----

  /** `n` microsecond-ticks, of which there are a million per tick per second. */
  function Fraction(n: int, tpb: nat): real
    requires tpb > 0
  {
    n as real / (1_000_000 * tpb) as real
  }

  function TickToSecond(ticks: int, tpb: nat, tempo: nat): real
    requires tpb > 0
  {
    Fraction(ticks * tempo, tpb)
  }

  function SecondToTick(seconds: real, tpb: nat, tempo: nat): real
    requires tpb > 0 && tempo > 0
  {
    seconds / (tempo as real / (1_000_000 * tpb) as real)
  }

  lemma FractionAdds(a: int, b: int, tpb: nat)
    requires tpb > 0
    ensures Fraction(a, tpb) + Fraction(b, tpb) == Fraction(a + b, tpb)
    ensures Fraction(a, tpb) - Fraction(b, tpb) == Fraction(a - b, tpb)
  {
  }

  lemma FractionOrder(a: int, b: int, tpb: nat)
    requires tpb > 0
    ensures Fraction(a, tpb) < Fraction(b, tpb) <==> a < b
    ensures Fraction(a, tpb) == Fraction(b, tpb) <==> a == b
  {
    var d := (1_000_000 * tpb) as real;
    assert Fraction(a, tpb) * d == a as real && Fraction(b, tpb) * d == b as real;
    if a < b {
      Divided(a as real, b as real, d);
    } else if b < a {
      Divided(b as real, a as real, d);
    }
  }

  lemma Divided(a: real, b: real, d: real)
    requires a < b && d > 0.0
    ensures a / d < b / d
  {
    assert (a / d) * d == a && (b / d) * d == b;
  }

  lemma SecondToTickInverts(ticks: int, tpb: nat, tempo: nat)
    requires tpb > 0 && tempo > 0
    ensures SecondToTick(TickToSecond(ticks, tpb, tempo), tpb, tempo) == ticks as real
  {
    var d := (1_000_000 * tpb) as real;
    var t := tempo as real;
    assert TickToSecond(ticks, tpb, tempo) == ticks as real * t / d;
    assert ticks as real * t / d == ticks as real * (t / d);
    assert t / d != 0.0;
    Cancel(ticks as real, t / d);
  }

  lemma SecondToTickOrder(seconds: real, ticks: int, tpb: nat, tempo: nat)
    requires tpb > 0 && tempo > 0
    ensures seconds <= TickToSecond(ticks, tpb, tempo) ==> SecondToTick(seconds, tpb, tempo) <= ticks as real
    ensures TickToSecond(ticks, tpb, tempo) <= seconds ==> ticks as real <= SecondToTick(seconds, tpb, tempo)
  {
    SecondToTickInverts(ticks, tpb, tempo);
    var t, q := TickToSecond(ticks, tpb, tempo), tempo as real / (1_000_000 * tpb) as real;
    if seconds < t {
      Divided(seconds, t, q);
    } else if t < seconds {
      Divided(t, seconds, q);
    }
  }

  lemma Cancel(x: real, y: real)
    requires y != 0.0
    ensures x * y / y == x
  {
  }

  // ----- the meaning of a tempo map -----

  /** The tempo in force at tick `t`: the last change not after it. */
  function TempoAt(es: seq<TempoEvent>, t: nat, before: nat): nat {
    if es == [] || t < es[0].tick then before else TempoAt(es[1..], t, es[0].tempo)
  }

  /** The tempi of the ticks before `t`, added up. */
  function Total(m: TempoMap, t: nat): nat {
    if t == 0 then 0 else Total(m, t - 1) + TempoAt(m.events, t - 1, DEFAULT_TEMPO)
  }

  function Seconds(m: TempoMap, t: nat): real
    requires m.tpb > 0
  {
    Fraction(Total(m, t), m.tpb)
  }

  lemma {:induction false} TempoAtPositive(es: seq<TempoEvent>, t: nat, before: nat)
    requires before > 0 && forall e <- es :: e.tempo > 0
    ensures TempoAt(es, t, before) > 0
  {
    if es != [] && es[0].tick <= t {
      TempoAtPositive(es[1..], t, es[0].tempo);
    }
  }

  lemma {:induction false} TotalIncreases(m: TempoMap, a: nat, b: nat)
    requires Valid(m) && a < b
    ensures Total(m, a) < Total(m, b)
    decreases b
  {
    TempoAtPositive(m.events, b - 1, DEFAULT_TEMPO);
    if a < b - 1 {
      TotalIncreases(m, a, b - 1);
    }
  }

  /** Later ticks are strictly later in time. */
  lemma SecondsIncrease(m: TempoMap, a: nat, b: nat)
    requires Valid(m)
    ensures Seconds(m, a) < Seconds(m, b) <==> a < b
    ensures Seconds(m, a) == Seconds(m, b) <==> a == b
  {
    if a < b { TotalIncreases(m, a, b); }
    if b < a { TotalIncreases(m, b, a); }
    FractionOrder(Total(m, a), Total(m, b), m.tpb);
  }

  /** Between the first `i` changes and the next one, the tempo is that of change `i - 1`. */
  lemma {:induction false} TempoBetween(es: seq<TempoEvent>, i: nat, t: nat, before: nat)
    requires Increasing(es) && i <= |es|
    requires i > 0 ==> es[i - 1].tick <= t
    requires i < |es| ==> t < es[i].tick
    ensures TempoAt(es, t, before) == if i == 0 then before else es[i - 1].tempo
  {
    if i > 0 {
      TempoBetween(es[1..], i - 1, t, es[0].tempo);
    }
  }

  /** The stretch from the last change on adds its length times its tempo. */
  lemma {:induction false} TotalInSegment(m: TempoMap, i: nat, t: nat)
    requires Increasing(m.events) && i <= |m.events|
    requires StartOf(m, i) <= t && (i < |m.events| ==> t <= m.events[i].tick)
    ensures Total(m, t) == Total(m, StartOf(m, i)) + (t - StartOf(m, i)) * TempoOf(m, i)
    decreases t
  {
    if t > StartOf(m, i) {
      TempoBetween(m.events, i, t - 1, DEFAULT_TEMPO);
      TotalInSegment(m, i, t - 1);
      assert (t - StartOf(m, i)) * TempoOf(m, i) == (t - 1 - StartOf(m, i)) * TempoOf(m, i) + TempoOf(m, i);
    }
  }

  /** Where the loops' `prev_tick` and `prev_tempo` stand after `i` changes. */
  function StartOf(m: TempoMap, i: nat): nat
    requires i <= |m.events|
  {
    if i == 0 then 0 else m.events[i - 1].tick
  }

  function TempoOf(m: TempoMap, i: nat): nat
    requires i <= |m.events|
  {
    if i == 0 then DEFAULT_TEMPO else m.events[i - 1].tempo
  }

  lemma SegmentSeconds(m: TempoMap, i: nat, t: nat)
    requires m.tpb > 0 && Increasing(m.events) && i <= |m.events|
    requires StartOf(m, i) <= t && (i < |m.events| ==> t <= m.events[i].tick)
    ensures Seconds(m, t) == Seconds(m, StartOf(m, i)) + TickToSecond(t - StartOf(m, i), m.tpb, TempoOf(m, i))
  {
    TotalInSegment(m, i, t);
    FractionAdds(Total(m, StartOf(m, i)), (t - StartOf(m, i)) * TempoOf(m, i), m.tpb);
  }

  // ----- the conversions -----

  method TickToSec(m: TempoMap, tick: nat) returns (elapsed: real)
    requires m.tpb > 0 && Increasing(m.events)
    ensures elapsed == Seconds(m, tick)
  {
    elapsed := 0.0;
    var prevTick, prevTempo := 0, DEFAULT_TEMPO;
    var i := 0;
    while i < |m.events|
      invariant i <= |m.events| && prevTick == StartOf(m, i) && prevTempo == TempoOf(m, i)
      invariant prevTick <= tick && elapsed == Seconds(m, prevTick)
      invariant i > 0 ==> prevTick < tick
    {
      var ev := m.events[i];
      if ev.tick >= tick {
        break;
      }
      SegmentSeconds(m, i, ev.tick);
      elapsed := elapsed + TickToSecond(ev.tick - prevTick, m.tpb, prevTempo);
      prevTick, prevTempo := ev.tick, ev.tempo;
      i := i + 1;
    }
    SegmentSeconds(m, i, tick);
    elapsed := elapsed + TickToSecond(tick - prevTick, m.tpb, prevTempo);
  }

  /** The library's rounding of a quotient: down or up, and not at all for a whole number. */
  ghost predicate Rounding(round: real -> int) {
    forall x: real :: x.Floor <= round(x) <= x.Floor + if x == x.Floor as real then 0 else 1
  }

  /** The tick found lies between the last tick not after the time and the first tick not before it;
      for the time of a tick that is the tick itself. */
  method SecToTick(m: TempoMap, seconds: real, round: real -> int) returns (tick: int)
    requires Valid(m) && Rounding(round)
    ensures forall t: nat :: Seconds(m, t) <= seconds ==> t <= tick
    ensures forall t: nat :: seconds <= Seconds(m, t) ==> tick <= t
  {
    var elapsed := 0.0;
    var prevTick, prevTempo := 0, DEFAULT_TEMPO;
    for i := 0 to |m.events|
      invariant prevTick == StartOf(m, i) && prevTempo == TempoOf(m, i) && prevTempo > 0
      invariant elapsed == Seconds(m, prevTick)
      invariant i > 0 ==> elapsed < seconds
    {
      var ev := m.events[i];
      var segSec := TickToSecond(ev.tick - prevTick, m.tpb, prevTempo);
      SegmentSeconds(m, i, ev.tick);
      if elapsed + segSec >= seconds {
        tick := prevTick + round(SecondToTick(seconds - elapsed, m.tpb, prevTempo));
        forall t: nat { InSegment(m, i, seconds, round, t); }
        return;
      }
      elapsed := elapsed + segSec;
      prevTick, prevTempo := ev.tick, ev.tempo;
    }
    tick := prevTick + round(SecondToTick(seconds - elapsed, m.tpb, prevTempo));
    forall t: nat { InSegment(m, |m.events|, seconds, round, t); }
  }

  lemma InSegment(m: TempoMap, i: nat, seconds: real, round: real -> int, t: nat)
    requires Valid(m) && Rounding(round) && i <= |m.events|
    requires i > 0 ==> Seconds(m, StartOf(m, i)) < seconds
    requires i < |m.events| ==> seconds <= Seconds(m, m.events[i].tick)
    ensures var tick := StartOf(m, i) + round(SecondToTick(seconds - Seconds(m, StartOf(m, i)), m.tpb, TempoOf(m, i)));
            (Seconds(m, t) <= seconds ==> t <= tick) && (seconds <= Seconds(m, t) ==> tick <= t)
  {
    var start := StartOf(m, i);
    var offset := seconds - Seconds(m, start);
    SecondsIncrease(m, start, t);
    SecondToTickOrder(offset, 0, m.tpb, TempoOf(m, i));
    if i < |m.events| {
      var end := m.events[i].tick;
      SecondsIncrease(m, end, t);
      SegmentSeconds(m, i, end);
      SecondToTickOrder(offset, end - start, m.tpb, TempoOf(m, i));
    }
    if start <= t && (i < |m.events| ==> t <= m.events[i].tick) {
      SegmentSeconds(m, i, t);
      SecondToTickOrder(offset, t - start, m.tpb, TempoOf(m, i));
    }
  }

  // ----- building the map -----

  /** The tempo changes of a track, with absolute ticks, in file order. */
  function TrackEvents(track: seq<Message>, start: nat): seq<TempoEvent> {
    if track == [] then [] else
    var t := start + track[0].time;
    (if track[0].body.SetTempo? then [TempoEvent(t, track[0].body.tempo)] else []) + TrackEvents(track[1..], t)
  }

  function AllEvents(tracks: seq<seq<Message>>): seq<TempoEvent> {
    if tracks == [] then [] else TrackEvents(tracks[0], 0) + AllEvents(tracks[1..])
  }

  /** The first change listed for a tick. */
  function FirstAt(es: seq<TempoEvent>, tick: nat): seq<TempoEvent> {
    if es == [] then [] else if es[0].tick == tick then [es[0]] else FirstAt(es[1..], tick)
  }

  function ByTick(a: TempoEvent, b: TempoEvent): bool {
    a.tick <= b.tick
  }

  /** A stable sort by tick, then only the first change of each tick. */
  method FromTracks(tracks: seq<seq<Message>>, tpb: nat) returns (m: TempoMap)
    requires tpb > 0 && forall e <- AllEvents(tracks) :: e.tempo > 0
    ensures Valid(m) && m.tpb == tpb
    ensures forall t: nat :: FirstAt(m.events, t) ==
              if t == 0 && FirstAt(AllEvents(tracks), 0) == [] then [TempoEvent(0, DEFAULT_TEMPO)]
              else FirstAt(AllEvents(tracks), t)
  {
    var events := CollectEvents(tracks);
    ghost var all := events;
    events := Sort(events, ByTick);
    SortedEvents(all);
    if events == [] || events[0].tick != 0 {
      events := [TempoEvent(0, DEFAULT_TEMPO)] + events;
    }
    WithStart(all);
    var deduped := Dedup(events);
    m := TempoMap(deduped, tpb);
  }

  lemma SortedEvents(all: seq<TempoEvent>)
    ensures var s := Sort(all, ByTick);
            Sorted(s, ByTick) && (forall e <- s :: e in all) && forall t: nat :: FirstAt(s, t) == FirstAt(all, t)
  {
    SortSorts(all, ByTick);
    SortPermutes(all, ByTick);
    var s := Sort(all, ByTick);
    forall e | e in s ensures e in all {
      assert e in multiset(s);
    }
    forall t: nat ensures FirstAt(s, t) == FirstAt(all, t) {
      SortKeepsFirst(all, t);
    }
  }

  /** The sorted changes, with the default tempo put first unless there is one at tick 0. */
  function Started(all: seq<TempoEvent>): seq<TempoEvent> {
    var s := Sort(all, ByTick);
    if s == [] || s[0].tick != 0 then [TempoEvent(0, DEFAULT_TEMPO)] + s else s
  }

  lemma WithStart(all: seq<TempoEvent>)
    requires forall e <- all :: e.tempo > 0
    ensures var s := Started(all);
            Sorted(s, ByTick) && s[0].tick == 0 && (forall e <- s :: e.tempo > 0) &&
            forall t: nat :: FirstAt(s, t) ==
              if t == 0 && FirstAt(all, 0) == [] then [TempoEvent(0, DEFAULT_TEMPO)] else FirstAt(all, t)
  {
    SortedEvents(all);
    var s := Sort(all, ByTick);
    if s == [] || s[0].tick != 0 {
      var first := [TempoEvent(0, DEFAULT_TEMPO)];
      forall e | e in s ensures 0 < e.tick {
        var i :| 0 <= i < |s| && s[i] == e;
        assert ByTick(s[0], s[i]) || i == 0;
      }
      NothingBefore(s, 0);
      forall t: nat ensures FirstAt(first + s, t) ==
          if t == 0 && FirstAt(all, 0) == [] then first else FirstAt(all, t) {
        FirstAtAppend(first, s, t);
        assert FirstAt(first, t) == if t == 0 then first else FirstAt([], t);
      }
    }
  }

  method CollectEvents(tracks: seq<seq<Message>>) returns (events: seq<TempoEvent>)
    ensures events == AllEvents(tracks)
  {
    events := [];
    for i := 0 to |tracks|
      invariant AllEvents(tracks) == events + AllEvents(tracks[i..])
    {
      var absTick: nat := 0;
      var track := tracks[i];
      ghost var before := events;
      for j := 0 to |track|
        invariant before + TrackEvents(track, 0) == events + TrackEvents(track[j..], absTick)
      {
        absTick := absTick + track[j].time;
        if track[j].body.SetTempo? {
          events := events + [TempoEvent(absTick, track[j].body.tempo)];
        }
        assert track[j..][1..] == track[j + 1..];
      }
      assert events == before + TrackEvents(track, 0);
      assert tracks[i..][1..] == tracks[i + 1..];
      ghost var rest := AllEvents(tracks[i + 1..]);
      assert before + (TrackEvents(track, 0) + rest) == events + rest;
    }
  }

  /** Keeps the first change of every tick. */
  method Dedup(events: seq<TempoEvent>) returns (out: seq<TempoEvent>)
    requires Sorted(events, ByTick)
    ensures Increasing(out) && (events != [] ==> out != [] && out[0] == events[0])
    ensures forall e <- out :: e in events
    ensures forall t: nat :: FirstAt(out, t) == FirstAt(events, t)
  {
    var seen: set<nat> := {};
    out := [];
    for i := 0 to |events|
      invariant Increasing(out) && (forall e <- out :: e in events[..i])
      invariant if i == 0 then out == [] && seen == {} else out != [] && out[0] == events[0]
      invariant forall t: nat :: t in seen <==> FirstAt(events[..i], t) != []
      invariant forall t: nat :: FirstAt(out, t) == FirstAt(events[..i], t)
    {
      var e := events[i];
      DedupStep(events[..i], out, e);
      assert events[..i + 1] == events[..i] + [e];
      if e.tick !in seen {
        forall x | x in out ensures x.tick < e.tick {
          assert x in events[..i];
          FirstAtFinds(events[..i], x);
        }
        out := out + [e];
        seen := seen + {e.tick};
      }
    }
    assert events[..|events|] == events;
  }

  lemma DedupStep(es: seq<TempoEvent>, out: seq<TempoEvent>, e: TempoEvent)
    requires forall t: nat :: FirstAt(out, t) == FirstAt(es, t)
    ensures forall t: nat :: FirstAt(es + [e], t) == if FirstAt(es, t) == [] && e.tick == t then [e] else FirstAt(es, t)
    ensures FirstAt(es, e.tick) == [] ==> forall t: nat :: FirstAt(out + [e], t) == FirstAt(es + [e], t)
  {
    forall t: nat ensures FirstAt([e], t) == if e.tick == t then [e] else [] {
      assert [e][1..] == [];
    }
    forall t: nat ensures FirstAt(es + [e], t) == if FirstAt(es, t) == [] && e.tick == t then [e] else FirstAt(es, t) {
      FirstAtAppend(es, [e], t);
    }
    forall t: nat ensures FirstAt(out + [e], t) == if FirstAt(es, t) == [] && e.tick == t then [e] else FirstAt(es, t) {
      FirstAtAppend(out, [e], t);
    }
  }

  lemma {:induction false} FirstAtAppend(a: seq<TempoEvent>, b: seq<TempoEvent>, t: nat)
    ensures FirstAt(a + b, t) == if FirstAt(a, t) != [] then FirstAt(a, t) else FirstAt(b, t)
  {
    if a == [] {
      assert a + b == b;
    } else {
      assert (a + b)[1..] == a[1..] + b;
      FirstAtAppend(a[1..], b, t);
    }
  }

  lemma {:induction false} FirstAtFinds(es: seq<TempoEvent>, e: TempoEvent)
    requires e in es
    ensures FirstAt(es, e.tick) != []
  {
    if es[0].tick != e.tick {
      FirstAtFinds(es[1..], e);
    }
  }

  lemma {:induction false} NothingBefore(es: seq<TempoEvent>, t: nat)
    requires forall e <- es :: t < e.tick
    ensures FirstAt(es, t) == []
  {
    if es != [] {
      NothingBefore(es[1..], t);
    }
  }

  /** The changes at one tick, in order; `FirstAt` is the first of them. */
  lemma {:induction false} FirstAtIsFilter(es: seq<TempoEvent>, t: nat)
    ensures FirstAt(es, t) == var f := Filter(es, (e: TempoEvent) => e.tick == t); if f == [] then [] else [f[0]]
  {
    if es != [] {
      var init, e := es[..|es| - 1], es[|es| - 1];
      FirstAtIsFilter(init, t);
      FirstAtAppend(init, [e], t);
      assert es == init + [e];
    }
  }

  lemma SortKeepsFirst(es: seq<TempoEvent>, t: nat)
    ensures FirstAt(Sort(es, ByTick), t) == FirstAt(es, t)
  {
    var p := (e: TempoEvent) => e.tick == t;
    var f := Filter(es, p);
    forall i, j | 0 <= i < j < |f| ensures ByTick(f[i], f[j]) {
      assert f[i] in f && f[j] in f;
    }
    SortKeepsOrder(es, ByTick, p);
    FirstAtIsFilter(es, t);
    FirstAtIsFilter(Sort(es, ByTick), t);
  }

  /** At one tempo throughout, time is proportional to ticks; a file without tempo changes plays two beats a
      second. */
  lemma SteadyTempo(m: TempoMap, t: nat)
    requires m.tpb > 0 && (m.events == [] || (|m.events| == 1 && m.events[0].tick == 0))
    ensures var tempo := if m.events == [] then 500_000 else m.events[0].tempo;
            Seconds(m, t) * (1_000_000 * m.tpb) as real == (t * tempo) as real &&
            (tempo == 500_000 ==> Seconds(m, t) * 2.0 * m.tpb as real == t as real)
  {
    var i, d := |m.events|, (1_000_000 * m.tpb) as real;
    SegmentSeconds(m, i, t);
    assert StartOf(m, i) == 0 && Total(m, 0) == 0 && Seconds(m, 0) == 0.0;
    var n := (t * TempoOf(m, i)) as real;
    assert Seconds(m, t) == n / d;
    assert n / d * d == n;
    if TempoOf(m, i) == 500_000 {
      assert n / d * (2.0 * m.tpb as real) * 500_000.0 == n / d * d;
    }
  }
}
