/**
  Reading the notes of a MIDI track: every note-off ends the oldest pending note of its channel and
  pitch.  Instrument and pitch names are not part of this model.
 */
module NotePairing {
  import opened StableSort
  import opened TempoMap

  const DRUM_CHANNEL := 9

  type Key = (int, int) // channel and pitch

  datatype On = On(tick: nat, velocity: nat, program: int)
  datatype Off = Off(tick: nat, velocity: nat, trackName: string)
  datatype Note = Note(
    pitch: int, channel: int, velocity: nat, offVelocity: nat, program: int, isDrum: bool, trackName: string,
    startSec: real, endSec: real, durationSec: real, startBeat: real, endBeat: real, durationBeats: real)
  datatype Track = Track(name: string, notes: seq<Note>)

  function Beat(m: TempoMap, tick: nat): real
    requires m.tpb > 0
  {
    tick as real / m.tpb as real
  }

  function MakeNote(m: TempoMap, key: Key, on: On, off: Off): Note
    requires m.tpb > 0
  {
    var s, e := Seconds(m, on.tick), Seconds(m, off.tick);
    var sb, eb := Beat(m, on.tick), Beat(m, off.tick);
    Note(key.1, key.0, on.velocity, off.velocity, on.program, key.0 == DRUM_CHANNEL, off.trackName,
         s, e, e - s, sb, eb, eb - sb)
  }

  // ----- what the messages say -----

  /** The absolute tick of the last message. */
  function Tick(ms: seq<Message>): nat {
    if ms == [] then 0 else Tick(ms[..|ms| - 1]) + ms[|ms| - 1].time
  }

  /** The program last chosen for a channel. */
  function Program(ms: seq<Message>, channel: int): int {
    if ms == [] then 0 else
    var b := ms[|ms| - 1].body;
    if b.ProgramChange? && b.channel == channel then b.program else Program(ms[..|ms| - 1], channel)
  }

  function Name(ms: seq<Message>): string {
    if ms == [] then "" else
    var b := ms[|ms| - 1].body;
    if b.TrackName? then b.name else Name(ms[..|ms| - 1])
  }

  predicate StartsNote(b: Body, key: Key) {
    b.NoteOn? && b.velocity > 0 && (b.channel, b.note) == key
  }

  predicate EndsNote(b: Body, key: Key) {
    (b.NoteOff? || (b.NoteOn? && b.velocity == 0)) && (b.channel, b.note) == key
  }

  /** The note-ons of a key in order, each with the program in force. */
  function Ons(ms: seq<Message>, key: Key): seq<On> {
    if ms == [] then [] else
    var init, b := ms[..|ms| - 1], ms[|ms| - 1].body;
    if StartsNote(b, key) then Ons(init, key) + [On(Tick(ms), b.velocity, Program(init, key.0))] else Ons(init, key)
  }

  /** The note-offs of a key that find a note to end. */
  function Offs(ms: seq<Message>, key: Key): (r: seq<Off>)
    ensures |r| <= |Ons(ms, key)|
  {
    if ms == [] then [] else
    var init, b := ms[..|ms| - 1], ms[|ms| - 1].body;
    var before := Offs(init, key);
    if EndsNote(b, key) && |before| < |Ons(init, key)| then before + [Off(Tick(ms), b.velocity, Name(init))] else before
  }

  /** The i-th note-on of a key ends at its i-th note-off. */
  function NotesFor(m: TempoMap, ms: seq<Message>, key: Key): seq<Note>
    requires m.tpb > 0
  {
    seq(|Offs(ms, key)|, i requires 0 <= i < |Offs(ms, key)| => MakeNote(m, key, Ons(ms, key)[i], Offs(ms, key)[i]))
  }

  function PendingFor(ms: seq<Message>, key: Key): seq<On> {
    Ons(ms, key)[|Offs(ms, key)|..]
  }

  function OfKey(key: Key): Note -> bool {
    (n: Note) => (n.channel, n.pitch) == key
  }

  // ----- properties of the pairing -----

  lemma {:induction false} TicksAreOrdered(ms: seq<Message>, key: Key)
    ensures forall i :: 0 <= i < |Ons(ms, key)| ==> Ons(ms, key)[i].tick <= Tick(ms)
    ensures forall i, j :: 0 <= i < j < |Ons(ms, key)| ==> Ons(ms, key)[i].tick <= Ons(ms, key)[j].tick
    ensures forall i :: 0 <= i < |Offs(ms, key)| ==> Ons(ms, key)[i].tick <= Offs(ms, key)[i].tick
  {
    if ms != [] {
      TicksAreOrdered(ms[..|ms| - 1], key);
    }
  }

  /** No note ends before it starts. */
  lemma EndsAfterStart(m: TempoMap, ms: seq<Message>, key: Key, n: Note)
    requires Valid(m) && n in NotesFor(m, ms, key)
    ensures n.startSec <= n.endSec && n.durationSec >= 0.0 && n.startBeat <= n.endBeat
  {
    var i :| 0 <= i < |NotesFor(m, ms, key)| && NotesFor(m, ms, key)[i] == n;
    TicksAreOrdered(ms, key);
    var a, b := Ons(ms, key)[i].tick, Offs(ms, key)[i].tick;
    SecondsIncrease(m, b, a);
    if a < b {
      Divided(a as real, b as real, m.tpb as real);
    }
  }

  function RawOffs(ms: seq<Message>, key: Key): nat {
    if ms == [] then 0 else RawOffs(ms[..|ms| - 1], key) + if EndsNote(ms[|ms| - 1].body, key) then 1 else 0
  }

  /** Note-ons less note-offs of a key in the messages from index `i` on. */
  function Surplus(ms: seq<Message>, key: Key, i: nat): int
    requires i <= |ms|
  {
    |Ons(ms, key)| - |Ons(ms[..i], key)| - (RawOffs(ms, key) - RawOffs(ms[..i], key))
  }

  /** How many notes are left pending, without following the pairing: the largest surplus of
      note-ons over note-offs in any final stretch of the messages. */
  lemma {:induction false} PendingIsLargestSurplus(ms: seq<Message>, key: Key)
    ensures forall i :: 0 <= i <= |ms| ==> Surplus(ms, key, i) <= |PendingFor(ms, key)|
    ensures exists i :: 0 <= i <= |ms| && Surplus(ms, key, i) == |PendingFor(ms, key)|
  {
    assert ms[..|ms|] == ms;
    if ms == [] {
      assert Surplus(ms, key, 0) == 0;
    } else {
      var init := ms[..|ms| - 1];
      PendingIsLargestSurplus(init, key);
      var b := ms[|ms| - 1].body;
      var step := if StartsNote(b, key) then 1 else if EndsNote(b, key) then -1 else 0;
      forall i | 0 <= i <= |init| ensures Surplus(ms, key, i) == Surplus(init, key, i) + step {
        assert ms[..i] == init[..i];
      }
      assert Surplus(ms, key, |ms|) == 0;
      var w :| 0 <= w <= |init| && Surplus(init, key, w) == |PendingFor(init, key)|;
      assert Surplus(ms, key, w) == |PendingFor(init, key)| + step;
    }
  }

  lemma {:induction false} OnAt(ms: seq<Message>, key: Key, j: nat)
    requires j < |ms| && StartsNote(ms[j].body, key)
    ensures var i := |Ons(ms[..j], key)|;
            i < |Ons(ms, key)| &&
            Ons(ms, key)[i] == On(Tick(ms[..j + 1]), ms[j].body.velocity, Program(ms[..j], key.0))
    decreases |ms|
  {
    hide Tick, Program;
    var init := ms[..|ms| - 1];
    if j < |init| {
      OnAt(init, key, j);
      assert init[..j] == ms[..j] && init[..j + 1] == ms[..j + 1];
    } else {
      assert ms[..j] == init && ms[..j + 1] == ms;
    }
  }

  lemma {:induction false} OffAt(ms: seq<Message>, key: Key, j: nat)
    requires j < |ms| && EndsNote(ms[j].body, key) && PendingFor(ms[..j], key) != []
    ensures var i := |Offs(ms[..j], key)|;
            i < |Offs(ms, key)| && Offs(ms, key)[i] == Off(Tick(ms[..j + 1]), ms[j].body.velocity, Name(ms[..j]))
    decreases |ms|
  {
    hide Tick, Name, Ons;
    var init := ms[..|ms| - 1];
    if j < |init| {
      assert init[..j] == ms[..j] && init[..j + 1] == ms[..j + 1];
      OffAt(init, key, j);
    } else {
      assert ms[..j] == init && ms[..j + 1] == ms;
    }
  }

  /** Where each datum of a note comes from: pitch, channel, velocity, program and start from its note-on,
      message `on`, the rest from its note-off, message `off`, as many note-ons and note-offs before them. */
  lemma NoteData(m: TempoMap, ms: seq<Message>, key: Key, on: nat, off: nat)
    requires m.tpb > 0 && on < |ms| && off < |ms| && StartsNote(ms[on].body, key) && EndsNote(ms[off].body, key)
    requires PendingFor(ms[..off], key) != [] && |Ons(ms[..on], key)| == |Offs(ms[..off], key)|
    ensures var i := |Ons(ms[..on], key)|;
            i < |NotesFor(m, ms, key)| &&
            var n := NotesFor(m, ms, key)[i];
            n.channel == ms[on].body.channel && n.pitch == ms[on].body.note &&
            n.velocity == ms[on].body.velocity && n.program == Program(ms[..on], n.channel) &&
            n.isDrum == (n.channel == 9) && n.offVelocity == ms[off].body.velocity &&
            n.trackName == Name(ms[..off]) &&
            n.startSec == Seconds(m, Tick(ms[..on + 1])) && n.endSec == Seconds(m, Tick(ms[..off + 1])) &&
            n.durationSec == n.endSec - n.startSec &&
            n.startBeat == Tick(ms[..on + 1]) as real / m.tpb as real &&
            n.endBeat == Tick(ms[..off + 1]) as real / m.tpb as real && n.durationBeats == n.endBeat - n.startBeat
  {
    hide Ons, Offs, Tick, Program, Name, Seconds, PendingFor;
    OnAt(ms, key, on);
    OffAt(ms, key, off);
  }

  // ----- the reader -----

  function ByStart(a: Note, b: Note): bool {
    a.startSec < b.startSec || (a.startSec == b.startSec &&
      (a.channel < b.channel || (a.channel == b.channel && a.pitch <= b.pitch)))
  }

  function At(pending: map<Key, seq<On>>, key: Key): seq<On> {
    if key in pending then pending[key] else []
  }

  /** What one more message changes for a key. */
  lemma OneMore(m: TempoMap, pre: seq<Message>, msg: Message, key: Key)
    requires m.tpb > 0
    ensures var post, q := pre + [msg], PendingFor(pre, key);
            var off := Off(Tick(post), if EndsNote(msg.body, key) then msg.body.velocity else 0, Name(pre));
            if StartsNote(msg.body, key) then
              PendingFor(post, key) == q + [On(Tick(post), msg.body.velocity, Program(pre, key.0))] &&
              NotesFor(m, post, key) == NotesFor(m, pre, key)
            else if EndsNote(msg.body, key) && q != [] then
              PendingFor(post, key) == q[1..] &&
              NotesFor(m, post, key) == NotesFor(m, pre, key) + [MakeNote(m, key, q[0], off)]
            else PendingFor(post, key) == q && NotesFor(m, post, key) == NotesFor(m, pre, key)
  {
    hide Program, Name, Tick, MakeNote, Ons, Offs;
    OnsAndOffs(pre, msg, key);
  }

  lemma OnsAndOffs(pre: seq<Message>, msg: Message, key: Key)
    ensures var post := pre + [msg];
            Ons(post, key) == Ons(pre, key) +
              (if StartsNote(msg.body, key) then [On(Tick(post), msg.body.velocity, Program(pre, key.0))] else []) &&
            Offs(post, key) == Offs(pre, key) +
              if EndsNote(msg.body, key) && |Offs(pre, key)| < |Ons(pre, key)| then
                [Off(Tick(post), msg.body.velocity, Name(pre))] else []
  {
    hide Program, Name, Tick;
    var post := pre + [msg];
    assert post[..|post| - 1] == pre && post[|post| - 1] == msg;
  }

  lemma FilterMore(notes: seq<Note>, n: Note, key: Key)
    ensures Filter(notes + [n], OfKey(key)) == Filter(notes, OfKey(key)) + if OfKey(key)(n) then [n] else []
  {
    FilterAppend(notes, [n], OfKey(key));
    FilterOne(n, OfKey(key));
  }

  /** What the reader holds between two messages. */
  datatype State = State(
    absTick: nat, name: string, programs: map<int, int>, pending: map<Key, seq<On>>, notes: seq<Note>)

  function InForce(programs: map<int, int>, channel: int): int {
    if channel in programs then programs[channel] else 0
  }

  ghost predicate Reads(m: TempoMap, ms: seq<Message>, s: State)
    requires m.tpb > 0
  {
    && s.absTick == Tick(ms) && s.name == Name(ms)
    && (forall c: int :: InForce(s.programs, c) == Program(ms, c))
    && (forall key: Key :: At(s.pending, key) == PendingFor(ms, key))
    && (forall key: Key :: Filter(s.notes, OfKey(key)) == NotesFor(m, ms, key))
  }

  function Start(s: State, key: Key, velocity: nat): State {
    var on := On(s.absTick, velocity, InForce(s.programs, key.0));
    s.(pending := s.pending[key := At(s.pending, key) + [on]])
  }

  function End(m: TempoMap, s: State, key: Key, velocity: nat): State
    requires m.tpb > 0
  {
    var q := At(s.pending, key);
    if q == [] then s else
    s.(pending := s.pending[key := q[1..]],
       notes := s.notes + [MakeNote(m, key, q[0], Off(s.absTick, velocity, s.name))])
  }

  function Advance(m: TempoMap, before: State, msg: Message): State
    requires m.tpb > 0
  {
    var s := before.(absTick := before.absTick + msg.time);
    match msg.body
    case TrackName(n) => s.(name := n)
    case ProgramChange(c, p) => s.(programs := s.programs[c := p])
    case NoteOn(c, n, v) => if v > 0 then Start(s, (c, n), v) else End(m, s, (c, n), v)
    case NoteOff(c, n, v) => End(m, s, (c, n), v)
    case _ => s
  }

  lemma AdvanceReads(m: TempoMap, pre: seq<Message>, s: State, msg: Message)
    requires m.tpb > 0 && Reads(m, pre, s)
    ensures Reads(m, pre + [msg], Advance(m, s, msg))
  {
    hide PendingFor, NotesFor, At, Filter, End, Start, OfKey;
    var t, post := Advance(m, s, msg), pre + [msg];
    AdvanceReadsOther(m, pre, s, msg);
    forall key: Key
      ensures At(t.pending, key) == PendingFor(post, key) && Filter(t.notes, OfKey(key)) == NotesFor(m, post, key)
    {
      AdvanceReadsKey(m, pre, s, msg, key);
    }
  }

  lemma AdvanceReadsOther(m: TempoMap, pre: seq<Message>, s: State, msg: Message)
    requires m.tpb > 0 && s.absTick == Tick(pre) && s.name == Name(pre)
    requires forall c: int :: InForce(s.programs, c) == Program(pre, c)
    ensures var t, post := Advance(m, s, msg), pre + [msg];
            t.absTick == Tick(post) && t.name == Name(post) &&
            forall c: int :: InForce(t.programs, c) == Program(post, c)
  {
    hide PendingFor, NotesFor, At, MakeNote;
    assert (pre + [msg])[..|pre|] == pre;
    assert msg.body.ProgramChange? || Advance(m, s, msg).programs == s.programs;
  }

  lemma AdvanceReadsKey(m: TempoMap, pre: seq<Message>, s: State, msg: Message, key: Key)
    requires m.tpb > 0 && s.absTick == Tick(pre) && s.name == Name(pre)
    requires InForce(s.programs, key.0) == Program(pre, key.0)
    requires At(s.pending, key) == PendingFor(pre, key) && Filter(s.notes, OfKey(key)) == NotesFor(m, pre, key)
    ensures var t, post := Advance(m, s, msg), pre + [msg];
            At(t.pending, key) == PendingFor(post, key) && Filter(t.notes, OfKey(key)) == NotesFor(m, post, key)
  {
    hide PendingFor, NotesFor, Filter, Program, Name;
    OneMore(m, pre, msg, key);
    assert (pre + [msg])[..|pre|] == pre;
    var t := Advance(m, s, msg);
    if t.notes != s.notes {
      FilterMore(s.notes, t.notes[|s.notes|], key);
    }
  }

  method PairNotes(m: TempoMap, ms: seq<Message>) returns (notes: seq<Note>, name: string, pending: map<Key, seq<On>>)
    requires Valid(m)
    ensures name == Name(ms)
    ensures forall key: Key :: At(pending, key) == PendingFor(ms, key)
    ensures forall key: Key :: Filter(notes, OfKey(key)) == NotesFor(m, ms, key)
  {
    name, notes, pending := "", [], map[];
    var programs: map<int, int> := map[];
    var absTick: nat := 0;
    forall key: Key ensures NotesFor(m, [], key) == [] {}
    assert ms[..0] == [];
    for i := 0 to |ms|
      invariant Reads(m, ms[..i], State(absTick, name, programs, pending, notes))
    {
      ghost var before := State(absTick, name, programs, pending, notes);
      assert ms[..i + 1] == ms[..i] + [ms[i]];
      AdvanceReads(m, ms[..i], before, ms[i]);
      absTick := absTick + ms[i].time;
      match ms[i].body {
        case TrackName(n) => name := n;
        case ProgramChange(c, p) => programs := programs[c := p];
        case NoteOn(c, n, v) =>
          if v > 0 {
            pending := pending[(c, n) := At(pending, (c, n)) + [On(absTick, v, InForce(programs, c))]];
          } else {
            notes, pending := EndNote(m, notes, pending, (c, n), Off(absTick, v, name));
          }
        case NoteOff(c, n, v) => notes, pending := EndNote(m, notes, pending, (c, n), Off(absTick, v, name));
        case _ =>
      }
      assert State(absTick, name, programs, pending, notes) == Advance(m, before, ms[i]);
    }
    assert ms[..|ms|] == ms;
  }

  /** Ends the oldest pending note of the key, if there is one. */
  method EndNote(m: TempoMap, notes: seq<Note>, pending: map<Key, seq<On>>, key: Key, off: Off)
    returns (notes': seq<Note>, pending': map<Key, seq<On>>)
    requires Valid(m)
    ensures var q := At(pending, key);
            if q == [] then notes' == notes && pending' == pending
            else notes' == notes + [MakeNote(m, key, q[0], off)] && pending' == pending[key := q[1..]]
  {
    notes', pending' := notes, pending;
    if key in pending && pending[key] != [] {
      var on := pending[key][0];
      pending' := pending[key := pending[key][1..]];
      var startSec := TickToSec(m, on.tick);
      var endSec := TickToSec(m, off.tick);
      var startBeat, endBeat := Beat(m, on.tick), Beat(m, off.tick);
      notes' := notes + [Note(key.1, key.0, on.velocity, off.velocity, on.program, key.0 == DRUM_CHANNEL, off.trackName,
                              startSec, endSec, endSec - startSec, startBeat, endBeat, endBeat - startBeat)];
    }
  }

  /** A track's notes, sorted by start, channel and pitch.  The sort only permutes them, and leaves
      the notes of each key in the order in which they were started. */
  method ParseTrack(m: TempoMap, ms: seq<Message>) returns (track: Track, pending: map<Key, seq<On>>)
    requires Valid(m)
    ensures track.name == Name(ms) && Sorted(track.notes, ByStart)
    ensures forall i, j :: 0 <= i < j < |track.notes| ==>
              var a, b := track.notes[i], track.notes[j];
              a.startSec < b.startSec || (a.startSec == b.startSec &&
                (a.channel < b.channel || (a.channel == b.channel && a.pitch <= b.pitch)))
    ensures forall key: Key :: Filter(track.notes, OfKey(key)) == NotesFor(m, ms, key)
    ensures forall key: Key :: At(pending, key) == PendingFor(ms, key)
    ensures forall key: Key :: |Filter(track.notes, OfKey(key))| <= |Ons(ms, key)| &&
              At(pending, key) == Ons(ms, key)[|Filter(track.notes, OfKey(key))|..]
  {
    var notes, name;
    notes, name, pending := PairNotes(m, ms);
    SortSorts(notes, ByStart);
    forall key: Key ensures Filter(Sort(notes, ByStart), OfKey(key)) == NotesFor(m, ms, key) {
      NotesInOrder(m, ms, key);
      SortKeepsOrder(notes, ByStart, OfKey(key));
    }
    track := Track(name, Sort(notes, ByStart));
  }

  lemma NotesInOrder(m: TempoMap, ms: seq<Message>, key: Key)
    requires Valid(m)
    ensures Sorted(NotesFor(m, ms, key), ByStart)
  {
    TicksAreOrdered(ms, key);
    var ns := NotesFor(m, ms, key);
    forall i, j | 0 <= i < j < |ns| ensures ByStart(ns[i], ns[j]) {
      SecondsIncrease(m, Ons(ms, key)[j].tick, Ons(ms, key)[i].tick);
    }
  }
}
