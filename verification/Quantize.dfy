/**
  Snapping notes to a grid of slots, and the grid derived from the greatest common divisor of the
  notes' ticks: how far notes move, that their order is kept, and exactly when nothing moves at all.
 */
module Quantize {
  import opened StableSort
  import opened TempoMap
  import opened NotePairing

  /** Python's `round`: to the nearest integer, halves to the even one. */
  function Round(x: real): (r: int)
    ensures -0.5 <= x - r as real <= 0.5
  {
    var f := x.Floor;
    var d := x - f as real;
    if d < 0.5 || (d == 0.5 && f % 2 == 0) then f else f + 1
  }

  lemma RoundIsMonotone(x: real, y: real)
    requires x <= y
    ensures Round(x) <= Round(y)
  {
  }

  lemma RoundOfInteger(n: int)
    ensures Round(n as real) == n
  {
  }

  predicate IsInteger(x: real) {
    x.Floor as real == x
  }

  function Abs(x: real): real {
    if x < 0.0 then -x else x
  }

  // ----- snapping a note -----

  datatype QuantizedNote = QuantizedNote(
    startSec: real, endSec: real, durationSec: real, startSlot: int, endSlot: int, durationSlots: int,
    startErrorSec: real, endErrorSec: real, source: Note)

  /** The slot nearest to a time, and the time of a slot. */
  function SlotOf(x: real, bps: real): int {
    Round(x * bps)
  }

  function TimeOf(slot: int, bps: real): real
    requires bps > 0.0
  {
    slot as real / bps
  }

  function FromNote(n: Note, bps: real, minSlots: int): QuantizedNote
    requires bps > 0.0
  {
    var startSlot, rounded := SlotOf(n.startSec, bps), SlotOf(n.endSec, bps);
    var endSlot := if rounded - startSlot < minSlots then startSlot + minSlots else rounded;
    var s, e := TimeOf(startSlot, bps), TimeOf(endSlot, bps);
    QuantizedNote(s, e, e - s, startSlot, endSlot, endSlot - startSlot, Abs(n.startSec - s), Abs(n.endSec - e), n)
  }

  /** A slot boundary nearest to a time is at most half a slot away. */
  lemma SnapDistance(x: real, bps: real)
    requires bps > 0.0
    ensures Abs(x - TimeOf(SlotOf(x, bps), bps)) <= 0.5 / bps
    ensures Abs(x - TimeOf(SlotOf(x, bps), bps)) == 0.0 <==> IsInteger(x * bps)
  {
    var k := Round(x * bps) as real;
    var e := x * bps - k;
    assert x - k / bps == e / bps by {
      assert x * bps / bps == x;
      assert (x * bps - k) / bps == x * bps / bps - k / bps;
    }
    Quotients(e, 0.5, bps);
    Quotients(-0.5, e, bps);
    assert -0.5 / bps == -(0.5 / bps);
    if e == 0.0 {
      RoundOfInteger((x * bps).Floor);
    } else {
      assert (e / bps) * bps == e;
      if IsInteger(x * bps) {
        RoundOfInteger((x * bps).Floor);
        assert false;
      }
    }
  }

  lemma Quotients(a: real, b: real, d: real)
    requires a <= b && d > 0.0
    ensures a / d <= b / d
  {
    if a < b {
      Divided(a, b, d);
    }
  }

  lemma Scaled(x: real, y: real, c: real)
    requires x <= y && c > 0.0
    ensures x * c <= y * c
  {
    assert (y - x) * c >= 0.0;
  }

  lemma SlotsKeepOrder(a: Note, b: Note, bps: real, minSlots: int)
    requires bps > 0.0 && a.startSec <= b.startSec
    ensures FromNote(a, bps, minSlots).startSlot <= FromNote(b, bps, minSlots).startSlot
  {
    hide SlotOf, TimeOf;
    SlotsMonotone(a.startSec, b.startSec, bps);
  }

  lemma SlotsMonotone(x: real, y: real, bps: real)
    requires x <= y && bps > 0.0
    ensures SlotOf(x, bps) <= SlotOf(y, bps)
  {
    hide Round;
    Scaled(x, y, bps);
    RoundIsMonotone(x * bps, y * bps);
  }

  /** Snapping moves a start by at most half a slot, an end too unless the note is stretched to its
      minimum length, which every note gets. */
  lemma SnapIsClose(a: Note, bps: real, minSlots: int)
    requires bps > 0.0
    ensures var q := FromNote(a, bps, minSlots);
            q.startErrorSec <= 0.5 / bps && q.durationSlots >= minSlots &&
            (q.durationSlots > minSlots ==> q.endErrorSec <= 0.5 / bps)
  {
    hide Abs, SlotOf, TimeOf;
    SnapDistance(a.startSec, bps);
    SnapDistance(a.endSec, bps);
  }

  /** The slot nearest to a time; halfway between two slots it is the even one. */
  predicate Nearest(slot: int, x: real, bps: real) {
    var off := x * bps - slot as real;
    -0.5 <= off <= 0.5 && (off == 0.5 || off == -0.5 ==> slot % 2 == 0)
  }

  lemma RoundTies(y: real)
    ensures y - Round(y) as real == 0.5 || y - Round(y) as real == -0.5 ==> Round(y) % 2 == 0
  {
  }

  lemma SlotIsNearest(x: real, bps: real)
    ensures Nearest(SlotOf(x, bps), x, bps)
  {
    hide Round;
    RoundTies(x * bps);
  }

  lemma NearestIsUnique(a: int, b: int, x: real, bps: real)
    requires Nearest(a, x, bps) && Nearest(b, x, bps)
    ensures a == b
  {
    var y := x * bps;
    assert -1.0 <= (a - b) as real <= 1.0;
    assert (a - b) as real == 1.0 ==> y - b as real == 0.5 && y - a as real == -0.5;
    assert (a - b) as real == -1.0 ==> y - a as real == 0.5 && y - b as real == -0.5;
  }

  lemma RoundKeepsLength(x: real, y: real, m: int)
    requires y - x >= (m + 1) as real
    ensures Round(y) - Round(x) >= m
  {
  }

  /** The note starts at the nearest slot.  It ends at the nearest one, or, when that leaves less than the
      minimum length, exactly the minimum length after its start. */
  lemma SnapsToNearest(n: Note, bps: real, minSlots: int)
    requires bps > 0.0
    ensures var q := FromNote(n, bps, minSlots);
            Nearest(q.startSlot, n.startSec, bps) &&
            exists near: int :: Nearest(near, n.endSec, bps) &&
              q.endSlot == if near - q.startSlot >= minSlots then near else q.startSlot + minSlots
  {
    hide Nearest, SlotOf;
    SlotIsNearest(n.startSec, bps);
    SlotIsNearest(n.endSec, bps);
  }

  /** A note at least one slot longer than the minimum ends within half a slot of where it did. */
  lemma LongNotesKeepTheirEnd(n: Note, bps: real, minSlots: int)
    requires bps > 0.0 && (n.endSec - n.startSec) * bps >= (minSlots + 1) as real
    ensures var q := FromNote(n, bps, minSlots);
            Nearest(q.endSlot, n.endSec, bps) && q.endErrorSec <= 0.5 / bps
  {
    hide Round, Abs, Nearest;
    SlotIsNearest(n.endSec, bps);
    assert n.endSec * bps - n.startSec * bps == (n.endSec - n.startSec) * bps;
    RoundKeepsLength(n.startSec * bps, n.endSec * bps, minSlots);
    SnapDistance(n.endSec, bps);
  }

  /** The times are those of the slots, the errors how far they are from the note's own. */
  lemma SnappedTimes(n: Note, bps: real, minSlots: int)
    requires bps > 0.0
    ensures var q := FromNote(n, bps, minSlots);
            q.startSec * bps == q.startSlot as real && q.endSec * bps == q.endSlot as real &&
            q.durationSec == q.endSec - q.startSec && q.durationSlots == q.endSlot - q.startSlot && q.source == n &&
            q.startErrorSec >= 0.0 && q.startErrorSec in {n.startSec - q.startSec, q.startSec - n.startSec} &&
            q.endErrorSec >= 0.0 && q.endErrorSec in {n.endSec - q.endSec, q.endSec - n.endSec}
  {
    hide SlotOf;
    var q := FromNote(n, bps, minSlots);
    assert q.startSlot as real / bps * bps == q.startSlot as real;
    assert q.endSlot as real / bps * bps == q.endSlot as real;
  }

  function NoteError(n: Note, bps: real): real
    requires bps > 0.0
  {
    Abs(n.startSec - TimeOf(SlotOf(n.startSec, bps), bps)) + Abs(n.endSec - TimeOf(SlotOf(n.endSec, bps), bps))
  }

  function TotalError(ns: seq<Note>, bps: real, weight: Note -> real): real
    requires bps > 0.0
  {
    if ns == [] then 0.0 else weight(ns[0]) * NoteError(ns[0], bps) + TotalError(ns[1..], bps, weight)
  }

  // ----- the grid from the common divisor -----

  function Gcd(a: nat, b: nat): nat
    decreases b
  {
    if b == 0 then a else Gcd(b, a % b)
  }

  function Times(g: nat, k: nat): nat {
    g * k
  }

  ghost predicate Divides(g: nat, n: nat) {
    g > 0 && exists k: nat :: n == Times(g, k)
  }

  lemma DividesSum(g: nat, a: nat, q: nat, r: nat)
    requires Divides(g, a) && Divides(g, r)
    ensures Divides(g, a * q + r)
  {
    var x: nat :| a == Times(g, x);
    var y: nat :| r == Times(g, y);
    assert a * q == g * (x * q) by {
      assert g * x * q == g * (x * q);
    }
    assert a * q + r == Times(g, x * q + y);
  }

  lemma {:induction false} GcdDivides(a: nat, b: nat)
    requires a > 0 || b > 0
    ensures Divides(Gcd(a, b), a) && Divides(Gcd(a, b), b)
    decreases b
  {
    if b == 0 {
      assert a == Times(a, 1) && 0 == Times(a, 0);
    } else {
      GcdDivides(b, a % b);
      DividesSum(Gcd(a, b), b, a / b, a % b);
    }
  }

  lemma DividesTransitive(g: nat, h: nat, n: nat)
    requires Divides(g, h) && Divides(h, n)
    ensures Divides(g, n)
  {
    var k: nat :| n == Times(h, k);
    assert 0 == Times(g, 0);
    DividesSum(g, h, k, 0);
  }

  lemma TimesOrder(d: nat, x: nat, y: nat)
    requires d > 0 && x < y
    ensures Times(d, x) < Times(d, y)
  {
    assert d * y == d * x + d * (y - x);
    PositiveProduct(d, y - x);
  }

  lemma DividesRest(d: nat, a: nat, b: nat)
    requires Divides(d, a) && Divides(d, b) && b <= a
    ensures Divides(d, a - b)
  {
    var x: nat :| a == Times(d, x);
    var y: nat :| b == Times(d, y);
    if x < y {
      TimesOrder(d, x, y);
    } else {
      assert a - b == Times(d, x - y);
    }
  }

  lemma DividesMultiple(d: nat, a: nat, q: nat)
    requires Divides(d, a)
    ensures Divides(d, a * q)
  {
    assert 0 == Times(d, 0);
    DividesSum(d, a, q, 0);
  }

  /** Every common divisor divides the greatest one. */
  lemma {:induction false} GcdIsGreatest(d: nat, a: nat, b: nat)
    requires Divides(d, a) && Divides(d, b)
    ensures Divides(d, Gcd(a, b))
    decreases b
  {
    if b > 0 {
      DividesMultiple(d, b, a / b);
      assert a - b * (a / b) == a % b;
      DividesRest(d, a, b * (a / b));
      GcdIsGreatest(d, b, a % b);
    }
  }

  lemma StaysGreatest(g: nat, ts: seq<nat>, t: nat)
    requires forall d: nat :: AllDivided(d, ts) ==> Divides(d, g)
    ensures forall d: nat :: AllDivided(d, ts + [t]) ==> Divides(d, Gcd(g, t))
  {
    forall d: nat | AllDivided(d, ts + [t]) ensures Divides(d, Gcd(g, t)) {
      assert forall x <- ts :: x in ts + [t];
      assert t in ts + [t];
      assert AllDivided(d, ts);
      GcdIsGreatest(d, g, t);
    }
  }

  /** The greatest common divisor of some positive ticks, stopping early at 1. */
  method CommonDivisor(ticks: seq<nat>) returns (g: nat)
    requires ticks != [] && forall t <- ticks :: t > 0
    ensures g > 0 && AllDivided(g, ticks) && forall d: nat :: AllDivided(d, ticks) ==> Divides(d, g)
  {
    g := ticks[0];
    assert g in ticks && g == Times(g, 1);
    assert forall d: nat :: AllDivided(d, ticks[..1]) ==> Divides(d, ticks[..1][0]);
    var i := 1;
    while i < |ticks| && g != 1
      invariant 1 <= i <= |ticks| && g > 0 && AllDivided(g, ticks[..i])
      invariant forall d: nat :: AllDivided(d, ticks[..i]) ==> Divides(d, g)
    {
      GcdDivides(g, ticks[i]);
      StaysGreatest(g, ticks[..i], ticks[i]);
      NextDivisor(g, Gcd(g, ticks[i]), ticks[..i], ticks[i]);
      assert ticks[..i + 1] == ticks[..i] + [ticks[i]];
      g := Gcd(g, ticks[i]);
      i := i + 1;
    }
    forall t | t in ticks ensures Divides(g, t) {
      if g == 1 {
        assert t == Times(1, t);
      } else {
        assert ticks[..i] == ticks;
      }
    }
    assert forall t <- ticks[..i] :: t in ticks;
    assert forall d: nat :: AllDivided(d, ticks) ==> AllDivided(d, ticks[..i]);
  }

  ghost predicate AllDivided(g: nat, ts: seq<nat>) {
    forall t <- ts :: Divides(g, t)
  }

  lemma NextDivisor(g: nat, h: nat, ts: seq<nat>, t: nat)
    requires AllDivided(g, ts) && Divides(h, g) && Divides(h, t)
    ensures AllDivided(h, ts + [t])
  {
    forall x | x in ts ensures Divides(h, x) {
      DividesTransitive(h, g, x);
    }
  }

  /** The first tempo in beats per minute. */
  function PrimaryBpm(m: TempoMap): real
    requires Valid(m)
  {
    60_000_000.0 / m.events[0].tempo as real
  }

  function GridBps(m: TempoMap, g: nat): real
    requires Valid(m) && g > 0
  {
    m.tpb as real / g as real * (PrimaryBpm(m) / 60.0)
  }

  /** Both ends of every note are ticks of the map, as for notes read from a track. */
  ghost predicate OnTicks(m: TempoMap, ns: seq<Note>)
    requires m.tpb > 0
  {
    forall n <- ns :: (exists t: nat :: n.startSec == Seconds(m, t)) && exists t: nat :: n.endSec == Seconds(m, t)
  }

  /** The note starts or ends at tick `t`. */
  ghost predicate Touches(m: TempoMap, n: Note, t: nat)
    requires m.tpb > 0
  {
    n.startSec == Seconds(m, t) || n.endSec == Seconds(m, t)
  }

  /** `g` divides every tick a note starts or ends at. */
  ghost predicate DividesTicks(m: TempoMap, ns: seq<Note>, g: nat)
    requires m.tpb > 0
  {
    forall n <- ns, t: nat :: Touches(m, n, t) ==> Divides(g, t)
  }

  /** Every positive tick the first `i` notes touch is recorded. */
  ghost predicate Recorded(m: TempoMap, ns: seq<Note>, i: nat, ticks: seq<nat>)
    requires m.tpb > 0 && i <= |ns|
  {
    forall j, t: nat :: 0 <= j < i && t > 0 && Touches(m, ns[j], t) ==> t in ticks
  }

  /** What divides every tick of the notes divides what is recorded. */
  ghost predicate NothingElse(m: TempoMap, ns: seq<Note>, ticks: seq<nat>)
    requires m.tpb > 0
  {
    OnTicks(m, ns) ==> forall d: nat :: DividesTicks(m, ns, d) ==> AllDivided(d, ticks)
  }

  lemma RecordedDivides(m: TempoMap, ns: seq<Note>, ticks: seq<nat>, g: nat)
    requires m.tpb > 0 && Recorded(m, ns, |ns|, ticks) && g > 0 && AllDivided(g, ticks)
    ensures DividesTicks(m, ns, g) && (ticks == [] ==> ZeroTicks(m, ns))
  {
    assert 0 == Times(g, 0);
    forall n, t: nat | n in ns && Touches(m, n, t) ensures Divides(g, t) && (ticks == [] ==> t == 0) {
      var j :| 0 <= j < |ns| && ns[j] == n;
      assert Touches(m, ns[j], t);
      assert t > 0 ==> t in ticks;
    }
  }

  /** The grid comes from the greatest divisor of the notes' ticks, if any of them is positive. */
  ghost predicate IsGrid(m: TempoMap, ns: seq<Note>, bps: real, g: nat)
    requires Valid(m) && g > 0
  {
    DividesTicks(m, ns, g) && (bps == GridBps(m, g) || ZeroTicks(m, ns)) &&
    (!ZeroTicks(m, ns) ==> forall d: nat :: DividesTicks(m, ns, d) ==> Divides(d, g))
  }

  /** The grid of the notes' ticks.  Without a positive tick it is one slot per second. */
  method TickGcdBps(ns: seq<Note>, m: TempoMap, round: real -> int) returns (bps: real, ghost g: nat)
    requires Valid(m) && Rounding(round)
    ensures bps > 0.0
    ensures g > 0 && (OnTicks(m, ns) ==> IsGrid(m, ns, bps, g))
  {
    hide Divides, Seconds, DividesTicks, OnTicks, ZeroTicks;
    var ticks: seq<nat> := [];
    for i := 0 to |ns|
      invariant forall t <- ticks :: t > 0
      invariant Recorded(m, ns, i, ticks) && NothingElse(m, ns, ticks)
    {
      var a := SecToTick(m, ns[i].startSec, round);
      var b := SecToTick(m, ns[i].endSec, round);
      if OnTicks(m, ns) {
        FoundTicks(m, ns, i, a, b);
      }
      if a > 0 { ticks := ticks + [a]; }
      if b > 0 { ticks := ticks + [b]; }
      if b - a > 0 { ticks := ticks + [b - a]; }
    }
    if ticks == [] {
      RecordedDivides(m, ns, ticks, 1);
      return 1.0, 1;
    }
    var divisor := CommonDivisor(ticks);
    RecordedDivides(m, ns, ticks, divisor);
    g := divisor;
    bps := m.tpb as real / divisor as real * (PrimaryBpm(m) / 60.0);
    GridIsPositive(m, divisor);
  }

  /** What divides every tick of the notes divides the three ticks recorded for note `i`. */
  lemma FoundTicks(m: TempoMap, ns: seq<Note>, i: nat, a: int, b: int)
    requires Valid(m) && OnTicks(m, ns) && i < |ns|
    requires forall t: nat :: ns[i].startSec == Seconds(m, t) ==> a == t
    requires forall t: nat :: ns[i].endSec == Seconds(m, t) ==> b == t
    ensures a >= 0 && b >= 0
    ensures forall d: nat :: DividesTicks(m, ns, d) ==>
              Divides(d, a) && Divides(d, b) && (b > a ==> Divides(d, b - a))
  {
    assert ns[i] in ns;
    assert Touches(m, ns[i], a) && Touches(m, ns[i], b);
    forall d: nat | DividesTicks(m, ns, d) ensures b > a ==> Divides(d, b - a) {
      if b > a {
        DividesRest(d, b, a);
      }
    }
  }

  /** Every note starts and ends at tick 0. */
  ghost predicate ZeroTicks(m: TempoMap, ns: seq<Note>)
    requires m.tpb > 0
  {
    forall n <- ns, t: nat :: Touches(m, n, t) ==> t == 0
  }

  // ----- when the grid is exact -----

  lemma UniqueQuotient(x: real, n: real, d: real)
    requires d > 0.0 && x * d == n
    ensures x == n / d
  {
  }

  lemma Rearranged(t: real, u: real, p: real, g: real, q: real)
    requires u > 0.0 && p > 0.0 && g > 0.0 && q > 0.0
    ensures t / (u * p) * (p / g * (u / q)) == t / (g * q)
  {
    var s, r, a := t / (u * p), p / g, u / q;
    assert u * p > 0.0 && g * q > 0.0;
    assert s * (u * p) == t && r * g == p && a * q == u;
    assert s * (r * a) * (g * q) == s * ((r * g) * (a * q));
    assert s * ((r * g) * (a * q)) == s * (p * u);
    assert s * (p * u) == s * (u * p);
    UniqueQuotient(s * (r * a), t, g * q);
  }

  lemma PerMinute(q: real)
    requires q > 0.0
    ensures 60_000_000.0 / q / 60.0 == 1_000_000.0 / q
  {
    var a := 1_000_000.0 / q;
    assert a * q == 1_000_000.0;
    assert (60.0 * a) * q == 60_000_000.0;
    UniqueQuotient(60.0 * a, 60_000_000.0, q);
  }

  /** In slots, a tick lies at its total tempo over the divisor times the first tempo. */
  lemma TickInSlots(m: TempoMap, t: nat, g: nat)
    requires Valid(m) && g > 0
    ensures Seconds(m, t) * GridBps(m, g) == Total(m, t) as real / (g * m.events[0].tempo) as real
  {
    var q := m.events[0].tempo;
    assert q > 0;
    PerMinute(q as real);
    Rearranged(Total(m, t) as real, 1_000_000.0, m.tpb as real, g as real, q as real);
    assert (1_000_000 * m.tpb) as real == 1_000_000.0 * m.tpb as real;
    assert (g * q) as real == g as real * q as real;
  }

  lemma IntegerQuotient(n: nat, d: nat)
    requires d > 0
    ensures IsInteger(n as real / d as real) <==> Divides(d, n)
  {
    var x := n as real / d as real;
    assert x * d as real == n as real;
    if x.Floor as real == x {
      assert x >= 0.0;
      var k: nat := x.Floor;
      assert (d * k) as real == n as real;
      assert n == Times(d, k);
    }
    if Divides(d, n) {
      var k: nat :| n == Times(d, k);
      assert (k * d) as real == n as real;
      UniqueQuotient(k as real, n as real, d as real);
    }
  }

  /** For any tempo map: a note of the grid moves not at all exactly if the divisor times the first
      tempo divides the total tempo up to its start and up to its end. */
  lemma ExactIff(m: TempoMap, n: Note, a: nat, b: nat, g: nat)
    requires Valid(m) && g > 0 && n.startSec == Seconds(m, a) && n.endSec == Seconds(m, b)
    requires GridBps(m, g) > 0.0
    ensures var d := g * m.events[0].tempo;
            NoteError(n, GridBps(m, g)) == 0.0 <==> Divides(d, Total(m, a)) && Divides(d, Total(m, b))
  {
    hide GridBps, SlotOf, TimeOf, Seconds, Abs;
    var bps, d := GridBps(m, g), g * m.events[0].tempo;
    assert m.events[0] in m.events;
    PositiveProduct(g, m.events[0].tempo);
    BoundaryExactIff(m, n.startSec, a, g);
    BoundaryExactIff(m, n.endSec, b, g);
    AbsPositive(n.startSec - TimeOf(SlotOf(n.startSec, bps), bps));
    AbsPositive(n.endSec - TimeOf(SlotOf(n.endSec, bps), bps));
  }

  lemma AbsPositive(x: real)
    ensures Abs(x) >= 0.0
  {
  }

  lemma BoundaryExactIff(m: TempoMap, x: real, t: nat, g: nat)
    requires Valid(m) && g > 0 && x == Seconds(m, t) && GridBps(m, g) > 0.0
    ensures var bps := GridBps(m, g);
            Abs(x - TimeOf(SlotOf(x, bps), bps)) == 0.0 <==> Divides(g * m.events[0].tempo, Total(m, t))
  {
    hide GridBps, SlotOf, TimeOf, Seconds, Abs;
    assert m.events[0] in m.events;
    PositiveProduct(g, m.events[0].tempo);
    TickInSlots(m, t, g);
    IntegerQuotient(Total(m, t), g * m.events[0].tempo);
    var bps := GridBps(m, g);
    SnapDistance(x, bps);
    assert x * bps == Total(m, t) as real / (g * m.events[0].tempo) as real;
  }

  lemma PositiveProduct(a: nat, b: nat)
    requires a > 0 && b > 0
    ensures a * b > 0
  {
  }

  lemma {:induction false} TotalOfOneTempo(m: TempoMap, t: nat)
    requires Valid(m) && |m.events| == 1
    ensures Total(m, t) == t * m.events[0].tempo
  {
    TotalInSegment(m, 1, t);
    assert Total(m, 0) == 0;
  }

  lemma ScaledDivides(g: nat, t: nat, q: nat)
    requires Divides(g, t) && q > 0
    ensures Divides(g * q, t * q)
  {
    var k: nat :| t == Times(g, k);
    assert t * q == g * k * q == g * q * k;
    assert t * q == Times(g * q, k);
    PositiveProduct(g, q);
  }

  lemma GridIsPositive(m: TempoMap, g: nat)
    requires Valid(m) && g > 0
    ensures GridBps(m, g) > 0.0
  {
    assert m.events[0] in m.events;
    var a, b := m.tpb as real / g as real, PrimaryBpm(m) / 60.0;
    Divided(0.0, m.tpb as real, g as real);
    Divided(0.0, 60_000_000.0, m.events[0].tempo as real);
    assert a > 0.0 && b > 0.0;
    assert a * b > 0.0;
  }

  /** With a single tempo the grid that `TickGcdBps` finds moves no note, whatever the weights. */
  lemma SingleTempoIsExact(m: TempoMap, ns: seq<Note>, bps: real, g: nat, weight: Note -> real)
    requires Valid(m) && |m.events| == 1 && OnTicks(m, ns) && bps > 0.0 && g > 0 && IsGrid(m, ns, bps, g)
    ensures (forall n <- ns :: NoteError(n, bps) == 0.0) && TotalError(ns, bps, weight) == 0.0
  {
    forall n | n in ns ensures NoteError(n, bps) == 0.0 {
      var a: nat :| n.startSec == Seconds(m, a);
      var b: nat :| n.endSec == Seconds(m, b);
      assert Touches(m, n, a) && Touches(m, n, b);
      if bps == GridBps(m, g) {
        TotalOfOneTempo(m, a);
        TotalOfOneTempo(m, b);
        assert m.events[0] in m.events;
        ScaledDivides(g, a, m.events[0].tempo);
        ScaledDivides(g, b, m.events[0].tempo);
        ExactIff(m, n, a, b, g);
      } else {
        ZeroIsExact(n, bps);
      }
    }
    NoErrorAddsUp(ns, bps, weight);
  }

  lemma ZeroIsExact(n: Note, bps: real)
    requires bps > 0.0 && n.startSec == 0.0 && n.endSec == 0.0
    ensures NoteError(n, bps) == 0.0
  {
    assert 0.0 * bps == 0.0;
    SnapDistance(0.0, bps);
  }

  lemma {:induction false} NoErrorAddsUp(ns: seq<Note>, bps: real, weight: Note -> real)
    requires bps > 0.0 && forall n <- ns :: NoteError(n, bps) == 0.0
    ensures TotalError(ns, bps, weight) == 0.0
  {
    if ns != [] {
      assert ns[0] in ns;
      NoErrorAddsUp(ns[1..], bps, weight);
    }
  }

  /** The notes read from a track start and end at ticks. */
  lemma ParsedNotesAreOnTicks(m: TempoMap, ms: seq<Message>, notes: seq<Note>)
    requires Valid(m) && forall key: Key :: Filter(notes, OfKey(key)) == NotesFor(m, ms, key)
    ensures OnTicks(m, notes)
  {
    forall n | n in notes
      ensures (exists t: nat :: n.startSec == Seconds(m, t)) && exists t: nat :: n.endSec == Seconds(m, t)
    {
      var key := (n.channel, n.pitch);
      FilterMembers(notes, OfKey(key), n);
      var i :| 0 <= i < |NotesFor(m, ms, key)| && NotesFor(m, ms, key)[i] == n;
      assert n.startSec == Seconds(m, Ons(ms, key)[i].tick) && n.endSec == Seconds(m, Offs(ms, key)[i].tick);
    }
  }

  /** The condition of `ExactIff` for every tick the notes touch. */
  ghost predicate AllExact(m: TempoMap, ns: seq<Note>, g: nat)
    requires Valid(m)
  {
    forall n <- ns, t: nat :: Touches(m, n, t) ==> Divides(g * m.events[0].tempo, Total(m, t))
  }

  lemma ErrorIsNotNegative(n: Note, bps: real)
    requires bps > 0.0
    ensures NoteError(n, bps) >= 0.0
  {
  }

  lemma Weighted(w: real, e: real)
    requires w > 0.0 && e >= 0.0
    ensures w * e >= 0.0 && (w * e == 0.0 <==> e == 0.0)
  {
  }

  /** A weighted sum of errors is zero exactly if all of them are. */
  lemma {:induction false} ErrorsAddUp(ns: seq<Note>, bps: real, weight: Note -> real)
    requires bps > 0.0 && forall n <- ns :: weight(n) > 0.0
    ensures TotalError(ns, bps, weight) >= 0.0
    ensures TotalError(ns, bps, weight) == 0.0 <==> forall n <- ns :: NoteError(n, bps) == 0.0
  {
    hide NoteError;
    if ns != [] {
      assert ns == [ns[0]] + ns[1..];
      ErrorIsNotNegative(ns[0], bps);
      Weighted(weight(ns[0]), NoteError(ns[0], bps));
      ErrorsAddUp(ns[1..], bps, weight);
    }
  }

  lemma NoteIsExactIff(m: TempoMap, ns: seq<Note>, bps: real, g: nat, n: Note)
    requires Valid(m) && OnTicks(m, ns) && bps > 0.0 && g > 0 && IsGrid(m, ns, bps, g) && n in ns
    ensures NoteError(n, bps) == 0.0 <==>
            forall t: nat :: Touches(m, n, t) ==> Divides(g * m.events[0].tempo, Total(m, t))
  {
    hide NoteError, GridBps, Divides;
    var a: nat :| n.startSec == Seconds(m, a);
    var b: nat :| n.endSec == Seconds(m, b);
    assert Touches(m, n, a) && Touches(m, n, b);
    forall t: nat | Touches(m, n, t) ensures t == a || t == b {
      SecondsIncrease(m, t, a);
      SecondsIncrease(m, t, b);
    }
    if bps == GridBps(m, g) {
      ExactIff(m, n, a, b, g);
    } else {
      ZeroIsExact(n, bps);
      assert m.events[0] in m.events;
      PositiveProduct(g, m.events[0].tempo);
      assert Divides(g * m.events[0].tempo, 0) by {
        ZeroIsDivided(g * m.events[0].tempo);
      }
    }
  }

  lemma ZeroIsDivided(d: nat)
    requires d > 0
    ensures Divides(d, 0)
  {
    assert 0 == Times(d, 0);
  }

  /** For any tempo map, on the grid `TickGcdBps` finds: with positive weights the total error is zero exactly if
      divisor times first tempo divides the total tempo up to every tick a note touches. */
  lemma FileIsExactIff(m: TempoMap, ns: seq<Note>, bps: real, g: nat, weight: Note -> real)
    requires Valid(m) && OnTicks(m, ns) && bps > 0.0 && g > 0 && IsGrid(m, ns, bps, g)
    requires forall n <- ns :: weight(n) > 0.0
    ensures TotalError(ns, bps, weight) == 0.0 <==> AllExact(m, ns, g)
  {
    hide NoteError, Divides, IsGrid, OnTicks, Touches;
    ErrorsAddUp(ns, bps, weight);
    forall n | n in ns
      ensures NoteError(n, bps) == 0.0 <==>
              forall t: nat :: Touches(m, n, t) ==> Divides(g * m.events[0].tempo, Total(m, t))
    {
      NoteIsExactIff(m, ns, bps, g, n);
    }
  }

  /** From the messages of a track to its notes, their grid, and when it moves none of them. */
  method TrackGrid(m: TempoMap, ms: seq<Message>, round: real -> int, weight: Note -> real)
    returns (track: Track, bps: real, ghost g: nat)
    requires Valid(m) && Rounding(round)
    ensures forall key: Key :: Filter(track.notes, OfKey(key)) == NotesFor(m, ms, key)
    ensures bps > 0.0 && g > 0 && IsGrid(m, track.notes, bps, g)
    ensures (forall n <- track.notes :: weight(n) > 0.0) ==>
              (TotalError(track.notes, bps, weight) == 0.0 <==> AllExact(m, track.notes, g))
    ensures |m.events| == 1 ==>
              (forall n <- track.notes :: NoteError(n, bps) == 0.0) && TotalError(track.notes, bps, weight) == 0.0
  {
    hide NoteError, Divides, IsGrid, OnTicks, AllExact, Filter, NotesFor, Valid;
    var pending;
    track, pending := ParseTrack(m, ms);
    ParsedNotesAreOnTicks(m, ms, track.notes);
    bps, g := TickGcdBps(track.notes, m, round);
    if forall n <- track.notes :: weight(n) > 0.0 {
      FileIsExactIff(m, track.notes, bps, g, weight);
    }
    if |m.events| == 1 {
      SingleTempoIsExact(m, track.notes, bps, g, weight);
    }
  }

  const TWO_TEMPI := TempoMap([TempoEvent(0, 500_000), TempoEvent(1, 250_000)], 1)

  /** With two tempi the grid found can miss: one beat at 120 and one at 240 beats per minute. */
  lemma TwoTempiCanMiss(n: Note, bps: real, g: nat)
    requires n.startSec == Seconds(TWO_TEMPI, 0) && n.endSec == Seconds(TWO_TEMPI, 2)
    requires g > 0 && Valid(TWO_TEMPI) && IsGrid(TWO_TEMPI, [n], bps, g)
    ensures OnTicks(TWO_TEMPI, [n]) && g == 2 && bps > 0.0 && NoteError(n, bps) != 0.0
  {
    hide NoteError;
    var m, es := TWO_TEMPI, TWO_TEMPI.events;
    forall t: nat | Touches(m, n, t) ensures Divides(2, t) {
      SecondsIncrease(m, t, 0);
      SecondsIncrease(m, t, 2);
      assert 0 == Times(2, 0) && 2 == Times(2, 1);
    }
    assert DividesTicks(m, [n], 2);
    assert n in [n] && Touches(m, n, 2);
    DivisorOfTwo(g);
    TempoBetween(es, 1, 0, DEFAULT_TEMPO);
    TempoBetween(es, 2, 1, DEFAULT_TEMPO);
    assert Total(m, 1) == 500_000;
    assert Total(m, 2) == 750_000;
    GridIsPositive(m, 2);
    ExactIff(m, n, 0, 2, 2);
    forall k: nat ensures 750_000 != Times(1_000_000, k) {}
  }

  lemma DivisorOfTwo(g: nat)
    requires Divides(2, g) && Divides(g, 2)
    ensures g == 2
  {
    var k: nat :| g == Times(2, k);
    var j: nat :| 2 == Times(g, j);
    assert j > 0;
    TimesAtLeast(g, j);
  }

  lemma TimesAtLeast(g: nat, j: nat)
    requires j > 0
    ensures Times(g, j) >= g
  {
    assert g * j == g + g * (j - 1);
  }

  lemma TwoTempiIsValid()
    ensures Valid(TWO_TEMPI)
  {
  }
}
