/**
  Reactive signals: a source holds a value, a derived signal recomputes from the signals it was
  declared to depend on.  A change runs depth first through the dependents and stops where a
  recomputed value is unchanged.  The derive function is taken to be a pure function of the
  declared dependencies' values; a locked region is one atomic step.
 */
module Signals {
  import opened Options

  class Signal<T(==)> {
    var value: T
    const deriveFn: Option<seq<T> -> T>
    const dependencies: seq<Signal<T>>
    var dependents: seq<Signal<T>>
    ghost const rank: nat // how many signals were created before this one

    /** A source if `deriveFn` is None, else a derived signal not yet known to its dependencies. */
    constructor (initial: T, deriveFn: Option<seq<T> -> T>, dependencies: seq<Signal<T>>, ghost rank: nat)
      ensures value == initial && this.deriveFn == deriveFn && this.dependencies == dependencies
      ensures dependents == [] && this.rank == rank
    {
      value := initial;
      this.deriveFn, this.dependencies, this.rank := deriveFn, dependencies, rank;
      dependents := [];
    }

    method AddDependent(dependent: Signal<T>)
      modifies this`dependents
      ensures dependents == if dependent in old(dependents) then old(dependents) else old(dependents) + [dependent]
    {
      if dependent !in dependents {
        dependents := dependents + [dependent];
      }
    }

    /** Recomputes this signal and, if its value changed, everything that depends on it. */
    method Rederive(ghost world: set<Signal<T>>, ghost n: nat)
      requires this in world && Wired(world, n)
      modifies world
      ensures Wired(world, n) && SameWiring(world)
      ensures Stale(world, n) <= old(Stale(world, n)) - {this}
      ensures forall s <- world :: s.deriveFn.None? || s.rank < rank ==> s.value == old(s.value)
      decreases n - rank, 1
    {
      if deriveFn.None? {
        return;
      }
      var latest := deriveFn.value(Inputs(dependencies));
      if latest != value {
        value := latest;
        NotifyDependents(world, n);
      }
    }

    method NotifyDependents(ghost world: set<Signal<T>>, ghost n: nat)
      requires this in world && Wired(world, n)
      modifies world
      ensures Wired(world, n) && SameWiring(world)
      ensures Stale(world, n) <= old(Stale(world, n)) - Elements(dependents)
      ensures forall s <- world :: s.deriveFn.None? || s.rank <= rank ==> s.value == old(s.value)
      decreases n - rank, 0
    {
      for i := 0 to |dependents|
        invariant Wired(world, n) && SameWiring(world)
        invariant Stale(world, n) <= old(Stale(world, n)) - Elements(dependents[..i])
        invariant forall s <- world :: s.deriveFn.None? || s.rank <= rank ==> s.value == old(s.value)
      {
        dependents[i].Rederive(world, n);
        assert dependents[..i + 1] == dependents[..i] + [dependents[i]];
      }
      assert dependents[..|dependents|] == dependents;
    }

    /** Fails on a derived signal. */
    method Set(v: T, ghost world: set<Signal<T>>, ghost n: nat) returns (ok: bool)
      requires this in world && Settled(world, n)
      modifies world
      ensures Settled(world, n) && SameWiring(world)
      ensures ok == deriveFn.None?
      ensures !ok ==> forall s <- world :: s.value == old(s.value)
      ensures ok ==> value == v && forall s <- world :: s.deriveFn.None? && s != this ==> s.value == old(s.value)
    {
      if deriveFn.Some? {
        return false;
      }
      value := v;
      NotifyDependents(world, n);
      ok := true;
    }

    /** Fails on a derived signal. */
    method Update(f: T -> T, ghost world: set<Signal<T>>, ghost n: nat) returns (ok: bool)
      requires this in world && Settled(world, n)
      modifies world
      ensures Settled(world, n) && SameWiring(world)
      ensures ok == deriveFn.None?
      ensures !ok ==> forall s <- world :: s.value == old(s.value)
      ensures ok ==> value == f(old(value))
      ensures ok ==> forall s <- world :: s.deriveFn.None? && s != this ==> s.value == old(s.value)
    {
      if deriveFn.Some? {
        return false;
      }
      value := f(value);
      NotifyDependents(world, n);
      ok := true;
    }

    /** Fails without dependencies. */
    static method Derive(f: seq<T> -> T, ds: seq<Signal<T>>, ghost world: set<Signal<T>>, ghost n: nat)
      returns (r: Option<Signal<T>>)
      requires Settled(world, n) && forall d <- ds :: d in world
      modifies world
      ensures forall s <- world :: s.value == old(s.value)
      ensures r.None? <==> ds == []
      ensures r.None? ==> Settled(world, n)
      ensures r.Some? ==> fresh(r.value) && Settled(world + {r.value}, n + 1)
      ensures r.Some? ==> r.value.deriveFn == Some(f) && r.value.dependencies == ds && r.value.rank == n
    {
      if ds == [] {
        return None;
      }
      var signal := new Signal(f(Inputs(ds)), Some(f), ds, n);
      signal.Register(world);
      ghost var all := world + {signal};
      forall s | s in all ensures WiredAt(s, all, n + 1) {
        if s in world {
          assert old(WiredAt(s, world, n));
        }
      }
      forall s | s in world ensures Inputs(s.dependencies) == old(Inputs(s.dependencies)) {}
      assert Inputs(ds) == old(Inputs(ds));
      r := Some(signal);
    }

    /** Makes every dependency know this signal. */
    method Register(ghost world: set<Signal<T>>)
      requires this !in world && forall d <- dependencies :: d in world
      requires forall s <- world :: this !in s.dependents
      modifies world
      ensures forall s <- world :: s.value == old(s.value)
      ensures forall s <- world :: s.dependents == old(s.dependents) + if s in dependencies then [this] else []
    {
      for i := 0 to |dependencies|
        invariant forall s <- world :: s.value == old(s.value)
        invariant forall s <- world :: s.dependents == old(s.dependents) + if s in dependencies[..i] then [this] else []
      {
        dependencies[i].AddDependent(this);
        assert dependencies[..i + 1] == dependencies[..i] + [dependencies[i]];
      }
      assert dependencies[..|dependencies|] == dependencies;
    }
  }

  /** The values the dependencies have now. */
  function Inputs<T>(ds: seq<Signal<T>>): (vs: seq<T>)
    ensures |vs| == |ds| && forall i :: 0 <= i < |ds| ==> vs[i] == ds[i].value
    reads ds
  {
    if ds == [] then [] else [ds[0].value] + Inputs(ds[1..])
  }

  ghost function Elements<A>(xs: seq<A>): set<A> {
    set x | x in xs
  }

  /** A signal and its neighbours: its dependencies were created earlier and know it, its dependents
      declare it, and each is listed once. */
  ghost predicate WiredAt<T>(s: Signal<T>, world: set<Signal<T>>, n: nat)
    requires s in world
    reads world
  {
    && s.rank < n && (s.deriveFn.Some? <==> s.dependencies != [])
    && (forall d <- s.dependencies :: d in world && d.rank < s.rank && s in d.dependents)
    && (forall d <- s.dependents :: d in world && s in d.dependencies)
    && forall i, j :: 0 <= i < j < |s.dependents| ==> s.dependents[i] != s.dependents[j]
  }

  /** The first `n` signals created.  Ranks grow along the edges, so there are no cycles. */
  ghost predicate Wired<T>(world: set<Signal<T>>, n: nat)
    reads world
  {
    forall s <- world :: WiredAt(s, world, n)
  }

  /** The derived signals whose value is not what their derive function gives now. */
  ghost function Stale<T>(world: set<Signal<T>>, n: nat): set<Signal<T>>
    requires Wired(world, n)
    reads world
  {
    set s | s in world && s.deriveFn.Some? && s.value != s.deriveFn.value(Inputs(s.dependencies))
  }

  /** Everything derived is up to date. */
  ghost predicate Settled<T>(world: set<Signal<T>>, n: nat)
    reads world
  {
    Wired(world, n) && Stale(world, n) == {}
  }

  /** Nobody's list of dependents changed. */
  twostate predicate SameWiring<T>(world: set<Signal<T>>)
    reads world
  {
    forall s <- world :: s.dependents == old(s.dependents)
  }
}
