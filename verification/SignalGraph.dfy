/**
  Any sequence of creating sources, `derive`, `set` and `update`, and the value every signal then
  has: the pure function of the sources' current values that the declarations describe.
 */
module SignalGraph {
  import opened Options
  import opened Signals

  // ----- what the signals mean -----

  /** The declarations made so far; dependencies are given by creation order. */
  datatype Node<!T> = Source(value: T) | Derived(fn: seq<T> -> T, deps: seq<nat>)

  predicate Below(deps: seq<nat>, n: nat) {
    forall j :: 0 <= j < |deps| ==> deps[j] < n
  }

  ghost predicate Formed<T>(ns: seq<Node<T>>) {
    forall i :: 0 <= i < |ns| && ns[i].Derived? ==> ns[i].deps != [] && Below(ns[i].deps, i)
  }

  ghost function Denote<T>(ns: seq<Node<T>>, i: nat): T
    requires Formed(ns) && i < |ns|
    decreases i, 0
  {
    match ns[i]
    case Source(v) => v
    case Derived(fn, deps) => fn(DenoteAll(ns, deps, i))
  }

  ghost function DenoteAll<T>(ns: seq<Node<T>>, deps: seq<nat>, i: nat): seq<T>
    requires Formed(ns) && i < |ns| && Below(deps, i)
    decreases i, 0, |deps|
  {
    if deps == [] then [] else [Denote(ns, deps[0])] + DenoteAll(ns, deps[1..], i)
  }

  datatype Op<!T> =
    | Create(value: T)
    | Derive(fn: seq<T> -> T, deps: seq<nat>)
    | Set(i: nat, value: T)
    | Update(i: nat, f: T -> T)

  /** The operation names only signals that exist. */
  predicate Applicable<T>(op: Op<T>, n: nat) {
    match op
    case Create(_) => true
    case Derive(_, deps) => Below(deps, n)
    case Set(i, _) => i < n
    case Update(i, _) => i < n
  }

  /** The declarations after an operation; the failing ones change nothing. */
  ghost function Step<T>(ns: seq<Node<T>>, op: Op<T>): (r: seq<Node<T>>)
    requires Formed(ns) && Applicable(op, |ns|)
    ensures Formed(r)
  {
    match op
    case Create(v) => ns + [Source(v)]
    case Derive(fn, deps) => if deps == [] then ns else ns + [Derived(fn, deps)]
    case Set(i, v) => if ns[i].Source? then ns[i := Source(v)] else ns
    case Update(i, f) => if ns[i].Source? then ns[i := Source(f(ns[i].value))] else ns
  }

  ghost predicate AllApplicable<T>(ns: seq<Node<T>>, ops: seq<Op<T>>)
    requires Formed(ns)
    decreases |ops|
  {
    ops != [] ==> Applicable(ops[0], |ns|) && AllApplicable(Step(ns, ops[0]), ops[1..])
  }

  ghost function StepAll<T>(ns: seq<Node<T>>, ops: seq<Op<T>>): (r: seq<Node<T>>)
    requires Formed(ns) && AllApplicable(ns, ops)
    ensures Formed(r)
    decreases |ops|
  {
    if ops == [] then ns else StepAll(Step(ns, ops[0]), ops[1..])
  }

  // ----- the objects -----

  ghost predicate Mirrors<T>(ns: seq<Node<T>>, ss: seq<Signal<T>>)
    requires Formed(ns)
    reads ss
  {
    |ns| == |ss| && forall i :: 0 <= i < |ns| ==> MirrorsAt(ns, ss, i)
  }

  ghost predicate MirrorsAt<T>(ns: seq<Node<T>>, ss: seq<Signal<T>>, i: nat)
    requires Formed(ns) && |ns| == |ss| && i < |ns|
    reads ss
  {
    DeclaredAt(ns, ss, i) && (ns[i].Source? ==> ss[i].value == ns[i].value)
  }

  ghost predicate DeclaredAt<T>(ns: seq<Node<T>>, ss: seq<Signal<T>>, i: nat)
    requires |ns| == |ss| && i < |ns|
  {
    ss[i].rank == i &&
    match ns[i]
    case Source(v) => ss[i].deriveFn == None
    case Derived(fn, deps) =>
      ss[i].deriveFn == Some(fn) && |ss[i].dependencies| == |deps| &&
      forall j :: 0 <= j < |deps| ==> deps[j] < |ss| && ss[i].dependencies[j] == ss[deps[j]]
  }

  /** A signal created last mirrors a declaration made last. */
  lemma MirrorsExtended<T>(ns: seq<Node<T>>, ss: seq<Signal<T>>, node: Node<T>, s: Signal<T>)
    requires Formed(ns) && Mirrors(ns, ss) && Formed(ns + [node])
    requires MirrorsAt(ns + [node], ss + [s], |ns|)
    ensures Mirrors(ns + [node], ss + [s])
  {
    forall i | 0 <= i < |ns| ensures MirrorsAt(ns + [node], ss + [s], i) {
      assert MirrorsAt(ns, ss, i);
    }
  }

  /** When nothing is stale, every signal has the value its declaration denotes. */
  lemma {:induction false} SettledIsDenoted<T>(ns: seq<Node<T>>, ss: seq<Signal<T>>, i: nat)
    requires Formed(ns) && Mirrors(ns, ss) && Settled(Elements(ss), |ss|) && i < |ss|
    ensures ss[i].value == Denote(ns, i)
    decreases i, 0
  {
    assert MirrorsAt(ns, ss, i);
    if ns[i].Derived? {
      InputsAreDenoted(ns, ss, ns[i].deps, ss[i].dependencies, i);
      assert ss[i] in Elements(ss) && ss[i] !in Stale(Elements(ss), |ss|);
    }
  }

  lemma {:induction false} InputsAreDenoted<T>(ns: seq<Node<T>>, ss: seq<Signal<T>>, deps: seq<nat>,
                                               ds: seq<Signal<T>>, i: nat)
    requires Formed(ns) && Mirrors(ns, ss) && Settled(Elements(ss), |ss|) && i < |ss|
    requires |deps| == |ds| && forall j :: 0 <= j < |deps| ==> deps[j] < i && ds[j] == ss[deps[j]]
    ensures Inputs(ds) == DenoteAll(ns, deps, i)
    decreases i, 0, |deps|
  {
    if deps != [] {
      SettledIsDenoted(ns, ss, deps[0]);
      InputsAreDenoted(ns, ss, deps[1..], ds[1..], i);
    }
  }

  /** Following dependents never comes back: ranks grow along every path. */
  lemma {:induction false} PathsClimb<T>(world: set<Signal<T>>, n: nat, path: seq<Signal<T>>)
    requires Wired(world, n) && path != [] && path[0] in world
    requires forall i :: 0 <= i < |path| - 1 ==> path[i + 1] in path[i].dependents
    ensures path[|path| - 1] in world && path[0].rank + |path| - 1 <= path[|path| - 1].rank
    ensures |path| <= n - path[0].rank
    ensures |path| > 1 ==> path[|path| - 1] != path[0]
  {
    assert WiredAt(path[0], world, n);
    if |path| > 1 {
      assert path[1] in path[0].dependents && path[0] in path[1].dependencies;
      assert WiredAt(path[1], world, n);
      var rest := path[1..];
      forall i | 0 <= i < |rest| - 1 ensures rest[i + 1] in rest[i].dependents {
        assert path[i + 1 + 1] in path[i + 1].dependents;
      }
      PathsClimb(world, n, rest);
    }
  }

  class Graph<T(==)> {
    var signals: seq<Signal<T>>
    ghost var nodes: seq<Node<T>>

    ghost predicate Valid()
      reads this, signals
    {
      Formed(nodes) && Mirrors(nodes, signals) && Settled(Elements(signals), |signals|)
    }

    constructor ()
      ensures Valid() && nodes == []
    {
      signals, nodes := [], [];
    }

    /** Performs one operation. */
    method Perform(op: Op<T>)
      requires Valid() && Applicable(op, |nodes|)
      modifies this, Elements(signals)
      ensures Valid() && nodes == Step(old(nodes), op)
      ensures forall s <- signals :: s in old(signals) || fresh(s)
      ensures forall i :: 0 <= i < |signals| ==> signals[i].value == Denote(nodes, i)
    {
      match op {
        case Create(v) => AddSource(v);
        case Derive(fn, deps) => AddDerived(fn, deps);
        case Set(i, v) => SetSource(i, v);
        case Update(i, f) => UpdateSource(i, f);
      }
      forall i | 0 <= i < |signals| ensures signals[i].value == Denote(nodes, i) {
        SettledIsDenoted(nodes, signals, i);
      }
    }

    /** After any run every signal, derived or not, has the value its declaration denotes. */
    method Run(ops: seq<Op<T>>)
      requires Valid() && AllApplicable(nodes, ops)
      modifies this, Elements(signals)
      ensures Valid() && nodes == StepAll(old(nodes), ops)
      ensures forall i :: 0 <= i < |signals| ==> signals[i].value == Denote(nodes, i)
      decreases |ops|
    {
      if ops == [] {
        forall i | 0 <= i < |signals| ensures signals[i].value == Denote(nodes, i) {
          SettledIsDenoted(nodes, signals, i);
        }
      } else {
        Perform(ops[0]);
        Run(ops[1..]);
      }
    }

    method AddSource(v: T)
      requires Valid()
      modifies this
      ensures Valid() && nodes == Step(old(nodes), Create(v))
      ensures forall s <- signals :: s in old(signals) || fresh(s)
    {
      ghost var world, n := Elements(signals), |signals|;
      var s := new Signal(v, None, [], n);
      forall x | x in world + {s} ensures WiredAt(x, world + {s}, n + 1) {
        if x in world {
          assert WiredAt(x, world, n);
        }
      }
      Append(Source(v), s);
    }

    method AddDerived(fn: seq<T> -> T, deps: seq<nat>)
      requires Valid() && Below(deps, |nodes|)
      modifies this, Elements(signals)
      ensures Valid() && nodes == Step(old(nodes), Derive(fn, deps))
      ensures forall s <- signals :: s in old(signals) || fresh(s)
    {
      ghost var world, n := Elements(signals), |signals|;
      var ds := Pick(signals, deps);
      var r := Signal.Derive(fn, ds, world, n);
      assert Mirrors(nodes, signals) by {
        forall j | 0 <= j < |signals| ensures MirrorsAt(nodes, signals, j) {
          assert old(MirrorsAt(nodes, signals, j));
          assert signals[j] in world;
        }
      }
      if r.Some? {
        Append(Derived(fn, deps), r.value);
      }
    }

    /** Records a declaration and the signal created for it. */
    method Append(ghost node: Node<T>, s: Signal<T>)
      requires Formed(nodes) && Mirrors(nodes, signals) && Formed(nodes + [node])
      requires MirrorsAt(nodes + [node], signals + [s], |nodes|)
      requires Settled(Elements(signals) + {s}, |signals| + 1)
      modifies this
      ensures Valid() && nodes == old(nodes) + [node] && signals == old(signals) + [s]
    {
      MirrorsExtended(nodes, signals, node, s);
      assert Elements(signals + [s]) == Elements(signals) + {s};
      signals, nodes := signals + [s], nodes + [node];
    }

    method SetSource(i: nat, v: T)
      requires Valid() && i < |nodes|
      modifies Elements(signals), `nodes
      ensures Valid() && nodes == Step(old(nodes), Set(i, v))
    {
      assert MirrorsAt(nodes, signals, i);
      var ok := signals[i].Set(v, Elements(signals), |signals|);
      if ok {
        nodes := nodes[i := Source(v)];
      }
      forall j | 0 <= j < |signals| ensures MirrorsAt(nodes, signals, j) {
        if j < |old(signals)| {
          assert old(MirrorsAt(nodes, signals, j));
          assert old(signals)[j] in old(Elements(signals));
        }
      }
    }

    method UpdateSource(i: nat, f: T -> T)
      requires Valid() && i < |nodes|
      modifies Elements(signals), `nodes
      ensures Valid() && nodes == Step(old(nodes), Update(i, f))
    {
      assert MirrorsAt(nodes, signals, i);
      var ok := signals[i].Update(f, Elements(signals), |signals|);
      if ok {
        nodes := nodes[i := Source(f(nodes[i].value))];
      }
      forall j | 0 <= j < |signals| ensures MirrorsAt(nodes, signals, j) {
        if j < |old(signals)| {
          assert old(MirrorsAt(nodes, signals, j));
          assert old(signals)[j] in old(Elements(signals));
        }
      }
    }

    static method Pick(ss: seq<Signal<T>>, deps: seq<nat>) returns (ds: seq<Signal<T>>)
      requires Below(deps, |ss|)
      ensures |ds| == |deps| && forall j :: 0 <= j < |deps| ==> ds[j] == ss[deps[j]]
      ensures forall d <- ds :: d in Elements(ss)
    {
      ds := seq(|deps|, j requires 0 <= j < |deps| => ss[deps[j]]);
    }
  }
}
