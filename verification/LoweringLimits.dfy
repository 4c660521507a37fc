/**
  Where the lowering stops preserving meaning: the place of `default`, settled exactly over all ways
  of filling in a switch of a given shape, and programs that `continue` and `break` make it get wrong.
 */
module LoweringLimits {
  import opened Options
  import opened ControlFlow
  import opened Lowering
  import opened LoweringProof

  // ----- default: an exact condition on the shape of the switch -----

  /** Same labels, and statements in the same arms. */
  predicate SameShape(a: seq<Arm>, b: seq<Arm>) {
    |a| == |b| && forall i :: 0 <= i < |a| ==> a[i].tag == b[i].tag && (Hollow(a[i]) <==> Hollow(b[i]))
  }

  predicate DistinctLabels(arms: seq<Arm>) {
    forall i, j :: 0 <= i < j < |arms| ==> arms[i].tag != arms[j].tag
  }

  ghost predicate FaithfulAt(arms: seq<Arm>, v: int, k: nat, st: Store, fuel: nat) {
    var s := CSwitch(Num(v), arms);
    var c, p := CExec(s, st, fuel), PyExec(Lower(s, k).py, st, fuel);
    c.out == p.out && Agree(c.st, p.st)
  }

  ghost predicate Faithful(arms: seq<Arm>) {
    forall v: int, k: nat, st: Store, fuel: nat :: FaithfulAt(arms, v, k, st, fuel)
  }

  /** For a switch with distinct labels (a constraint of section 6.8.4.2): whatever statements are
      put in the arms that have some, the lowering is right, if and only if `default` is well placed. */
  lemma DefaultPlacementIsExact(arms: seq<Arm>)
    requires DistinctLabels(arms)
    ensures DefaultPlaced(arms) <==>
            forall other :: SameShape(arms, other) && SupportedArms(other) ==> Faithful(other)
  {
    if DefaultPlaced(arms) {
      forall other | SameShape(arms, other) && SupportedArms(other) ensures Faithful(other) {
        PlacedByShape(arms, other);
        forall v: int, k: nat, st: Store, fuel: nat ensures FaithfulAt(other, v, k, st, fuel) {
          SwitchSimulates(Num(v), other, k, st, st, fuel);
        }
      }
    } else {
      var p :| 0 <= p < |arms| && arms[p].tag.Default? && !PlacedAt(arms, p);
      var w := Witness(arms);
      WitnessFits(arms);
      var v := WrongSubject(w, p);
      assert !FaithfulAt(w, v, 0, map[], 1) by {
        MisplacedDefaultGoesWrong(w, p);
      }
      assert !Faithful(w);
    }
  }

  lemma PlacedByShape(a: seq<Arm>, b: seq<Arm>)
    requires SameShape(a, b) && DefaultPlaced(a)
    ensures DefaultPlaced(b)
  {
    forall p | 0 <= p < |b| && b[p].tag.Default? ensures PlacedAt(b, p) {
      assert PlacedAt(a, p);
      if Hollow(b[p]) {
        forall x | x in b[p + 1..] ensures Hollow(x) {
          var j :| 0 <= j < |b[p + 1..]| && b[p + 1..][j] == x;
          assert a[p + 1..][j] == a[p + 1 + j] && a[p + 1..][j] in a[p + 1..];
        }
      }
    }
  }

  /** Arms of the given shape whose statements do nothing, except that `default` returns. */
  function Witness(arms: seq<Arm>): seq<Arm> {
    seq(|arms|, i requires 0 <= i < |arms| => WitnessArm(arms[i].tag, Hollow(arms[i])))
  }

  function WitnessArm(tag: Label, hollow: bool): Arm {
    Arm(tag, if hollow then [] else if tag.Default? then [CReturn(None)] else [CExpr(Num(0))], false)
  }

  predicate IsWitness(arms: seq<Arm>) {
    forall a <- arms :: a == WitnessArm(a.tag, a.body == [])
  }

  lemma WitnessFits(arms: seq<Arm>)
    ensures SameShape(arms, Witness(arms)) && SupportedArms(Witness(arms)) && IsWitness(Witness(arms))
    ensures DistinctLabels(arms) ==> DistinctLabels(Witness(arms))
    ensures forall p :: 0 <= p < |arms| && PlacedAt(Witness(arms), p) ==> PlacedAt(arms, p)
  {
    var w := Witness(arms);
    forall i | 0 <= i < |arms| ensures Hollow(w[i]) == Hollow(arms[i]) && w[i].tag == arms[i].tag {
      assert CReturn(None) in [CReturn(None)];
    }
    forall a | a in w
      ensures a == WitnessArm(a.tag, a.body == []) && BreaksEnd(a) && !Continues(a.body) && SupportedSeq(a.body)
    {
      var i :| 0 <= i < |w| && w[i] == a;
    }
    forall p | 0 <= p < |arms| && PlacedAt(w, p) ensures PlacedAt(arms, p) {
      if Hollow(arms[p]) {
        forall x | x in arms[p + 1..] ensures Hollow(x) {
          var j :| 0 <= j < |arms[p + 1..]| && arms[p + 1..][j] == x;
          assert w[p + 1..][j] == w[p + 1 + j] && w[p + 1..][j] in w[p + 1..];
        }
      }
    }
  }

  /** A value no arm is labelled with. */
  function Unlabelled(arms: seq<Arm>): (v: int)
    ensures forall a <- arms :: a.tag.Case? ==> a.tag.n < v
  {
    if arms == [] then 0 else
    var v := Unlabelled(arms[1..]);
    if arms[0].tag.Case? && v <= arms[0].tag.n then arms[0].tag.n + 1 else v
  }

  /** The label of the last arm if `default` is reached on its own, else a value with no label. */
  function WrongSubject(w: seq<Arm>, p: nat): int
    requires p < |w|
  {
    if !Hollow(w[p]) && (p == 0 || !Hollow(w[p - 1])) && w[|w| - 1].tag.Case? then w[|w| - 1].tag.n else Unlabelled(w)
  }

  lemma MisplacedDefaultGoesWrong(w: seq<Arm>, p: nat)
    requires p < |w| && w[p].tag.Default? && DistinctLabels(w) && IsWitness(w) && !PlacedAt(w, p)
    ensures !FaithfulAt(w, WrongSubject(w, p), 0, map[], 1)
  {
    hide CExecSeq, PyExecSeq, PyExec, EmitNodes, LowerArms, Selected, SwitchLoop;
    var v := WrongSubject(w, p);
    var b := Eval(Num(v), map[]);
    var start := AfterHead(b, 0);
    var l := LowerArms(w, 1);
    var nodes := Merge(l.arms, []);
    SwitchLoopRuns(Num(v), nodes, 0, map[], 1);
    forall i | 0 <= i < p ensures w[i].tag != Case(v) {
      assert w[i] in w;
    }
    if Hollow(w[p]) {
      assert exists a <- w[p + 1..] :: !Hollow(a);
      assert forall a <- w[p..] :: a in w;
    }
    TestsUpToDefault(w, [], p, 0, 1, v, start, 0);
    CQuiet(w, p, v);
  }

  /** In C the chosen statements do not fail, and return only if `default` is reached. */
  lemma CQuiet(w: seq<Arm>, p: nat, v: int)
    requires p < |w| && w[p].tag.Default? && DistinctLabels(w) && IsWitness(w)
    ensures var r := CExecSeq(Selected(w, v), map[], 0);
            !r.out.Failed? && (w[|w| - 1].tag == Case(v) ==> r.out.Normal?)
  {
    FromLabelIsSuffix(w, Case(v));
    FromLabelIsSuffix(w, Default);
    if w[|w| - 1].tag == Case(v) {
      FromLastLabel(w);
      assert Bodies(w[|w| - 1..]) == w[|w| - 1].body + Bodies([]);
      assert w[|w| - 1] in w;
      assert CExecSeq([CExpr(Num(0))], map[], 0) == Run(Normal, map[]);
    } else if FromLabel(w, Case(v)).Some? {
      WitnessRuns(FromLabel(w, Case(v)).value);
    } else if FromLabel(w, Default).Some? {
      WitnessRuns(FromLabel(w, Default).value);
    }
  }

  lemma {:induction false} FromLastLabel(w: seq<Arm>)
    requires w != [] && DistinctLabels(w)
    ensures FromLabel(w, w[|w| - 1].tag) == Some(w[|w| - 1..])
  {
    if |w| > 1 {
      FromLastLabel(w[1..]);
    }
  }

  lemma {:induction false} WitnessRuns(w: seq<Arm>)
    requires IsWitness(w)
    ensures var r := CExecSeq(Bodies(w), map[], 0); r.out.Normal? || r.out.Returned?
    ensures CExecSeq(Bodies(w), map[], 0).st == map[]
  {
    if w != [] {
      CExecSeqAppend(w[0].body, Bodies(w[1..]), map[], 0);
      assert w[0] in w;
      assert CExecSeq([CExpr(Num(0))], map[], 0) == Run(Normal, map[]);
      assert CExecSeq([CReturn(None)], map[], 0) == Run(Returned(None), map[]);
      WitnessRuns(w[1..]);
    }
  }

  /** A test that `default` was folded into reads the unbound variable `_`. */
  lemma {:induction false} FoldedDefaultFaults(tags: seq<Label>, k: nat, v: int, pt: Store)
    requires Default in tags && Case(v) !in tags
    requires Temp(SwitchOn, k) in pt && pt[Temp(SwitchOn, k)] == v && User("_") !in pt
    ensures Eval(TestLabels(tags, k), pt) == Fault(pt)
  {
    assert tags[0] in tags;
    if tags[0].Case? {
      assert tags == [tags[0]] + tags[1..];
      assert Eval(TestLabel(tags[0], k), pt) == Val(0, pt);
      FoldedDefaultFaults(tags[1..], k, v, pt);
    } else {
      assert Eval(TestLabel(tags[0], k), pt) == Fault(pt);
    }
  }

  lemma FoldedNodeFails(n: Node, k: nat, v: int, pt: Store, fuel: nat)
    requires |n.tags| > 1 && Default in n.tags && Case(v) !in n.tags
    requires Flags(pt, k, v, false) && User("_") !in pt
    ensures PyExec(EmitNode(n, k), pt, fuel) == Run(Failed, pt)
  {
    FoldedDefaultFaults(n.tags, k, v, pt);
    assert Eval(Var(Temp(Matched, k)), pt) == Val(0, pt);
  }

  lemma WitnessArmLowers(a: Arm, lo: nat)
    requires a == WitnessArm(a.tag, a.body == [])
    ensures LowerArm(a, lo) ==
            LoweredSeq(if a.body == [] then [] else if a.tag.Default? then [Return(None)] else [ExprStmt(Num(0))], lo)
  {
    if a.body == [] {
    } else if a.tag.Default? {
      assert [CReturn(None)][1..] == [];
      assert LowerDefault([CReturn(None)], lo) == LoweredSeq([Return(None)], lo);
    } else {
      assert [CExpr(Num(0))][1..] == [];
      assert LowerSeq([CExpr(Num(0))], lo) == LoweredSeq([ExprStmt(Num(0))], lo);
    }
  }

  /** Once `default` is folded into a later arm, testing that arm fails. */
  lemma {:induction false} FoldedLater(w: seq<Arm>, pending: seq<Label>, k: nat, lo: nat, v: int, pt: Store, fuel: nat)
    requires IsWitness(w) && Default in pending && exists a <- w :: !Hollow(a)
    requires Case(v) !in pending && forall a <- w :: a.tag != Case(v)
    requires Flags(pt, k, v, false) && User("_") !in pt
    ensures PyExecSeq(EmitNodes(Merge(LowerArms(w, lo).arms, pending), k), pt, fuel).out.Failed?
  {
    var a := w[0];
    assert a in w;
    WitnessArmLowers(a, lo);
    var l := LowerArms(w, lo);
    var tags := pending + [a.tag];
    assert l.arms[0].tag == a.tag && l.arms[1..] == LowerArms(w[1..], lo).arms;
    if a.body == [] {
      assert forall x <- w :: x == a || x in w[1..];
      FoldedLater(w[1..], tags, k, lo, v, pt, fuel);
    } else {
      FoldedNodeFails(Node(tags, l.arms[0].body), k, v, pt, fuel);
    }
  }

  /** How the emitted tests of witness arms end once they come to `default`, at index `p`. */
  lemma {:induction false} TestsUpToDefault(w: seq<Arm>, pending: seq<Label>, p: nat, k: nat, lo: nat, v: int,
                                            pt: Store, fuel: nat)
    requires IsWitness(w) && p < |w| && w[p].tag.Default? && DistinctLabels(w)
    requires Default !in pending && Case(v) !in pending && forall i :: 0 <= i < p ==> w[i].tag != Case(v)
    requires Hollow(w[p]) ==> (exists a <- w[p + 1..] :: !Hollow(a)) && forall a <- w[p..] :: a.tag != Case(v)
    requires Flags(pt, k, v, false) && User("_") !in pt
    ensures var r := PyExecSeq(EmitNodes(Merge(LowerArms(w, lo).arms, pending), k), pt, fuel);
            if !Hollow(w[p]) && (if p == 0 then pending == [] else !Hollow(w[p - 1])) then r.out == Returned(None)
            else r.out.Failed?
    decreases p
  {
    if p == 0 {
      TestsAtDefault(w, pending, k, lo, v, pt, fuel);
    } else {
      var a := w[0];
      assert a in w;
      WitnessArmLowers(a, lo);
      var l := LowerArms(w, lo);
      var tags := pending + [a.tag];
      assert l.arms[0].tag == a.tag && l.arms[1..] == LowerArms(w[1..], lo).arms;
      assert w[1..][p - 1] == w[p] && w[1..][p - 1..] == w[p..] && w[1..][p - 1 + 1..] == w[p + 1..];
      assert p > 1 ==> w[1..][p - 2] == w[p - 1];
      assert a.tag != Default && a.tag != Case(v);
      if a.body == [] {
        assert Hollow(a);
        TestsUpToDefault(w[1..], tags, p - 1, k, lo, v, pt, fuel);
      } else {
        assert !Hollow(a);
        var n := Node(tags, l.arms[0].body);
        NodeStep(n, k, v, false, pt, fuel);
        assert Merge(l.arms, pending)[1..] == Merge(l.arms[1..], []);
        TestsUpToDefault(w[1..], [], p - 1, k, lo, v, pt, fuel);
      }
    }
  }

  lemma TestsAtDefault(w: seq<Arm>, pending: seq<Label>, k: nat, lo: nat, v: int, pt: Store, fuel: nat)
    requires IsWitness(w) && w != [] && w[0].tag.Default?
    requires Default !in pending && Case(v) !in pending
    requires Hollow(w[0]) ==> (exists a <- w[1..] :: !Hollow(a)) && forall a <- w[1..] :: a.tag != Case(v)
    requires Flags(pt, k, v, false) && User("_") !in pt
    ensures var r := PyExecSeq(EmitNodes(Merge(LowerArms(w, lo).arms, pending), k), pt, fuel);
            if !Hollow(w[0]) && pending == [] then r.out == Returned(None) else r.out.Failed?
  {
    var a := w[0];
    assert a in w;
    WitnessArmLowers(a, lo);
    var l := LowerArms(w, lo);
    var tags := pending + [a.tag];
    assert l.arms[0].tag == a.tag && l.arms[1..] == LowerArms(w[1..], lo).arms;
    if a.body == [] {
      FoldedLater(w[1..], tags, k, lo, v, pt, fuel);
    } else {
      assert a.body[0] in a.body && !Hollow(a);
      var n := Node(tags, l.arms[0].body);
      if pending == [] {
        NodeStep(n, k, v, false, pt, fuel);
        assert PyExecSeq([Return(None)], Marked(n, k, v, false, pt), fuel).out == Returned(None);
      } else {
        FoldedNodeFails(n, k, v, pt, fuel);
      }
    }
  }

  // ----- continue and break: programs the lowering gets wrong -----

  const I := User("i")
  const X := User("x")

  /** `for (i = 0; i < 1; i = i + 1) continue;` */
  const CONTINUING_FOR := CFor(Some(Let(I, Num(0))), Some(Bin(Lt, Var(I), Num(1))),
                               Some(Let(I, Bin(Add, Var(I), Num(1)))), [CContinue])

  /** `do { continue; } while (0);` */
  const CONTINUING_DO := CDo([CContinue], Num(0))

  /** `while (i < 1) { i = i + 1; switch (0) { case 0: continue; } }` */
  const INNER_SWITCH := CSwitch(Num(0), [Arm(Case(0), [CContinue], false)])
  const COUNT := CAssign(I, Bin(Add, Var(I), Num(1)))
  const CONTINUING_SWITCH := CWhile(Bin(Lt, Var(I), Num(1)), [COUNT, INNER_SWITCH])

  /** `switch (0) { default: break; x = 1; }` */
  const BREAKING_DEFAULT := CSwitch(Num(0), [Arm(Default, [CBreak, CAssign(X, Num(1))], false)])

  lemma ContinueInForIsWrong()
    ensures CExec(CONTINUING_FOR, map[], 3) == Run(Normal, map[I := 1])
    ensures forall fuel: nat :: PyExec(Lower(CONTINUING_FOR, 0).py, map[], fuel).out == Timeout
  {
    hide CForLoop, ForLoop, LowerBody;
    var s := CONTINUING_FOR;
    var test, post := s.test.value, s.post.value;
    var st: Store := map[I := 0];
    assert Eval(s.init.value, map[]) == Val(0, st);
    CountsToOne(st);
    var loop := ForLoop(None, s.test, s.post, [Continue]);
    BodyContinues();
    assert loop == While(test, [Continue] + [ExprStmt(post)]) by {
      LoopWithPost(test, post);
    }
    forall fuel: nat ensures PyExec(Lower(s, 0).py, map[], fuel).out == Timeout {
      var block := [ExprStmt(s.init.value), loop];
      assert Lower(s, 0).py == If(TRUE, block, []) by {
        LoopWithInit(s.init.value, s.test, s.post, [Continue]);
      }
      assert block[1..] == [loop];
      ForContinuesForEver(loop, test, post, st, fuel);
      assert PyExecSeq([loop], st, fuel) == PyExec(loop, st, fuel);
      assert PyExecSeq(block, map[], fuel) == PyExecSeq([loop], st, fuel);
    }
  }

  lemma LoopWithPost(test: Expr, post: Expr)
    ensures ForLoop(None, Some(test), Some(post), [Continue]) == While(test, [Continue] + [ExprStmt(post)])
  {
  }

  lemma LoopWithInit(init: Expr, test: Option<Expr>, post: Option<Expr>, body: seq<PyStmt>)
    ensures ForLoop(Some(init), test, post, body) == If(TRUE, [ExprStmt(init), ForLoop(None, test, post, body)], [])
  {
  }

  lemma BodyContinues()
    ensures LowerBody([CContinue], 0).py == [Continue]
  {
    assert [CContinue][1..] == [];
    assert LowerSeq([], 0) == LoweredSeq([], 0);
  }

  /** In C the loop counts to one and stops. */
  lemma CountsToOne(st: Store)
    requires st == map[I := 0]
    ensures CForLoop(CONTINUING_FOR, st, 3) == Run(Normal, map[I := 1])
    ensures Eval(CONTINUING_FOR.test.value, st) == Val(1, st)
  {
    var s := CONTINUING_FOR;
    var test, post := s.test.value, s.post.value;
    assert Eval(test, st) == Val(1, st);
    assert Eval(post.e, st) == Val(1, st);
    assert Eval(post, st) == Val(1, map[I := 1]);
    assert Eval(test, map[I := 1]) == Val(0, map[I := 1]);
    assert CExecSeq([CContinue], st, 2) == Run(Continued, st);
    assert CForLoop(s, map[I := 1], 2) == Run(Normal, map[I := 1]);
    assert CForLoop(s, st, 3) == CForLoop(s, map[I := 1], 2);
  }

  lemma {:induction false} ForContinuesForEver(loop: PyStmt, test: Expr, post: Expr, st: Store, fuel: nat)
    requires loop == While(test, [Continue] + [ExprStmt(post)])
    requires Eval(test, st).Val? && Eval(test, st).v != 0 && Eval(test, st).st == st
    ensures PyExec(loop, st, fuel) == Run(Timeout, st)
  {
    if fuel > 0 {
      assert PyExecSeq([Continue] + [ExprStmt(post)], st, fuel - 1) == Run(Continued, st);
      ForContinuesForEver(loop, test, post, st, fuel - 1);
    }
  }

  lemma ContinueInDoIsWrong()
    ensures CExec(CONTINUING_DO, map[], 1) == Run(Normal, map[])
    ensures forall fuel: nat :: PyExec(Lower(CONTINUING_DO, 0).py, map[], fuel).out == Timeout
  {
    assert LowerBody([CContinue], 0).py == [Continue] by {
      assert [CContinue][1..] == [];
      assert LowerSeq([], 0) == LoweredSeq([], 0);
    }
    assert CExecSeq([CContinue], map[], 0) == Run(Continued, map[]);
    forall fuel: nat ensures PyExec(Lower(CONTINUING_DO, 0).py, map[], fuel).out == Timeout {
      DoContinuesForEver(Lower(CONTINUING_DO, 0).py, fuel);
    }
  }

  lemma {:induction false} DoContinuesForEver(loop: PyStmt, fuel: nat)
    requires loop == While(TRUE, [Continue] + [If(Not(Num(0)), [Break], [])])
    ensures PyExec(loop, map[], fuel) == Run(Timeout, map[])
  {
    if fuel > 0 {
      assert PyExecSeq(loop.body, map[], fuel - 1) == Run(Continued, map[]);
      DoContinuesForEver(loop, fuel - 1);
    }
  }

  /** In C the `continue` leaves the switch for the loop around it; lowered, it restarts the switch. */
  lemma ContinueInSwitchIsWrong()
    ensures CExec(CONTINUING_SWITCH, map[I := 0], 2) == Run(Normal, map[I := 1])
    ensures forall fuel: nat :: PyExec(Lower(CONTINUING_SWITCH, 0).py, map[I := 0], fuel).out == Timeout
  {
    var st, done: Store := map[I := 0], map[I := 1];
    var cond, body := CONTINUING_SWITCH.cond, CONTINUING_SWITCH.body;
    InnerSwitchContinues(done);
    CountsUp(st, done);
    assert body[1..] == [INNER_SWITCH] && [INNER_SWITCH][1..] == [];
    assert CExecSeq([INNER_SWITCH], done, 1) == Run(Continued, done);
    assert CExecSeq(body, st, 1) == Run(Continued, done);
    assert CExec(CONTINUING_SWITCH, done, 1) == Run(Normal, done);
    forall fuel: nat ensures PyExec(Lower(CONTINUING_SWITCH, 0).py, st, fuel).out == Timeout {
      var inner := Lower(INNER_SWITCH, 0).py;
      LoopLowers();
      if fuel > 0 {
        InnerSwitchRestarts(done, fuel - 1);
        assert PyExec(Assign(I, COUNT.e), st, fuel - 1) == Run(Normal, done);
        assert [Assign(I, COUNT.e), inner][1..] == [inner];
        assert PyExecSeq([inner], done, fuel - 1).out == Timeout;
        assert PyExecSeq([Assign(I, COUNT.e), inner], st, fuel - 1).out == Timeout;
      }
    }
  }

  lemma CountsUp(st: Store, done: Store)
    requires st == map[I := 0] && done == map[I := 1]
    ensures Eval(CONTINUING_SWITCH.cond, st) == Val(1, st) && Eval(CONTINUING_SWITCH.cond, done) == Val(0, done)
    ensures Eval(COUNT.e, st) == Val(1, st) && st[I := 1] == done
  {
    assert Eval(Var(I), st) == Val(0, st) && Eval(Var(I), done) == Val(1, done);
  }

  lemma LoopLowers()
    ensures Lower(CONTINUING_SWITCH, 0).py ==
            While(CONTINUING_SWITCH.cond, [Assign(I, COUNT.e), Lower(INNER_SWITCH, 0).py])
  {
    hide SwitchLoop, LowerArms;
    var body := CONTINUING_SWITCH.body;
    var inner := Lower(INNER_SWITCH, 0);
    assert body[1..] == [INNER_SWITCH] && [INNER_SWITCH][1..] == [];
    assert LowerSeq([], inner.next) == LoweredSeq([], inner.next);
    assert LowerSeq([INNER_SWITCH], 0).py == [inner.py];
    assert Lower(COUNT, 0) == Lowered(Assign(I, COUNT.e), 0) && body[0] == COUNT;
    assert LowerSeq(body, 0).py == [Assign(I, COUNT.e)] + LowerSeq([INNER_SWITCH], 0).py;
    assert LowerBody(body, 0).py == [Assign(I, COUNT.e), inner.py];
  }

  lemma InnerSwitchContinues(st: Store)
    ensures CExec(INNER_SWITCH, st, 1) == Run(Continued, st)
  {
    var arms := INNER_SWITCH.arms;
    assert arms[1..] == [];
    assert Selected(arms, 0) == [CContinue] by {
      assert FromLabel(arms, Case(0)) == Some(arms);
      assert Bodies(arms) == [CContinue] + Bodies([]);
    }
    assert CExecSeq([CContinue], st, 0) == Run(Continued, st);
  }

  lemma InnerSwitchRestarts(st: Store, fuel: nat)
    ensures PyExec(Lower(INNER_SWITCH, 0).py, st, fuel).out == Timeout
  {
    var arms := INNER_SWITCH.arms;
    assert arms[1..] == [];
    assert LowerSeq([CContinue], 1) == LoweredSeq([Continue], 1) by {
      assert [CContinue][1..] == [];
      assert LowerSeq([], 1) == LoweredSeq([], 1);
    }
    assert LowerArms(arms, 1) == LoweredArms([PyArm(Case(0), [Continue])], 1) by {
      assert LowerArms([], 1) == LoweredArms([], 1);
    }
    MergeOne(Case(0), [Continue]);
    SwitchContinuesForEver(Node([Case(0)], [Continue]), st, fuel);
  }

  lemma MergeOne(tag: Label, body: seq<PyStmt>)
    requires body != []
    ensures Merge([PyArm(tag, body)], []) == [Node([tag], body)]
  {
    var arms := [PyArm(tag, body)];
    assert arms[1..] == [] && [] + [tag] == [tag];
    assert Merge(arms[1..], []) == [];
  }

  lemma {:induction false} SwitchContinuesForEver(n: Node, st: Store, fuel: nat)
    requires n == Node([Case(0)], [Continue])
    ensures PyExec(SwitchLoop(Num(0), [n], 0), st, fuel).out == Timeout
    decreases fuel
  {
    if fuel > 0 {
      var b := Eval(Num(0), st);
      var start := AfterHead(b, 0);
      SwitchLoopRuns(Num(0), [n], 0, st, fuel);
      NodeStep(n, 0, 0, false, start, fuel - 1);
      var to := Marked(n, 0, 0, false, start);
      assert PyExecSeq([Continue], to, fuel - 1) == Run(Continued, to);
      assert EmitNodes([n], 0) == [EmitNode(n, 0)] + EmitNodes([], 0);
      assert PyExecSeq(EmitNodes([n], 0), start, fuel - 1) == Run(Continued, to);
      SwitchContinuesForEver(n, to, fuel - 1);
    }
  }

  /** The translator drops every `break` of an unbraced `default`, so what follows one runs. */
  lemma BreakInsideDefaultIsWrong()
    ensures CExec(BREAKING_DEFAULT, map[], 1) == Run(Normal, map[])
    ensures PyExec(Lower(BREAKING_DEFAULT, 0).py, map[], 1).out == Normal
    ensures X in PyExec(Lower(BREAKING_DEFAULT, 0).py, map[], 1).st
  {
    var arms := BREAKING_DEFAULT.arms;
    var body := arms[0].body;
    assert arms[1..] == [];
    assert Selected(arms, 0) == body by {
      assert FromLabel([], Case(0)) == None;
      assert FromLabel(arms, Default) == Some(arms);
      assert Bodies(arms) == body + Bodies([]);
    }
    assert CExecSeq(body, map[], 0) == Run(Broke, map[]);
    var set1 := Assign(X, Num(1));
    assert LowerDefault(body, 1) == LoweredSeq([set1], 1) by {
      assert body[1..] == [CAssign(X, Num(1))];
      assert [CAssign(X, Num(1))][1..] == [];
      assert LowerDefault([], 1) == LoweredSeq([], 1);
      assert LowerDefault(body[1..], 1) == LoweredSeq([set1], 1);
    }
    assert LowerArms(arms, 1) == LoweredArms([PyArm(Default, [set1])], 1) by {
      assert LowerArms([], 1) == LoweredArms([], 1);
    }
    var n := Node([Default], [set1]);
    MergeOne(Default, [set1]);
    var start := AfterHead(Eval(Num(0), map[]), 0);
    SwitchLoopRuns(Num(0), [n], 0, map[], 1);
    NodeStep(n, 0, 0, false, start, 0);
    var to := Marked(n, 0, 0, false, start);
    assert PyExecSeq([set1], to, 0) == Run(Normal, to[X := 1]);
    assert EmitNodes([n], 0) == [EmitNode(n, 0)] + EmitNodes([], 0);
    assert PyExecSeq(EmitNodes([n], 0), start, 0) == Run(Normal, to[X := 1]);
  }
}
