/**
  The exact conditions for `continue` and for `break` inside an unbraced `default`, shape by shape:
  whatever else the statements of the shape are, the lowering is right, if and only if the condition
  holds of the shape.
 */
module LoweringShapes {
  import opened Options
  import opened ControlFlow
  import opened Lowering
  import opened LoweringProof
  import opened LoweringLimits

  ghost predicate RightAt(s: CStmt, k: nat, st: Store, fuel: nat) {
    var c, p := CExec(s, st, fuel), PyExec(Lower(s, k).py, st, fuel);
    c.out == p.out && Agree(c.st, p.st)
  }

  /** The lowering of the statement means the same from every store, at every budget. */
  ghost predicate Right(s: CStmt) {
    forall k: nat, st: Store, fuel: nat :: RightAt(s, k, st, fuel)
  }

  lemma SupportedIsRight(s: CStmt)
    requires Supported(s)
    ensures Right(s)
  {
    forall k: nat, st: Store, fuel: nat ensures RightAt(s, k, st, fuel) {
      StatementSimulates(s, k, st, st, fuel);
    }
  }

  // ----- outlines: where a body continues its loop -----

  /** The same nesting down to the same `continue` statements; anything may stand where there is none. */
  predicate SameOutline(s: CStmt, t: CStmt)
    decreases s, 1
  {
    if !ContinuesStmt(s) then !ContinuesStmt(t) else
    match s
    case CContinue => t.CContinue?
    case CBlock(body) => t.CBlock? && SameOutlines(body, t.body)
    case CIf(_, thn, els) => t.CIf? && SameOutlines(thn, t.thn) && SameOutlines(els, t.els)
    case _ => t == s
  }

  predicate SameOutlines(ss: seq<CStmt>, ts: seq<CStmt>)
    decreases ss, 0
  {
    |ss| == |ts| && forall i :: 0 <= i < |ss| ==> SameOutline(ss[i], ts[i])
  }

  lemma {:induction false} OutlineContinues(ss: seq<CStmt>, ts: seq<CStmt>)
    requires SameOutlines(ss, ts)
    ensures Continues(ss) == Continues(ts)
    decreases ss
  {
    forall i | 0 <= i < |ss| ensures ContinuesStmt(ss[i]) == ContinuesStmt(ts[i]) {
      assert SameOutline(ss[i], ts[i]);
      if ContinuesStmt(ss[i]) {
        match ss[i]
        case CBlock(body) => OutlineContinues(body, ts[i].body);
        case CIf(_, thn, els) =>
          OutlineContinues(thn, ts[i].thn);
          OutlineContinues(els, ts[i].els);
        case _ =>
      }
    }
  }

  lemma {:induction false} OutlineIsItself(ss: seq<CStmt>)
    ensures SameOutlines(ss, ss)
    decreases ss
  {
    forall i | 0 <= i < |ss| ensures SameOutline(ss[i], ss[i]) {
      match ss[i]
      case CBlock(body) => OutlineIsItself(body);
      case CIf(_, thn, els) =>
        OutlineIsItself(thn);
        OutlineIsItself(els);
      case _ =>
    }
  }

  /** A statement of the same outline that goes straight to its first `continue`. */
  function FillStmt(s: CStmt): CStmt
    decreases s, 1
  {
    if !ContinuesStmt(s) then CExpr(Num(0)) else
    match s
    case CBlock(body) => CBlock(Fill(body))
    case CIf(_, thn, els) => CIf(Num(if Continues(thn) then 1 else 0), Fill(thn), Fill(els))
    case _ => CContinue
  }

  function Fill(ss: seq<CStmt>): (r: seq<CStmt>)
    ensures |r| == |ss|
    decreases ss, 0
  {
    if ss == [] then [] else [FillStmt(ss[0])] + Fill(ss[1..])
  }

  lemma {:induction false} FillFits(ss: seq<CStmt>)
    requires SupportedSeq(ss)
    ensures SupportedSeq(Fill(ss)) && SameOutlines(ss, Fill(ss)) && forall t <- Fill(ss) :: !t.CBreak?
    decreases ss, 0
  {
    if ss != [] {
      FillStmtFits(ss[0]);
      FillFits(ss[1..]);
      forall i | 0 <= i < |ss| ensures SameOutline(ss[i], Fill(ss)[i]) {
        if i > 0 {
          assert SameOutline(ss[1..][i - 1], Fill(ss[1..])[i - 1]);
        }
      }
    }
  }

  lemma {:induction false} FillStmtFits(s: CStmt)
    requires Supported(s)
    ensures Supported(FillStmt(s)) && SameOutline(s, FillStmt(s)) && !FillStmt(s).CBreak?
    decreases s, 1
  {
    match s
    case CBlock(body) => FillFits(body);
    case CIf(_, thn, els) =>
      FillFits(thn);
      FillFits(els);
    case _ =>
  }

  lemma {:induction false} FillRuns(ss: seq<CStmt>, st: Store, fuel: nat)
    requires SupportedSeq(ss)
    ensures CExecSeq(Fill(ss), st, fuel) == Run(if Continues(ss) then Continued else Normal, st)
    decreases ss, 0
  {
    if ss != [] {
      assert ss == [ss[0]] + ss[1..];
      FillStmtRuns(ss[0], st, fuel);
      FillRuns(ss[1..], st, fuel);
      assert Fill(ss)[1..] == Fill(ss[1..]);
    }
  }

  lemma {:induction false} FillStmtRuns(s: CStmt, st: Store, fuel: nat)
    requires Supported(s)
    ensures CExec(FillStmt(s), st, fuel) == Run(if ContinuesStmt(s) then Continued else Normal, st)
    decreases s, 1
  {
    match s
    case CBlock(body) => FillRuns(body, st, fuel);
    case CIf(_, thn, els) =>
      FillRuns(thn, st, fuel);
      FillRuns(els, st, fuel);
    case _ =>
  }

  /** Lowered, the filled body continues too. */
  lemma FilledBodyContinues(ss: seq<CStmt>, k: nat, pt: Store, fuel: nat)
    requires SupportedSeq(ss) && Continues(ss)
    ensures var p := PyExecSeq(LowerBody(Fill(ss), k).py, pt, fuel); p.out.Continued? && Agree(pt, p.st)
  {
    FillFits(ss);
    FillRuns(ss, pt, fuel);
    BodySimulates(Fill(ss), k, pt, pt, fuel);
  }

  // ----- do -----

  predicate IsDo(s: CStmt) {
    s.CDo? && UserExpr(s.cond) && SupportedSeq(s.body)
  }

  /** For every `do`: all loops with a body of its outline are lowered rightly, if and only if the body
      does not continue the loop. */
  lemma DoIsExact(s: CStmt)
    requires IsDo(s)
    ensures (forall t :: IsDo(t) && SameOutlines(s.body, t.body) ==> Right(t)) <==> !Continues(s.body)
  {
    if Continues(s.body) {
      var t := CDo(Fill(s.body), Num(0));
      FillFits(s.body);
      FillRuns(s.body, map[], 0);
      FilledDoRuns(s.body, 0, map[], 1);
      assert IsDo(t) && !RightAt(t, 0, map[], 1);
      assert !Right(t);
    } else {
      forall t | IsDo(t) && SameOutlines(s.body, t.body) ensures Right(t) {
        OutlineContinues(s.body, t.body);
        SupportedIsRight(t);
      }
    }
  }

  /** It ends in C after one turn, and never when lowered. */
  lemma {:induction false} FilledDoRuns(ss: seq<CStmt>, k: nat, pt: Store, fuel: nat)
    requires SupportedSeq(ss) && Continues(ss)
    ensures PyExec(Lower(CDo(Fill(ss), Num(0)), k).py, pt, fuel).out == Timeout
    decreases fuel
  {
    if fuel > 0 {
      var body := LowerBody(Fill(ss), k).py;
      FilledBodyContinues(ss, k, pt, fuel - 1);
      PyExecSeqAppend(body, [If(Not(Num(0)), [Break], [])], pt, fuel - 1);
      FilledDoRuns(ss, k, PyExecSeq(body, pt, fuel - 1).st, fuel - 1);
    }
  }

  // ----- for -----

  predicate IsFor(s: CStmt) {
    s.CFor? && UserOption(s.init) && UserOption(s.test) && UserOption(s.post) && SupportedSeq(s.body)
  }

  predicate SameFor(s: CStmt, t: CStmt)
    requires IsFor(s) && IsFor(t)
  {
    s.post.Some? == t.post.Some? && SameOutlines(s.body, t.body)
  }

  /** For every `for`: all loops with a body of its outline, and a post clause if it has one, are lowered
      rightly, if and only if there is no post clause or the body does not continue the loop. */
  lemma ForIsExact(s: CStmt)
    requires IsFor(s)
    ensures (forall t :: IsFor(t) && SameFor(s, t) ==> Right(t)) <==> (s.post.None? || !Continues(s.body))
  {
    if s.post.Some? && Continues(s.body) {
      var t := CountingFor(Fill(s.body));
      FillFits(s.body);
      FilledForEnds(s.body);
      FilledForRuns(s.body, 0, 3);
      assert IsFor(t) && SameFor(s, t) && !RightAt(t, 0, map[], 3);
      assert !Right(t);
    } else {
      forall t | IsFor(t) && SameFor(s, t) ensures Right(t) {
        OutlineContinues(s.body, t.body);
        SupportedIsRight(t);
      }
    }
  }

  /** `for (i = 0; i < 1; i = i + 1)` */
  function CountingFor(body: seq<CStmt>): CStmt {
    CFor(CONTINUING_FOR.init, CONTINUING_FOR.test, CONTINUING_FOR.post, body)
  }

  lemma FilledForEnds(ss: seq<CStmt>)
    requires SupportedSeq(ss) && Continues(ss)
    ensures CExec(CountingFor(Fill(ss)), map[], 3).out == Normal
  {
    hide Fill;
    var s := CountingFor(Fill(ss));
    var st, done: Store := map[I := 0], map[I := 1];
    assert Eval(s.init.value, map[]) == Val(0, st);
    assert Eval(s.test.value, st) == Val(1, st);
    assert Eval(s.post.value.e, st) == Val(1, st);
    assert Eval(s.post.value, st) == Val(1, done);
    assert Eval(s.test.value, done) == Val(0, done);
    FillRuns(ss, st, 2);
    assert CForLoop(s, done, 2) == Run(Normal, done);
    assert CForLoop(s, st, 3) == CForLoop(s, done, 2);
  }

  lemma FilledForRuns(ss: seq<CStmt>, k: nat, fuel: nat)
    requires SupportedSeq(ss) && Continues(ss)
    ensures PyExec(Lower(CountingFor(Fill(ss)), k).py, map[], fuel).out == Timeout
  {
    hide Fill, LowerBody, ForLoop;
    var s := CountingFor(Fill(ss));
    var b := LowerBody(Fill(ss), k).py;
    var loop := ForLoop(None, s.test, s.post, b);
    var st: Store := map[I := 0];
    var block := [ExprStmt(s.init.value), loop];
    assert Lower(s, k).py == If(TRUE, block, []) by {
      LoopWithInit(s.init.value, s.test, s.post, b);
    }
    assert Eval(s.init.value, map[]) == Val(0, st);
    assert block[1..] == [loop];
    FilledLoopRuns(ss, k, st, fuel);
    assert PyExecSeq([loop], st, fuel).out == Timeout;
    assert PyExecSeq(block, map[], fuel) == PyExecSeq([loop], st, fuel);
  }

  lemma {:induction false} FilledLoopRuns(ss: seq<CStmt>, k: nat, pt: Store, fuel: nat)
    requires SupportedSeq(ss) && Continues(ss) && I in pt && pt[I] == 0
    ensures var s := CountingFor([]);
            PyExec(ForLoop(None, s.test, s.post, LowerBody(Fill(ss), k).py), pt, fuel).out == Timeout
    decreases fuel
  {
    hide Fill, LowerBody;
    if fuel > 0 {
      var s, body := CountingFor([]), LowerBody(Fill(ss), k).py;
      var post := [ExprStmt(s.post.value)];
      assert ForLoop(None, s.test, s.post, body) == While(s.test.value, body + post);
      assert Eval(s.test.value, pt) == Val(1, pt);
      FilledBodyContinues(ss, k, pt, fuel - 1);
      PyExecSeqAppend(body, post, pt, fuel - 1);
      var p := PyExecSeq(body, pt, fuel - 1);
      assert Same(pt, p.st, I);
      FilledLoopRuns(ss, k, p.st, fuel - 1);
    }
  }

  // ----- switch: coming to an arm -----

  /** On `v`, arm `q` is the one a switch jumps to. */
  predicate Reached(arms: seq<Arm>, q: nat, v: int) {
    && q < |arms| && !Hollow(arms[q])
    && (forall i :: 0 <= i < q ==> arms[i].tag != Case(v) && arms[i].tag != Default)
    && (arms[q].tag == Case(v) ||
        (arms[q].tag == Default && (forall a <- arms :: a.tag != Case(v)) && (q > 0 ==> !Hollow(arms[q - 1]))))
  }

  /** The label of the arm, or a value without a label for `default`. */
  function Aim(arms: seq<Arm>, q: nat): int
    requires q < |arms|
  {
    if arms[q].tag.Case? then arms[q].tag.n else Unlabelled(arms)
  }

  lemma HollowAfterDefault(arms: seq<Arm>)
    requires DefaultPlaced(arms)
    ensures forall i, j :: 0 <= i < j < |arms| && arms[i].tag.Default? ==> Hollow(arms[j])
  {
    forall i, j | 0 <= i < j < |arms| && arms[i].tag.Default? ensures Hollow(arms[j]) {
      assert PlacedAt(arms, i) && arms[i + 1..][j - i - 1] == arms[j];
    }
  }

  lemma AimReaches(arms: seq<Arm>, q: nat)
    requires q < |arms| && !Hollow(arms[q]) && DefaultPlaced(arms)
    requires arms[q].tag.Case? ==> DistinctLabels(arms)
    ensures Reached(arms, q, Aim(arms, q))
    ensures arms[q].tag.Default? ==> q == |arms| - 1
  {
    HollowAfterDefault(arms);
    if arms[q].tag.Default? {
      assert PlacedAt(arms, q);
      forall i | 0 <= i < |arms| ensures arms[i].tag != Case(Aim(arms, q)) {
        assert arms[i] in arms;
      }
    }
  }

  lemma {:induction false} FromLabelAt(arms: seq<Arm>, l: Label, q: nat)
    requires q < |arms| && arms[q].tag == l && forall i :: 0 <= i < q ==> arms[i].tag != l
    ensures FromLabel(arms, l) == Some(arms[q..])
  {
    if q > 0 {
      FromLabelAt(arms[1..], l, q - 1);
    } else {
      assert arms[0..] == arms;
    }
  }

  lemma {:induction false} FromLabelNowhere(arms: seq<Arm>, l: Label)
    requires forall a <- arms :: a.tag != l
    ensures FromLabel(arms, l) == None
  {
    if arms != [] {
      assert arms[0] in arms;
      FromLabelNowhere(arms[1..], l);
    }
  }

  /** In C the switch runs the arm and falls through into the rest. */
  lemma ReachedInC(arms: seq<Arm>, q: nat, v: int)
    requires Reached(arms, q, v)
    ensures Selected(arms, v) == arms[q].body + Bodies(arms[q + 1..])
  {
    if arms[q].tag == Case(v) {
      FromLabelAt(arms, Case(v), q);
    } else {
      FromLabelNowhere(arms, Case(v));
      FromLabelAt(arms, Default, q);
    }
    assert arms[q..][1..] == arms[q + 1..];
  }

  /** So do the emitted tests, from a store that agrees. */
  lemma {:induction false} TestsReach(arms: seq<Arm>, pending: seq<Label>, q: nat, k: nat, lo: nat, v: int,
                                      pt: Store, fuel: nat)
    returns (at: nat, start: Store, rest: seq<PyStmt>)
    requires Reached(arms, q, v) && Default !in pending && Case(v) !in pending
    requires arms[q].tag.Default? && q == 0 ==> pending == []
    requires Flags(pt, k, v, false)
    ensures Agree(pt, start) && (q == |arms| - 1 ==> rest == [])
    ensures PyExecSeq(EmitNodes(Merge(LowerArms(arms, lo).arms, pending), k), pt, fuel) ==
            var p := PyExecSeq(LowerArm(arms[q], at).py, start, fuel);
            if p.out.Normal? then PyExecSeq(rest, p.st, fuel) else p
    decreases q
  {
    hide PyExec, LowerArm, Agree, EmitNode, TestLabels;
    var a, l := LowerArm(arms[0], lo), LowerArms(arms, lo);
    HollowLowersToNothing(arms[0], lo);
    assert l.arms[0] == PyArm(arms[0].tag, a.py) && l.arms[1..] == LowerArms(arms[1..], a.next).arms;
    var n := Node(pending + [arms[0].tag], a.py);
    if q > 0 && Hollow(arms[0]) {
      NextArm(arms, q, v);
      at, start, rest := TestsReach(arms[1..], n.tags, q - 1, k, a.next, v, pt, fuel);
    } else {
      var nodes := Merge(l.arms, pending);
      assert nodes[0] == n && nodes[1..] == Merge(l.arms[1..], []);
      var tests := EmitNodes(nodes, k);
      assert tests[0] == EmitNode(n, k) && tests[1..] == EmitNodes(nodes[1..], k);
      NodeStep(n, k, v, false, pt, fuel);
      if q == 0 {
        at, start, rest := lo, Marked(n, k, v, false, pt), tests[1..];
        MarkedAgrees(n, k, v, pt);
        assert arms[1..] == [] ==> rest == [];
      } else {
        NextArm(arms, q, v);
        at, start, rest := TestsReach(arms[1..], [], q - 1, k, a.next, v, pt, fuel);
      }
    }
  }

  lemma NextArm(arms: seq<Arm>, q: nat, v: int)
    requires Reached(arms, q, v) && q > 0
    ensures Reached(arms[1..], q - 1, v) && arms[1..][q - 1] == arms[q]
    ensures arms[q].tag.Default? && q == 1 ==> !Hollow(arms[0])
  {
    assert forall a <- arms[1..] :: a in arms;
  }

  lemma MarkedAgrees(n: Node, k: nat, v: int, pt: Store)
    ensures Agree(pt, Marked(n, k, v, false, pt))
  {
  }

  // ----- continue inside a switch -----

  /** Supported arms but for `continue`. */
  predicate ArmParts(arms: seq<Arm>) {
    arms != [] && DefaultPlaced(arms) && forall a <- arms :: SupportedSeq(a.body) && BreaksEnd(a)
  }

  predicate ArmsContinue(arms: seq<Arm>) {
    exists a <- arms :: Continues(a.body)
  }

  predicate SameArms(arms: seq<Arm>, other: seq<Arm>) {
    |arms| == |other| && forall i :: 0 <= i < |arms| ==> SameArm(arms[i], other[i])
  }

  /** The same label and braces, statements or none, and the same outline. */
  predicate SameArm(a: Arm, b: Arm) {
    a.tag == b.tag && a.braced == b.braced && Hollow(a) == Hollow(b) && SameOutlines(a.body, b.body)
  }

  /** A loop of supported parts around the switch. */
  predicate IsAround(cond: Expr, before: seq<CStmt>, subject: Expr, arms: seq<Arm>, after: seq<CStmt>) {
    UserExpr(cond) && SupportedSeq(before) && UserExpr(subject) && ArmParts(arms) && SupportedSeq(after)
  }

  function Around(cond: Expr, before: seq<CStmt>, subject: Expr, arms: seq<Arm>, after: seq<CStmt>): CStmt {
    CWhile(cond, before + [CSwitch(subject, arms)] + after)
  }

  /** For every switch: with arms of its outline, inside any loop, all are lowered rightly, if and only if
      no arm continues the loop. */
  lemma SwitchContinueIsExact(arms: seq<Arm>)
    requires ArmParts(arms) && DistinctLabels(arms)
    ensures (forall cond, before, subject, other, after ::
              IsAround(cond, before, subject, other, after) && SameArms(arms, other)
              ==> Right(Around(cond, before, subject, other, after)))
            <==> !ArmsContinue(arms)
  {
    if ArmsContinue(arms) {
      var q :| 0 <= q < |arms| && Continues(arms[q].body);
      var other := Refilled(arms, q);
      RefilledFits(arms, q);
      var cond, v := CONTINUING_SWITCH.cond, Num(Aim(other, q));
      CountSupported();
      assert IsAround(cond, [COUNT], v, other, []);
      RefilledIsWrong(arms, q);
      assert !Right(Around(cond, [COUNT], v, other, []));
    } else {
      forall cond, before, subject, other, after |
          IsAround(cond, before, subject, other, after) && SameArms(arms, other)
        ensures Right(Around(cond, before, subject, other, after))
      {
        AroundIsSupported(arms, cond, before, subject, other, after);
        SupportedIsRight(Around(cond, before, subject, other, after));
      }
    }
  }

  lemma CountSupported()
    ensures UserExpr(CONTINUING_SWITCH.cond) && SupportedSeq([COUNT]) && SupportedSeq([])
  {
  }

  lemma AroundIsSupported(arms: seq<Arm>, cond: Expr, before: seq<CStmt>, subject: Expr, other: seq<Arm>,
                          after: seq<CStmt>)
    requires !ArmsContinue(arms) && SameArms(arms, other) && IsAround(cond, before, subject, other, after)
    ensures Supported(Around(cond, before, subject, other, after))
  {
    hide Supported, BreaksEnd, DefaultPlaced, Continues;
    forall a | a in other ensures !Continues(a.body) {
      var i :| 0 <= i < |other| && other[i] == a;
      assert SameArm(arms[i], other[i]) && arms[i] in arms;
      OutlineContinues(arms[i].body, a.body);
    }
    SwitchOfParts(subject, other);
    var body := before + [CSwitch(subject, other)] + after;
    forall t | t in body ensures Supported(t) {
      assert t in before || t == CSwitch(subject, other) || t in after;
    }
    WhileOfParts(cond, body);
  }

  lemma SwitchOfParts(subject: Expr, arms: seq<Arm>)
    requires UserExpr(subject) && ArmParts(arms) && forall a <- arms :: !Continues(a.body)
    ensures Supported(CSwitch(subject, arms))
  {
  }

  lemma WhileOfParts(cond: Expr, body: seq<CStmt>)
    requires UserExpr(cond) && SupportedSeq(body)
    ensures Supported(CWhile(cond, body))
  {
  }

  /** The arms with arm `q` going straight to its first `continue`. */
  function Refilled(arms: seq<Arm>, q: nat): seq<Arm>
    requires q < |arms|
  {
    arms[q := arms[q].(body := Fill(arms[q].body))]
  }

  lemma RefilledFits(arms: seq<Arm>, q: nat)
    requires q < |arms| && ArmParts(arms) && Continues(arms[q].body)
    ensures ArmParts(Refilled(arms, q)) && SameArms(arms, Refilled(arms, q)) && !Hollow(Refilled(arms, q)[q])
    ensures DistinctLabels(arms) ==> DistinctLabels(Refilled(arms, q))
  {
    hide Supported, ContinuesStmt, Fill;
    var other := Refilled(arms, q);
    FillFits(arms[q].body);
    ContinuingIsNotHollow(arms[q]);
    OutlineContinues(arms[q].body, other[q].body);
    ContinuingIsNotHollow(other[q]);
    forall i | 0 <= i < |arms|
      ensures SameArm(arms[i], other[i]) && SupportedSeq(other[i].body) && BreaksEnd(other[i])
    {
      assert arms[i] in arms;
      OutlineIsItself(arms[i].body);
    }
    PlacedByShape(arms, other);
  }

  lemma ContinuingIsNotHollow(a: Arm)
    requires Continues(a.body)
    ensures !Hollow(a)
  {
  }

  lemma RefilledIsWrong(arms: seq<Arm>, q: nat)
    requires q < |arms| && ArmParts(arms) && DistinctLabels(arms) && Continues(arms[q].body)
    ensures var other := Refilled(arms, q);
            !RightAt(Around(CONTINUING_SWITCH.cond, [COUNT], Num(Aim(other, q)), other, []), 0, map[I := 0], 2)
  {
    hide Fill, Aim;
    var other := Refilled(arms, q);
    var v := Aim(other, q);
    RefilledFits(arms, q);
    AimReaches(other, q);
    RefilledEnds(arms, q, v);
    RefilledRuns(arms, q, v);
  }

  lemma RefilledEnds(arms: seq<Arm>, q: nat, v: int)
    requires q < |arms| && SupportedSeq(arms[q].body) && Continues(arms[q].body) && Reached(Refilled(arms, q), q, v)
    ensures CExec(Around(CONTINUING_SWITCH.cond, [COUNT], Num(v), Refilled(arms, q), []), map[I := 0], 2).out == Normal
  {
    hide Fill, Reached, Selected;
    var other := Refilled(arms, q);
    var st, done: Store := map[I := 0], map[I := 1];
    CountsUp(st, done);
    var switch := CSwitch(Num(v), other);
    assert CExec(switch, done, 1) == Run(Continued, done) by {
      ReachedInC(other, q, v);
      FillRuns(arms[q].body, done, 0);
      CExecSeqAppend(other[q].body, Bodies(other[q + 1..]), done, 0);
      assert Eval(Num(v), done) == Val(v, done);
    }
    var body := [COUNT] + [switch] + [];
    assert body[1..] == [switch];
    assert CExecSeq([switch], done, 1) == Run(Continued, done);
    assert CExecSeq(body, st, 1) == Run(Continued, done);
    var loop := Around(CONTINUING_SWITCH.cond, [COUNT], Num(v), other, []);
    assert CExec(loop, done, 1) == Run(Normal, done);
    assert CExec(loop, st, 2) == CExec(loop, done, 1);
  }

  /** The lowered switch restarts for ever. */
  lemma {:induction false} RefilledRestarts(arms: seq<Arm>, q: nat, v: int, k: nat, pt: Store, fuel: nat)
    requires q < |arms| && ArmParts(Refilled(arms, q)) && SupportedSeq(arms[q].body)
    requires Continues(arms[q].body) && Reached(Refilled(arms, q), q, v)
    ensures PyExec(Lower(CSwitch(Num(v), Refilled(arms, q)), k).py, pt, fuel).out == Timeout
    decreases fuel
  {
    hide Fill, Reached, Hollow, EmitNodes, Merge, SwitchBody, Flags, LowerArms;
    if fuel > 0 {
      var other := Refilled(arms, q);
      var b := Eval(Num(v), pt);
      var head := AfterHead(b, k);
      var nodes := Merge(LowerArms(other, k + 1).arms, []);
      SwitchLoopRuns(Num(v), nodes, k, pt, fuel);
      HeadFlags(b, k);
      var at, start, rest := TestsReach(other, [], q, k, k + 1, v, head, fuel - 1);
      FillRuns(arms[q].body, start, fuel - 1);
      assert other[q] in other;
      ArmSimulates(other[q], at, start, start, fuel - 1);
      assert PyExecSeq(LowerArm(other[q], at).py, start, fuel - 1).out.Continued?;
      RefilledRestarts(arms, q, v, k, PyExecSeq(EmitNodes(nodes, k), head, fuel - 1).st, fuel - 1);
    }
  }

  lemma HeadFlags(b: Value, k: nat)
    requires b.Val?
    ensures Flags(AfterHead(b, k), k, b.v, false)
  {
  }

  lemma RefilledRuns(arms: seq<Arm>, q: nat, v: int)
    requires q < |arms| && ArmParts(Refilled(arms, q)) && SupportedSeq(arms[q].body)
    requires Continues(arms[q].body) && Reached(Refilled(arms, q), q, v)
    ensures var loop := Around(CONTINUING_SWITCH.cond, [COUNT], Num(v), Refilled(arms, q), []);
            PyExec(Lower(loop, 0).py, map[I := 0], 2).out == Timeout
  {
    hide Fill, Reached, SwitchLoop, LowerArms, Aim, Supported, Continues;
    var switch := CSwitch(Num(v), Refilled(arms, q));
    var st, done: Store := map[I := 0], map[I := 1];
    CountsUp(st, done);
    var inner := Lower(switch, 0);
    var body := [COUNT] + [switch] + [];
    assert body[1..] == [switch] && [switch][1..] == [];
    assert LowerSeq([], inner.next) == LoweredSeq([], inner.next);
    assert LowerSeq([switch], 0).py == [inner.py];
    assert Lower(COUNT, 0) == Lowered(Assign(I, COUNT.e), 0) && body[0] == COUNT;
    assert LowerSeq(body, 0).py == [Assign(I, COUNT.e)] + LowerSeq([switch], 0).py;
    var py := [Assign(I, COUNT.e), inner.py];
    assert LowerBody(body, 0).py == py;
    RefilledRestarts(arms, q, v, 0, done, 1);
    assert PyExec(Assign(I, COUNT.e), st, 1) == Run(Normal, done);
    assert py[1..] == [inner.py];
    assert PyExecSeq([inner.py], done, 1).out == Timeout;
    assert PyExecSeq(py, st, 1).out == Timeout;
  }

  // ----- break inside an unbraced default -----

  /** Supported arms but for the places of `break` in `default`. */
  predicate BreakParts(arms: seq<Arm>) {
    arms != [] && DefaultPlaced(arms) && forall a <- arms :: SupportedSeq(a.body) && !Continues(a.body)
  }

  predicate SameBreaks(arms: seq<Arm>, other: seq<Arm>) {
    |arms| == |other| && forall i :: 0 <= i < |arms| ==> SameArmBreaks(arms[i], other[i])
  }

  /** The same label and braces, statements or none, and in an unbraced `default` the same places of `break`. */
  predicate SameArmBreaks(a: Arm, b: Arm) {
    a.tag == b.tag && a.braced == b.braced && Hollow(a) == Hollow(b) &&
    (a.tag.Default? && !a.braced ==> SamePlaces(a.body, b.body))
  }

  predicate SamePlaces(ss: seq<CStmt>, ts: seq<CStmt>) {
    |ss| == |ts| && forall i :: 0 <= i < |ss| ==> ss[i].CBreak? == ts[i].CBreak?
  }

  /** For every switch: with other statements in its arms, and `break` in the same places of an unbraced
      `default`, all are lowered rightly, if and only if only breaks follow the first `break` there. */
  lemma DefaultBreakIsExact(arms: seq<Arm>)
    requires BreakParts(arms)
    ensures (forall subject, other :: UserExpr(subject) && BreakParts(other) && SameBreaks(arms, other)
              ==> Right(CSwitch(subject, other)))
            <==> forall a <- arms :: BreaksEnd(a)
  {
    hide Supported, RightAt, Late, Continues, DefaultPlaced, Hollow;
    if forall a <- arms :: BreaksEnd(a) {
      forall subject, other | UserExpr(subject) && BreakParts(other) && SameBreaks(arms, other)
        ensures Right(CSwitch(subject, other))
      {
        forall b | b in other ensures BreaksEnd(b) {
          var i :| 0 <= i < |other| && other[i] == b;
          assert SameArmBreaks(arms[i], other[i]) && arms[i] in arms;
        }
        SwitchOfParts(subject, other);
        SupportedIsRight(CSwitch(subject, other));
      }
    } else {
      var q :| 0 <= q < |arms| && !BreaksEnd(arms[q]);
      var other := arms[q := arms[q].(body := Late(arms[q].body, false))];
      LateFits(arms, q);
      LateIsWrong(arms, q);
      NumberIsUser(Aim(other, q));
      assert !Right(CSwitch(Num(Aim(other, q)), other));
    }
  }

  lemma NumberIsUser(n: int)
    ensures UserExpr(Num(n))
  {
  }

  /** `x = 1` at every place after a `break`, nothing at the places before it. */
  function Late(ss: seq<CStmt>, broken: bool): seq<CStmt> {
    if ss == [] then [] else
    [if ss[0].CBreak? then CBreak else if broken then CAssign(X, Num(1)) else CExpr(Num(0))] +
    Late(ss[1..], broken || ss[0].CBreak?)
  }

  predicate HasBreak(ss: seq<CStmt>) {
    exists s <- ss :: s.CBreak?
  }

  /** Some statement other than `break` comes after a `break`. */
  predicate Writes(ss: seq<CStmt>, broken: bool) {
    ss != [] && ((broken && !ss[0].CBreak?) || Writes(ss[1..], broken || ss[0].CBreak?))
  }

  lemma {:induction false} WritesIfNotAtEnd(ss: seq<CStmt>, broken: bool, i: nat, j: nat)
    requires j < |ss| && !ss[j].CBreak? && (broken || (i < j && ss[i].CBreak?))
    ensures Writes(ss, broken)
    ensures i < j && ss[i].CBreak? ==> HasBreak(ss)
  {
    if j > 0 {
      if i == 0 || broken || ss[0].CBreak? {
        WritesIfNotAtEnd(ss[1..], true, 0, j - 1);
      } else {
        WritesIfNotAtEnd(ss[1..], false, i - 1, j - 1);
      }
    }
  }

  lemma {:induction false} LateShape(ss: seq<CStmt>, broken: bool)
    ensures SamePlaces(ss, Late(ss, broken)) && SupportedSeq(Late(ss, broken)) && !Continues(Late(ss, broken))
  {
    if ss != [] {
      LateShape(ss[1..], broken || ss[0].CBreak?);
    }
  }

  lemma {:induction false} LateInC(ss: seq<CStmt>, st: Store, fuel: nat)
    requires HasBreak(ss)
    ensures CExecSeq(Late(ss, false), st, fuel) == Run(Broke, st)
  {
    if !ss[0].CBreak? {
      LateInC(ss[1..], st, fuel);
      assert Late(ss, false)[1..] == Late(ss[1..], false);
    }
  }

  lemma {:induction false} LateLowered(ss: seq<CStmt>, broken: bool, k: nat, st: Store, fuel: nat)
    ensures var p := PyExecSeq(LowerDefault(Late(ss, broken), k).py, st, fuel);
            p.out.Normal? && (Writes(ss, broken) || X in st ==> X in p.st)
  {
    if ss != [] {
      var late, rest := Late(ss, broken), Late(ss[1..], broken || ss[0].CBreak?);
      assert late[1..] == rest;
      var d := LowerDefault(rest, k).py;
      var after := if broken && !ss[0].CBreak? then st[X := 1] else st;
      LateLowered(ss[1..], broken || ss[0].CBreak?, k, after, fuel);
      if !ss[0].CBreak? {
        var first := Lower(late[0], k).py;
        assert LowerDefault(late, k).py == [first] + d;
        assert PyExec(first, st, fuel) == Run(Normal, after);
        assert ([first] + d)[1..] == d;
      }
    }
  }

  lemma LateFits(arms: seq<Arm>, q: nat)
    requires q < |arms| && BreakParts(arms) && !BreaksEnd(arms[q])
    ensures var other := arms[q := arms[q].(body := Late(arms[q].body, false))];
            BreakParts(other) && SameBreaks(arms, other) && !Hollow(arms[q])
  {
    hide Supported, Continues, Late;
    var other := arms[q := arms[q].(body := Late(arms[q].body, false))];
    LateShape(arms[q].body, false);
    SamePlacesHollow(arms[q], other[q]);
    forall i | 0 <= i < |arms|
      ensures SameArmBreaks(arms[i], other[i]) && SupportedSeq(other[i].body) && !Continues(other[i].body)
    {
      assert arms[i] in arms;
    }
    PlacedByShape(arms, other);
  }

  lemma SamePlacesHollow(a: Arm, b: Arm)
    requires a.tag == b.tag && a.braced == b.braced && SamePlaces(a.body, b.body) && !BreaksEnd(a)
    ensures !Hollow(a) && !Hollow(b)
  {
    var i, j :| 0 <= i < j < |a.body| && a.body[i].CBreak? && !a.body[j].CBreak?;
    assert a.body[j] in a.body && b.body[j] in b.body;
  }

  /** In C the `default` breaks off before `x` is set. */
  lemma LateEnds(arms: seq<Arm>, q: nat, v: int, body: seq<CStmt>)
    requires q < |arms| && Reached(arms, q, v) && arms[q].body == Late(body, false) && HasBreak(body)
    ensures CExec(CSwitch(Num(v), arms), map[], 1) == Run(Normal, map[])
  {
    hide Late, Reached, Hollow, Selected;
    ReachedInC(arms, q, v);
    LateInC(body, map[], 0);
    CExecSeqAppend(arms[q].body, Bodies(arms[q + 1..]), map[], 0);
    assert Eval(Num(v), map[]) == Val(v, map[]);
  }

  /** Lowered, it sets `x`. */
  lemma LateRuns(arms: seq<Arm>, q: nat, v: int, body: seq<CStmt>)
    requires Reached(arms, q, v) && q == |arms| - 1 && arms[q].tag.Default? && !arms[q].braced
    requires arms[q].body == Late(body, false) && Writes(body, false)
    ensures X in PyExec(Lower(CSwitch(Num(v), arms), 0).py, map[], 1).st
  {
    hide Late, Reached, Hollow, EmitNodes, Merge, SwitchLoop, LowerArms, Flags;
    var b := Eval(Num(v), map[]);
    SwitchLoopRuns(Num(v), Merge(LowerArms(arms, 1).arms, []), 0, map[], 1);
    HeadFlags(b, 0);
    var at, start, rest := TestsReach(arms, [], q, 0, 1, v, AfterHead(b, 0), 0);
    LateLowered(body, false, at, start, 0);
  }

  lemma LateIsWrong(arms: seq<Arm>, q: nat)
    requires q < |arms| && BreakParts(arms) && !BreaksEnd(arms[q])
    ensures var other := arms[q := arms[q].(body := Late(arms[q].body, false))];
            !RightAt(CSwitch(Num(Aim(other, q)), other), 0, map[], 1)
  {
    hide Late, Aim, Reached, Hollow, CExec, PyExec, Lower, Writes, HasBreak;
    var body := arms[q].body;
    var other := arms[q := arms[q].(body := Late(body, false))];
    var i, j :| 0 <= i < j < |body| && body[i].CBreak? && !body[j].CBreak?;
    LateFits(arms, q);
    WritesIfNotAtEnd(body, false, i, j);
    assert SameArmBreaks(arms[q], other[q]);
    AimReaches(other, q);
    var v := Aim(other, q);
    LateEnds(other, q, v, body);
    LateRuns(other, q, v, body);
    var p := PyExec(Lower(CSwitch(Num(v), other), 0).py, map[], 1);
    assert !Same(map[], p.st, X);
  }
}
