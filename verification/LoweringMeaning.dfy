/**
  What the translator's output computes, for every statement of the program's own expressions and not
  only for those it translates rightly.  `Means` runs the C statement itself, with the twists the
  translation brings: a `continue` skips the post clause of a `for` and the test of a `do`, and
  restarts a `switch`; at the top of an unbraced `default` a `break` does nothing; arms are tested in
  groups, and a `default` in a group with other labels is compared with the variable `_`.
 */
module LoweringMeaning {
  import opened Options
  import opened ControlFlow
  import opened Lowering
  import opened LoweringProof

  /** Every expression and assignment is the program's own. */
  predicate UserStmt(s: CStmt) {
    match s
    case CAssign(x, e) => x.User? && UserExpr(e)
    case CExpr(e) => UserExpr(e)
    case CBreak => true
    case CContinue => true
    case CReturn(value) => UserOption(value)
    case CBlock(body) => forall t <- body :: UserStmt(t)
    case CIf(cond, thn, els) => UserExpr(cond) && (forall t <- thn :: UserStmt(t)) && forall t <- els :: UserStmt(t)
    case CWhile(cond, body) => UserExpr(cond) && forall t <- body :: UserStmt(t)
    case CDo(body, cond) => UserExpr(cond) && forall t <- body :: UserStmt(t)
    case CFor(init, test, post, body) =>
      UserOption(init) && UserOption(test) && UserOption(post) && forall t <- body :: UserStmt(t)
    case CSwitch(subject, arms) => UserExpr(subject) && forall a <- arms :: forall t <- a.body :: UserStmt(t)
  }

  predicate UserSeq(ss: seq<CStmt>) {
    forall t <- ss :: UserStmt(t)
  }

  predicate UserArms(arms: seq<Arm>) {
    forall a <- arms :: UserSeq(a.body)
  }

  // ----- the meaning -----

  function Means(s: CStmt, st: Store, fuel: nat): Run
    decreases fuel, s, 1
  {
    match s
    case CAssign(x, e) =>
      var a := Eval(e, st);
      if a.Fault? then Run(Failed, a.st) else Run(Normal, a.st[x := a.v])
    case CExpr(e) => Run(if Eval(e, st).Fault? then Failed else Normal, Eval(e, st).st)
    case CBreak => Run(Broke, st)
    case CContinue => Run(Continued, st)
    case CReturn(value) =>
      if value.None? then Run(Returned(None), st) else
      var a := Eval(value.value, st);
      if a.Fault? then Run(Failed, a.st) else Run(Returned(Some(a.v)), a.st)
    case CBlock(body) => MeansSeq(body, st, fuel)
    case CIf(cond, thn, els) =>
      var a := Eval(cond, st);
      if a.Fault? then Run(Failed, a.st) else MeansSeq(if a.v != 0 then thn else els, a.st, fuel)
    case CWhile(cond, body) =>
      if fuel == 0 then Run(Timeout, st) else
      var a := Eval(cond, st);
      if a.Fault? then Run(Failed, a.st)
      else if a.v == 0 then Run(Normal, a.st)
      else
        var r := MeansSeq(body, a.st, fuel - 1);
        if r.out.Normal? || r.out.Continued? then Means(s, r.st, fuel - 1) else AfterBreak(r)
    case CDo(body, cond) =>
      if fuel == 0 then Run(Timeout, st) else
      var r := MeansSeq(body, st, fuel - 1);
      if r.out.Continued? then Means(s, r.st, fuel - 1) // the test is skipped
      else if !r.out.Normal? then AfterBreak(r)
      else
        var a := Eval(cond, r.st);
        if a.Fault? then Run(Failed, a.st)
        else if a.v == 0 then Run(Normal, a.st)
        else Means(s, a.st, fuel - 1)
    case CFor(init, _, _, _) =>
      if init.None? then MeansFor(s, st, fuel) else
      var a := Eval(init.value, st);
      if a.Fault? then Run(Failed, a.st) else MeansFor(s, a.st, fuel)
    case CSwitch(subject, arms) =>
      if fuel == 0 then Run(Timeout, st) else
      var a := Eval(subject, st);
      if a.Fault? then Run(Failed, a.st) else
      var r := MeansArms(arms, [], a.v, false, false, a.st, fuel - 1);
      if r.out.Continued? then Means(s, r.st, fuel - 1) // the switch is restarted
      else AfterBreak(r)
  }

  function MeansFor(s: CStmt, st: Store, fuel: nat): Run
    requires s.CFor?
    decreases fuel, s, 0
  {
    if fuel == 0 then Run(Timeout, st) else
    var a := if s.test.None? then Val(1, st) else Eval(s.test.value, st);
    if a.Fault? then Run(Failed, a.st)
    else if a.v == 0 then Run(Normal, a.st)
    else
      var r := MeansSeq(s.body, a.st, fuel - 1);
      if r.out.Continued? then MeansFor(s, r.st, fuel - 1) // the post clause is skipped
      else if !r.out.Normal? then AfterBreak(r)
      else if s.post.None? then MeansFor(s, r.st, fuel - 1)
      else
        var b := Eval(s.post.value, r.st);
        if b.Fault? then Run(Failed, b.st) else MeansFor(s, b.st, fuel - 1)
  }

  function MeansSeq(ss: seq<CStmt>, st: Store, fuel: nat): Run
    decreases fuel, ss, 0
  {
    if ss == [] then Run(Normal, st) else
    var r := Means(ss[0], st, fuel);
    if r.out.Normal? then MeansSeq(ss[1..], r.st, fuel) else r
  }

  /** The statements after an unbraced `default:`, passing over every `break`. */
  function MeansDefault(ss: seq<CStmt>, st: Store, fuel: nat): Run
    decreases fuel, ss, 0
  {
    if ss == [] then Run(Normal, st)
    else if ss[0].CBreak? then MeansDefault(ss[1..], st, fuel)
    else
      var r := Means(ss[0], st, fuel);
      if r.out.Normal? then MeansDefault(ss[1..], r.st, fuel) else r
  }

  function MeansArm(a: Arm, st: Store, fuel: nat): Run
    decreases fuel, a, 3
  {
    if a.tag.Default? && !a.braced then MeansDefault(a.body, st, fuel) else MeansSeq(a.body, st, fuel)
  }

  /** Whether `v` hits one of the labels, asked in order; `None` if the variable `_` is unbound when asked for. */
  function Hits(labels: seq<Label>, v: int, st: Store): Option<bool> {
    if labels == [] then Some(false)
    else if labels[0].Default? && User("_") !in st then None
    else if v == (if labels[0].Case? then labels[0].n else st[User("_")]) then Some(true)
    else Hits(labels[1..], v, st)
  }

  /** Runs the arms from the first on.  `labels` are those of the arms without statements just before, `matched`
      says that an arm was entered, `any` that one was entered by a hit. */
  function MeansArms(arms: seq<Arm>, labels: seq<Label>, v: int, matched: bool, any: bool, st: Store, fuel: nat): Run
    decreases fuel, arms, 4
  {
    if arms == [] then Run(Normal, st)
    else if Hollow(arms[0]) then MeansArms(arms[1..], labels + [arms[0].tag], v, matched, any, st, fuel)
    else
      var group := labels + [arms[0].tag];
      var hit := if matched then Some(true) else if group == [Default] then Some(!any) else Hits(group, v, st);
      if hit.None? then Run(Failed, st)
      else if !hit.value then MeansArms(arms[1..], [], v, false, any, st, fuel)
      else
        var r := MeansArm(arms[0], st, fuel);
        if r.out.Normal? then
          MeansArms(arms[1..], [], v, true, any || (!matched && group != [Default]), r.st, fuel)
        else r
  }

  // ----- the emitted tests -----

  ghost predicate State(pt: Store, k: nat, v: int, matched: bool, any: bool) {
    && Temp(SwitchOn, k) in pt && pt[Temp(SwitchOn, k)] == v
    && Temp(ControlFlow.Matched, k) in pt && pt[Temp(ControlFlow.Matched, k)] == (if matched then 1 else 0)
    && Temp(MatchedAny, k) in pt && pt[Temp(MatchedAny, k)] == (if any then 1 else 0)
  }

  lemma {:induction false} TestMeans(labels: seq<Label>, k: nat, v: int, pt: Store)
    requires labels != [] && Temp(SwitchOn, k) in pt && pt[Temp(SwitchOn, k)] == v
    ensures Eval(TestLabels(labels, k), pt) ==
            match Hits(labels, v, pt) case None => Fault(pt) case Some(h) => Val(if h then 1 else 0, pt)
  {
    var l := labels[0];
    assert Eval(Var(Temp(SwitchOn, k)), pt) == Val(v, pt);
    assert Eval(TestLabel(l, k), pt) ==
           if l.Default? && User("_") !in pt then Fault(pt)
           else Val(if v == (if l.Case? then l.n else pt[User("_")]) then 1 else 0, pt);
    if |labels| > 1 {
      TestMeans(labels[1..], k, v, pt);
    } else {
      assert labels[1..] == [];
    }
  }

  /** The store in which the statements of an entered group start. */
  function Entered(group: seq<Label>, k: nat, matched: bool, pt: Store): Store {
    (if group != [Default] && !matched then pt[Temp(MatchedAny, k) := 1] else pt)[Temp(ControlFlow.Matched, k) := 1]
  }

  lemma NodeMeans(n: Node, k: nat, v: int, matched: bool, any: bool, pt: Store, fuel: nat)
    requires n.tags != [] && State(pt, k, v, matched, any)
    ensures var hit := if matched then Some(true) else if n.tags == [Default] then Some(!any) else Hits(n.tags, v, pt);
            PyExec(EmitNode(n, k), pt, fuel) ==
            if hit.None? then Run(Failed, pt)
            else if hit.value then PyExecSeq(n.body, Entered(n.tags, k, matched, pt), fuel)
            else Run(Normal, pt)
  {
    if n.tags == [Default] {
      DefaultNodeMeans(n, k, v, matched, any, pt, fuel);
    } else {
      TestMeans(n.tags, k, v, pt);
      GroupNodeMeans(n, k, matched, pt, fuel);
    }
  }

  lemma GroupNodeMeans(n: Node, k: nat, matched: bool, pt: Store, fuel: nat)
    requires n.tags != [] && n.tags != [Default]
    requires Temp(ControlFlow.Matched, k) in pt && pt[Temp(ControlFlow.Matched, k)] == (if matched then 1 else 0)
    requires matched || Eval(TestLabels(n.tags, k), pt) in {Fault(pt), Val(0, pt), Val(1, pt)}
    ensures var hit := if matched then Val(1, pt) else Eval(TestLabels(n.tags, k), pt);
            PyExec(EmitNode(n, k), pt, fuel) ==
            if hit.Fault? then Run(Failed, pt)
            else if hit.v == 1 then PyExecSeq(n.body, Entered(n.tags, k, matched, pt), fuel)
            else Run(Normal, pt)
  {
    hide TestLabels, PyExecSeq, Entered;
    var m, test := Var(Temp(ControlFlow.Matched, k)), TestLabels(n.tags, k);
    var mark := Assign(Temp(ControlFlow.Matched, k), TRUE);
    var prologue := [If(And(Not(m), test), [Assign(Temp(MatchedAny, k), TRUE)], []), mark];
    assert Eval(m, pt) == Val(if matched then 1 else 0, pt);
    OrMeans(m, test, pt);
    IfMeansBody(Or(m, test), prologue + n.body, pt, fuel);
    assert EmitNode(n, k) == If(Or(m, test), prologue + n.body, []);
    if matched || Eval(test, pt) == Val(1, pt) {
      NoteMeans(test, k, matched, pt, fuel);
      PyExecSeqAppend(prologue, n.body, pt, fuel);
      EnteredIs(n.tags, k, matched, pt);
    }
  }

  lemma OrMeans(l: Expr, r: Expr, pt: Store)
    ensures var a := Eval(l, pt); Eval(Or(l, r), pt) == if a.Fault? || a.v != 0 then a else Eval(r, a.st)
  {
  }

  lemma IfMeansBody(test: Expr, body: seq<PyStmt>, pt: Store, fuel: nat)
    ensures var a := Eval(test, pt);
            PyExec(If(test, body, []), pt, fuel) ==
            if a.Fault? then Run(Failed, a.st) else if a.v != 0 then PyExecSeq(body, a.st, fuel) else Run(Normal, a.st)
  {
    var a := Eval(test, pt);
    assert PyExecSeq([], a.st, fuel) == Run(Normal, a.st);
  }

  lemma EnteredIs(group: seq<Label>, k: nat, matched: bool, pt: Store)
    requires group != [Default]
    ensures Entered(group, k, matched, pt) ==
            (if matched then pt else pt[Temp(MatchedAny, k) := 1])[Temp(ControlFlow.Matched, k) := 1]
  {
  }

  lemma DefaultNodeMeans(n: Node, k: nat, v: int, matched: bool, any: bool, pt: Store, fuel: nat)
    requires n.tags == [Default] && State(pt, k, v, matched, any)
    ensures PyExec(EmitNode(n, k), pt, fuel) ==
            if matched || !any then PyExecSeq(n.body, pt[Temp(ControlFlow.Matched, k) := 1], fuel) else Run(Normal, pt)
  {
    var m, none := Var(Temp(ControlFlow.Matched, k)), Not(Var(Temp(MatchedAny, k)));
    var mark := Assign(Temp(ControlFlow.Matched, k), TRUE);
    assert Eval(m, pt) == Val(if matched then 1 else 0, pt);
    assert Eval(none, pt) == Val(if any then 0 else 1, pt);
    OrMeans(m, none, pt);
    IfMeansBody(Or(m, none), [mark] + n.body, pt, fuel);
    assert EmitNode(n, k) == If(Or(m, none), [mark] + n.body, []);
    PyExecSeqAppend([mark], n.body, pt, fuel);
    assert PyExecSeq([mark], pt, fuel) == Run(Normal, pt[Temp(ControlFlow.Matched, k) := 1]);
  }

  lemma NoteMeans(test: Expr, k: nat, matched: bool, pt: Store, fuel: nat)
    requires Temp(ControlFlow.Matched, k) in pt && pt[Temp(ControlFlow.Matched, k)] == (if matched then 1 else 0)
    requires matched || Eval(test, pt) == Val(1, pt)
    ensures var m := Var(Temp(ControlFlow.Matched, k));
            var note := If(And(Not(m), test), [Assign(Temp(MatchedAny, k), TRUE)], []);
            PyExecSeq([note, Assign(Temp(ControlFlow.Matched, k), TRUE)], pt, fuel) ==
            Run(Normal, (if matched then pt else pt[Temp(MatchedAny, k) := 1])[Temp(ControlFlow.Matched, k) := 1])
  {
    var m := Var(Temp(ControlFlow.Matched, k));
    var set1, mark := Assign(Temp(MatchedAny, k), TRUE), Assign(Temp(ControlFlow.Matched, k), TRUE);
    var note := If(And(Not(m), test), [set1], []);
    var mid := if matched then pt else pt[Temp(MatchedAny, k) := 1];
    assert Eval(Not(m), pt) == Val(if matched then 0 else 1, pt);
    assert Eval(note.test, pt) == Val(if matched then 0 else 1, pt);
    assert PyExecSeq([set1], pt, fuel) == Run(Normal, pt[Temp(MatchedAny, k) := 1]);
    assert PyExec(note, pt, fuel) == Run(Normal, mid);
    assert [note, mark][1..] == [mark];
    assert PyExecSeq([mark], mid, fuel) == Run(Normal, mid[Temp(ControlFlow.Matched, k) := 1]);
  }

  lemma EnteredKeeps(group: seq<Label>, k: nat, v: int, matched: bool, any: bool, st: Store, pt: Store)
    requires State(pt, k, v, matched, any) && Agree(st, pt)
    ensures var to := Entered(group, k, matched, pt);
            State(to, k, v, true, any || (!matched && group != [Default])) &&
            Agree(st, to) && KeepTemps(pt, to, k, k + 1)
  {
    var to := Entered(group, k, matched, pt);
    forall id: string ensures Same(st, to, User(id)) {
      assert Same(st, pt, User(id));
    }
  }

  /** Groups without statements at the end do nothing. */
  lemma {:induction false} FlushMeans(pending: seq<Label>, k: nat, v: int, matched: bool, any: bool,
                                      st: Store, pt: Store, fuel: nat)
    requires State(pt, k, v, matched, any) && Agree(st, pt)
    ensures Simulates(Run(Normal, st), PyExecSeq(EmitNodes(Flush(pending), k), pt, fuel), pt, k, k + 1)
  {
    hide Agree, KeepTemps, State, Entered, EmitNode;
    KeepTempsSelf(pt);
    if pending != [] {
      var n := Node([pending[0]], [Pass]);
      NodeMeans(n, k, v, matched, any, pt, fuel);
      var rest := Flush(pending[1..]);
      assert Flush(pending)[1..] == rest;
      assert EmitNodes(Flush(pending), k)[1..] == EmitNodes(rest, k);
      assert n.tags[1..] == [];
      var hit := if matched then true else if n.tags == [Default] then !any else n.tags[0].n == v;
      if hit {
        var to := Entered(n.tags, k, matched, pt);
        EnteredKeeps(n.tags, k, v, matched, any, st, pt);
        assert PyExecSeq([Pass], to, fuel) == Run(Normal, to) by {
          PassMeans(to, fuel);
        }
        FlushMeans(pending[1..], k, v, true, any || (!matched && n.tags != [Default]), st, to, fuel);
        KeepTempsTrans(pt, to, PyExecSeq(EmitNodes(rest, k), to, fuel).st, k, k + 1, k, k + 1, k, k + 1);
      } else {
        FlushMeans(pending[1..], k, v, matched, any, st, pt, fuel);
      }
    }
  }

  lemma PassMeans(pt: Store, fuel: nat)
    ensures PyExecSeq([Pass], pt, fuel) == Run(Normal, pt)
  {
  }

  // ----- the whole tree -----

  lemma {:induction false} SeqMeans(ss: seq<CStmt>, k: nat, st: Store, pt: Store, fuel: nat)
    requires UserSeq(ss) && Agree(st, pt)
    ensures var l := LowerSeq(ss, k);
            Simulates(MeansSeq(ss, st, fuel), PyExecSeq(l.py, pt, fuel), pt, k, l.next)
    decreases fuel, ss, 0
  {
    hide Agree, KeepTemps, Lower, Means, PyExec;
    KeepTempsSelf(pt);
    if ss != [] {
      var l, a := LowerSeq(ss, k), Lower(ss[0], k);
      assert l.py[0] == a.py && l.py[1..] == LowerSeq(ss[1..], a.next).py;
      StatementMeans(ss[0], k, st, pt, fuel);
      var c, p := Means(ss[0], st, fuel), PyExec(a.py, pt, fuel);
      KeepTempsTrans(pt, pt, p.st, k, k, k, a.next, k, l.next);
      if c.out.Normal? {
        SeqMeans(ss[1..], a.next, c.st, p.st, fuel);
        KeepTempsTrans(pt, p.st, PyExecSeq(l.py[1..], p.st, fuel).st, k, a.next, a.next, l.next, k, l.next);
      }
    }
  }

  lemma {:induction false} BodyMeans(ss: seq<CStmt>, k: nat, st: Store, pt: Store, fuel: nat)
    requires UserSeq(ss) && Agree(st, pt)
    ensures var l := LowerBody(ss, k);
            Simulates(MeansSeq(ss, st, fuel), PyExecSeq(l.py, pt, fuel), pt, k, l.next)
    decreases fuel, ss, 2
  {
    hide Agree, KeepTemps;
    KeepTempsSelf(pt);
    if ss == [] {
      PassMeans(pt, fuel);
    } else {
      SeqMeans(ss, k, st, pt, fuel);
    }
  }

  lemma {:induction false} DefaultMeans(ss: seq<CStmt>, k: nat, st: Store, pt: Store, fuel: nat)
    requires UserSeq(ss) && Agree(st, pt)
    ensures var l := LowerDefault(ss, k);
            Simulates(MeansDefault(ss, st, fuel), PyExecSeq(l.py, pt, fuel), pt, k, l.next)
    decreases fuel, ss, 0
  {
    hide Agree, KeepTemps, Means, PyExec;
    KeepTempsSelf(pt);
    if ss != [] {
      var l, a := LowerDefault(ss, k), Lower(ss[0], k);
      OnlyBreakLowersToBreak(ss[0], k);
      if ss[0].CBreak? {
        DefaultMeans(ss[1..], k, st, pt, fuel);
      } else {
        assert l.py[0] == a.py && l.py[1..] == LowerDefault(ss[1..], a.next).py;
        StatementMeans(ss[0], k, st, pt, fuel);
        var c, p := Means(ss[0], st, fuel), PyExec(a.py, pt, fuel);
        KeepTempsTrans(pt, pt, p.st, k, k, k, a.next, k, l.next);
        if c.out.Normal? {
          DefaultMeans(ss[1..], a.next, c.st, p.st, fuel);
          KeepTempsTrans(pt, p.st, PyExecSeq(l.py[1..], p.st, fuel).st, k, a.next, a.next, l.next, k, l.next);
        }
      }
    }
  }

  lemma OnlyBreakLowersToBreak(s: CStmt, k: nat)
    ensures Lower(s, k).py.Break? <==> s.CBreak?
    ensures s.CBreak? ==> Lower(s, k).next == k
  {
  }

  lemma {:induction false} ArmMeans(a: Arm, k: nat, st: Store, pt: Store, fuel: nat)
    requires UserSeq(a.body) && Agree(st, pt)
    ensures var l := LowerArm(a, k);
            Simulates(MeansArm(a, st, fuel), PyExecSeq(l.py, pt, fuel), pt, k, l.next)
    decreases fuel, a, 3
  {
    hide Agree, KeepTemps;
    if a.tag.Default? && !a.braced {
      DefaultMeans(a.body, k, st, pt, fuel);
    } else if a.braced {
      BodyMeans(a.body, k, st, pt, fuel);
    } else {
      SeqMeans(a.body, k, st, pt, fuel);
    }
  }

  lemma SameHits(labels: seq<Label>, v: int, st: Store, pt: Store)
    requires Agree(st, pt)
    ensures Hits(labels, v, st) == Hits(labels, v, pt)
  {
    assert Same(st, pt, User("_"));
    HitsBy(labels, v, st, pt);
  }

  lemma {:induction false} HitsBy(labels: seq<Label>, v: int, st: Store, pt: Store)
    requires Same(st, pt, User("_"))
    ensures Hits(labels, v, st) == Hits(labels, v, pt)
  {
    if labels != [] {
      HitsBy(labels[1..], v, st, pt);
    }
  }

  ghost predicate ArmsRun(arms: seq<Arm>, labels: seq<Label>, k: nat, lo: nat, v: int, matched: bool, any: bool,
                          st: Store, pt: Store, fuel: nat) {
    var l := LowerArms(arms, lo);
    Simulates(MeansArms(arms, labels, v, matched, any, st, fuel),
              PyExecSeq(EmitNodes(Merge(l.arms, labels), k), pt, fuel), pt, k, l.next)
  }

  lemma {:induction false} ArmsMean(arms: seq<Arm>, labels: seq<Label>, k: nat, lo: nat, v: int, matched: bool,
                                    any: bool, st: Store, pt: Store, fuel: nat)
    requires k < lo && UserArms(arms) && Agree(st, pt) && State(pt, k, v, matched, any)
    ensures ArmsRun(arms, labels, k, lo, v, matched, any, st, pt, fuel)
    decreases fuel, arms, 5
  {
    hide Agree, KeepTemps, State, Hollow, LowerArm, EmitNode, MeansArm;
    if arms == [] {
      FlushMeans(labels, k, v, matched, any, st, pt, fuel);
      KeepTempsSelf(pt);
      KeepTempsTrans(pt, pt, PyExecSeq(EmitNodes(Flush(labels), k), pt, fuel).st, 0, 0, k, k + 1, k, lo);
    } else {
      var a, l := LowerArm(arms[0], lo), LowerArms(arms, lo);
      assert l.arms[0] == PyArm(arms[0].tag, a.py) && l.arms[1..] == LowerArms(arms[1..], a.next).arms;
      HollowLowersToNothing(arms[0], lo);
      if Hollow(arms[0]) {
        ArmsMean(arms[1..], labels + [arms[0].tag], k, a.next, v, matched, any, st, pt, fuel);
      } else {
        SolidMeans(arms, labels, k, lo, v, matched, any, st, pt, fuel);
      }
    }
  }

  lemma {:induction false} SolidMeans(arms: seq<Arm>, labels: seq<Label>, k: nat, lo: nat, v: int, matched: bool,
                                      any: bool, st: Store, pt: Store, fuel: nat)
    requires arms != [] && !Hollow(arms[0])
    requires k < lo && UserArms(arms) && Agree(st, pt) && State(pt, k, v, matched, any)
    ensures ArmsRun(arms, labels, k, lo, v, matched, any, st, pt, fuel)
    decreases fuel, arms, 4
  {
    hide Agree, KeepTemps, State, Hollow, LowerArm, EmitNode, MeansArm, Hits, Entered;
    var a, l := LowerArm(arms[0], lo), LowerArms(arms, lo);
    HollowLowersToNothing(arms[0], lo);
    assert l.arms[0] == PyArm(arms[0].tag, a.py) && l.arms[1..] == LowerArms(arms[1..], a.next).arms;
    var n := Node(labels + [arms[0].tag], a.py);
    var nodes, rest := Merge(l.arms, labels), Merge(l.arms[1..], []);
    assert nodes[0] == n && nodes[1..] == rest;
    var tests := EmitNodes(nodes, k);
    assert tests[0] == EmitNode(n, k) && tests[1..] == EmitNodes(rest, k);
    NodeMeans(n, k, v, matched, any, pt, fuel);
    SameHits(n.tags, v, st, pt);
    var hit := if matched then Some(true) else if n.tags == [Default] then Some(!any) else Hits(n.tags, v, st);
    KeepTempsSelf(pt);
    if hit == Some(true) {
      EnteredMeans(arms, n, k, lo, v, matched, any, st, pt, fuel);
    } else if hit == Some(false) {
      ArmsMean(arms[1..], [], k, a.next, v, false, any, st, pt, fuel);
    }
  }

  /** An entered arm runs its statements and falls through into the rest. */
  lemma {:induction false} EnteredMeans(arms: seq<Arm>, n: Node, k: nat, lo: nat, v: int, matched: bool, any: bool,
                                        st: Store, pt: Store, fuel: nat)
    requires arms != [] && n.body == LowerArm(arms[0], lo).py
    requires k < lo && UserArms(arms) && Agree(st, pt) && State(pt, k, v, matched, any)
    ensures var l := LowerArms(arms, lo);
            var rest := Merge(LowerArms(arms[1..], LowerArm(arms[0], lo).next).arms, []);
            var c := MeansArm(arms[0], st, fuel);
            var p := PyExecSeq(n.body, Entered(n.tags, k, matched, pt), fuel);
            var now := any || (!matched && n.tags != [Default]);
            Simulates(if c.out.Normal? then MeansArms(arms[1..], [], v, true, now, c.st, fuel) else c,
                      if p.out.Normal? then PyExecSeq(EmitNodes(rest, k), p.st, fuel) else p, pt, k, l.next)
    decreases fuel, arms, 3
  {
    hide Agree, KeepTemps, State, LowerArm, EmitNodes, MeansArm, MeansArms, Merge, Entered;
    var a, l := LowerArm(arms[0], lo), LowerArms(arms, lo);
    assert l.next == LowerArms(arms[1..], a.next).next;
    var now := any || (!matched && n.tags != [Default]);
    var start := Entered(n.tags, k, matched, pt);
    EnteredKeeps(n.tags, k, v, matched, any, st, pt);
    assert arms[0] in arms;
    ArmMeans(arms[0], lo, st, start, fuel);
    var c, p := MeansArm(arms[0], st, fuel), PyExecSeq(a.py, start, fuel);
    KeepTempsTrans(pt, start, p.st, k, k + 1, lo, a.next, k, l.next);
    if c.out.Normal? {
      StateKept(start, p.st, k, lo, a.next, v, true, now);
      ArmsMean(arms[1..], [], k, a.next, v, true, now, c.st, p.st, fuel);
      var rest := EmitNodes(Merge(LowerArms(arms[1..], a.next).arms, []), k);
      KeepTempsTrans(pt, p.st, PyExecSeq(rest, p.st, fuel).st, k, l.next, k, l.next, k, l.next);
    }
  }

  lemma StateKept(pt: Store, qt: Store, k: nat, lo: nat, hi: nat, v: int, matched: bool, any: bool)
    requires State(pt, k, v, matched, any) && KeepTemps(pt, qt, lo, hi) && k < lo
    ensures State(qt, k, v, matched, any)
  {
    assert Same(pt, qt, Temp(SwitchOn, k)) && Same(pt, qt, Temp(ControlFlow.Matched, k))
        && Same(pt, qt, Temp(MatchedAny, k));
  }

  lemma {:induction false} SwitchMeans(subject: Expr, arms: seq<Arm>, k: nat, st: Store, pt: Store, fuel: nat)
    requires UserExpr(subject) && UserArms(arms) && Agree(st, pt)
    ensures var l := Lower(CSwitch(subject, arms), k);
            Simulates(Means(CSwitch(subject, arms), st, fuel), PyExec(l.py, pt, fuel), pt, k, l.next)
    decreases fuel, arms, 6
  {
    hide Agree, KeepTemps, State, EmitNodes, Merge, LowerArms, MeansArms, UserArms;
    KeepTempsSelf(pt);
    if fuel > 0 {
      EvalAgrees(subject, st, pt);
      var a, b := Eval(subject, st), Eval(subject, pt);
      var l := LowerArms(arms, k + 1);
      SwitchLoopRuns(subject, Merge(l.arms, []), k, pt, fuel);
      KeepTempsTrans(pt, pt, b.st, 0, 0, 0, 0, k, l.next);
      if a.Val? {
        var head := AfterHead(b, k);
        var c := MeansArms(arms, [], a.v, false, false, a.st, fuel - 1);
        var r := PyExecSeq(EmitNodes(Merge(l.arms, []), k), head, fuel - 1);
        HeadKeeps(b, k, pt, a.st);
        HeadState(b, k);
        ArmsMean(arms, [], k, k + 1, a.v, false, false, a.st, head, fuel - 1);
        KeepTempsTrans(pt, head, r.st, k, k + 1, k, l.next, k, l.next);
        if c.out.Continued? {
          SwitchMeans(subject, arms, k, c.st, r.st, fuel - 1);
          var again := PyExec(SwitchLoop(subject, Merge(l.arms, []), k), r.st, fuel - 1);
          KeepTempsTrans(pt, r.st, again.st, k, l.next, k, l.next, k, l.next);
        }
      }
    }
  }

  lemma HeadState(b: Value, k: nat)
    requires b.Val?
    ensures State(AfterHead(b, k), k, b.v, false, false)
  {
  }

  lemma {:induction false} WhileMeans(s: CStmt, k: nat, st: Store, pt: Store, fuel: nat)
    requires s.CWhile? && UserStmt(s) && Agree(st, pt)
    ensures var l := Lower(s, k); Simulates(Means(s, st, fuel), PyExec(l.py, pt, fuel), pt, k, l.next)
    decreases fuel, s, 0
  {
    hide Agree, KeepTemps, MeansSeq, PyExecSeq, LowerBody;
    KeepTempsSelf(pt);
    if fuel > 0 {
      var b := LowerBody(s.body, k);
      EvalAgrees(s.cond, st, pt);
      var e, f := Eval(s.cond, st), Eval(s.cond, pt);
      KeepTempsTrans(pt, pt, f.st, 0, 0, 0, 0, k, b.next);
      if e.Val? && e.v != 0 {
        BodyMeans(s.body, k, e.st, f.st, fuel - 1);
        var c, p := MeansSeq(s.body, e.st, fuel - 1), PyExecSeq(b.py, f.st, fuel - 1);
        KeepTempsTrans(pt, f.st, p.st, k, b.next, k, b.next, k, b.next);
        if c.out.Normal? || c.out.Continued? {
          WhileMeans(s, k, c.st, p.st, fuel - 1);
          KeepTempsTrans(pt, p.st, PyExec(Lower(s, k).py, p.st, fuel - 1).st, k, b.next, k, b.next, k, b.next);
        }
      }
    }
  }

  /** The lowered test at the end of a `do`. */
  lemma LastMeans(cond: Expr, pt: Store, fuel: nat)
    ensures var f := Eval(cond, pt);
            PyExecSeq([If(Not(cond), [Break], [])], pt, fuel) ==
            Run(if f.Fault? then Failed else if f.v == 0 then Broke else Normal, f.st)
  {
    var f := Eval(cond, pt);
    var last := If(Not(cond), [Break], []);
    if f.Val? {
      assert Eval(last.test, pt) == Val(if f.v == 0 then 1 else 0, f.st);
      assert PyExecSeq([Break], f.st, fuel) == Run(Broke, f.st);
      assert PyExec(last, pt, fuel) == Run(if f.v == 0 then Broke else Normal, f.st);
    }
  }

  lemma {:induction false} DoMeans(s: CStmt, k: nat, st: Store, pt: Store, fuel: nat)
    requires s.CDo? && UserStmt(s) && Agree(st, pt)
    ensures var l := Lower(s, k); Simulates(Means(s, st, fuel), PyExec(l.py, pt, fuel), pt, k, l.next)
    decreases fuel, s, 0
  {
    hide Agree, KeepTemps, MeansSeq, PyExecSeq, LowerBody;
    KeepTempsSelf(pt);
    if fuel > 0 {
      var b, loop := LowerBody(s.body, k), Lower(s, k).py;
      BodyMeans(s.body, k, st, pt, fuel - 1);
      PyExecSeqAppend(b.py, [If(Not(s.cond), [Break], [])], pt, fuel - 1);
      var c, p := MeansSeq(s.body, st, fuel - 1), PyExecSeq(b.py, pt, fuel - 1);
      if c.out.Continued? {
        DoMeans(s, k, c.st, p.st, fuel - 1);
        KeepTempsTrans(pt, p.st, PyExec(loop, p.st, fuel - 1).st, k, b.next, k, b.next, k, b.next);
      } else if c.out.Normal? {
        LastMeans(s.cond, p.st, fuel - 1);
        EvalAgrees(s.cond, c.st, p.st);
        var e, f := Eval(s.cond, c.st), Eval(s.cond, p.st);
        KeepTempsTrans(pt, p.st, f.st, k, b.next, 0, 0, k, b.next);
        if e.Val? && e.v != 0 {
          DoMeans(s, k, e.st, f.st, fuel - 1);
          KeepTempsTrans(pt, f.st, PyExec(loop, f.st, fuel - 1).st, k, b.next, k, b.next, k, b.next);
        }
      }
    }
  }

  lemma {:induction false} ForLoopMeans(s: CStmt, k: nat, st: Store, pt: Store, fuel: nat)
    requires s.CFor? && UserStmt(s) && Agree(st, pt)
    ensures var b := LowerBody(s.body, k);
            Simulates(MeansFor(s, st, fuel), PyExec(ForLoop(None, s.test, s.post, b.py), pt, fuel), pt, k, b.next)
    decreases fuel, s, 1
  {
    hide Agree, KeepTemps, MeansSeq, PyExecSeq, LowerBody;
    KeepTempsSelf(pt);
    if fuel > 0 {
      var b := LowerBody(s.body, k);
      var loop := ForLoop(None, s.test, s.post, b.py);
      if s.test.Some? {
        EvalAgrees(s.test.value, st, pt);
      }
      var e := if s.test.None? then Val(1, st) else Eval(s.test.value, st);
      var f := Eval(loop.test, pt);
      KeepTempsTrans(pt, pt, f.st, 0, 0, 0, 0, k, b.next);
      if e.Val? && e.v != 0 {
        TurnMeans(s, k, e.st, f.st, fuel - 1);
        var c, p := Turn(s, e.st, fuel - 1), PyExecSeq(loop.body, f.st, fuel - 1);
        KeepTempsTrans(pt, f.st, p.st, 0, 0, k, b.next, k, b.next);
        if c.out.Normal? || c.out.Continued? {
          ForLoopMeans(s, k, c.st, p.st, fuel - 1);
          KeepTempsTrans(pt, p.st, PyExec(loop, p.st, fuel - 1).st, k, b.next, k, b.next, k, b.next);
        }
      }
    }
  }

  /** One turn of a `for`: its body and, if that ends normally, the post clause. */
  function Turn(s: CStmt, st: Store, fuel: nat): Run
    requires s.CFor?
  {
    var r := MeansSeq(s.body, st, fuel);
    if !r.out.Normal? || s.post.None? then r else
    var b := Eval(s.post.value, r.st);
    Run(if b.Fault? then Failed else Normal, b.st)
  }

  lemma {:induction false} TurnMeans(s: CStmt, k: nat, st: Store, pt: Store, fuel: nat)
    requires s.CFor? && UserStmt(s) && Agree(st, pt)
    ensures var b := LowerBody(s.body, k);
            Simulates(Turn(s, st, fuel), PyExecSeq(ForLoop(None, s.test, s.post, b.py).body, pt, fuel), pt, k, b.next)
    decreases fuel, s, 0
  {
    hide Agree, KeepTemps, MeansSeq, PyExecSeq, LowerBody;
    var b := LowerBody(s.body, k);
    BodyMeans(s.body, k, st, pt, fuel);
    var tail := if s.post.None? then [] else [ExprStmt(s.post.value)];
    PyExecSeqAppend(b.py, tail, pt, fuel);
    var c, p := MeansSeq(s.body, st, fuel), PyExecSeq(b.py, pt, fuel);
    if c.out.Normal? {
      PostMeans(s, k, c.st, p.st, fuel);
      var h := if s.post.None? then Val(0, p.st) else Eval(s.post.value, p.st);
      KeepTempsTrans(pt, p.st, h.st, k, b.next, 0, 0, k, b.next);
    }
  }

  lemma PostMeans(s: CStmt, k: nat, st: Store, pt: Store, fuel: nat)
    requires s.CFor? && UserOption(s.post) && Agree(st, pt)
    ensures var tail := if s.post.None? then [] else [ExprStmt(s.post.value)];
            var h := if s.post.None? then Val(0, pt) else Eval(s.post.value, pt);
            var g := if s.post.None? then Val(0, st) else Eval(s.post.value, st);
            PyExecSeq(tail, pt, fuel) == Run(if h.Fault? then Failed else Normal, h.st) &&
            g.Fault? == h.Fault? && Agree(g.st, h.st) && KeepTemps(pt, h.st, 0, 0)
  {
    KeepTempsSelf(pt);
    if s.post.Some? {
      EvalAgrees(s.post.value, st, pt);
    }
  }

  lemma {:induction false} ForMeans(s: CStmt, k: nat, st: Store, pt: Store, fuel: nat)
    requires s.CFor? && UserStmt(s) && Agree(st, pt)
    ensures var l := Lower(s, k); Simulates(Means(s, st, fuel), PyExec(l.py, pt, fuel), pt, k, l.next)
    decreases fuel, s, 2
  {
    hide Agree, KeepTemps, MeansFor, LowerBody;
    if s.init.None? {
      ForLoopMeans(s, k, st, pt, fuel);
    } else {
      EvalAgrees(s.init.value, st, pt);
      var e, f := Eval(s.init.value, st), Eval(s.init.value, pt);
      var b := LowerBody(s.body, k);
      var loop := ForLoop(None, s.test, s.post, b.py);
      var block := [ExprStmt(s.init.value), loop];
      assert Lower(s, k).py == If(TRUE, block, []);
      KeepTempsSelf(pt);
      KeepTempsTrans(pt, pt, f.st, 0, 0, 0, 0, k, b.next);
      if e.Val? {
        ForLoopMeans(s, k, e.st, f.st, fuel);
        var p := PyExec(loop, f.st, fuel);
        assert block[1..] == [loop];
        assert PyExecSeq([loop], f.st, fuel) == p;
        assert PyExecSeq(block, pt, fuel) == p;
        KeepTempsTrans(pt, f.st, p.st, 0, 0, k, b.next, k, b.next);
      } else {
        assert PyExecSeq(block, pt, fuel) == Run(Failed, f.st);
      }
    }
  }

  lemma {:induction false} IfMeans(s: CStmt, k: nat, st: Store, pt: Store, fuel: nat)
    requires s.CIf? && UserStmt(s) && Agree(st, pt)
    ensures var l := Lower(s, k); Simulates(Means(s, st, fuel), PyExec(l.py, pt, fuel), pt, k, l.next)
    decreases fuel, s, 2
  {
    hide Agree, KeepTemps, MeansSeq, PyExecSeq, LowerBody, LowerSeq;
    EvalAgrees(s.cond, st, pt);
    KeepTempsSelf(pt);
    var a, b := Eval(s.cond, st), Eval(s.cond, pt);
    var l, t := Lower(s, k), LowerBody(s.thn, k);
    KeepTempsTrans(pt, pt, b.st, 0, 0, 0, 0, k, l.next);
    if a.Val? && a.v != 0 {
      BodyMeans(s.thn, k, a.st, b.st, fuel);
      KeepTempsTrans(pt, b.st, PyExecSeq(t.py, b.st, fuel).st, 0, 0, k, t.next, k, l.next);
    } else if a.Val? {
      SeqMeans(s.els, t.next, a.st, b.st, fuel);
      KeepTempsTrans(pt, b.st, PyExecSeq(LowerSeq(s.els, t.next).py, b.st, fuel).st, 0, 0, t.next, l.next, k, l.next);
    }
  }

  /** For every statement of the program's own expressions, supported or not, at every budget: the translated tree
      does exactly what `Means` says of the C statement. */
  lemma {:induction false} StatementMeans(s: CStmt, k: nat, st: Store, pt: Store, fuel: nat)
    requires UserStmt(s) && Agree(st, pt)
    ensures var l := Lower(s, k); Simulates(Means(s, st, fuel), PyExec(l.py, pt, fuel), pt, k, l.next)
    decreases fuel, s, 3
  {
    hide SwitchLoop, ForLoop, DoLoop, Merge, MeansSeq, PyExecSeq, LowerBody, LowerArms;
    match s
    case CAssign(x, e) => EvalAgrees(e, st, pt);
    case CExpr(e) => EvalAgrees(e, st, pt);
    case CBreak =>
    case CContinue =>
    case CReturn(value) =>
      if value.Some? {
        EvalAgrees(value.value, st, pt);
      }
    case CBlock(body) => BodyMeans(body, k, st, pt, fuel);
    case CIf(_, _, _) => IfMeans(s, k, st, pt, fuel);
    case CWhile(_, _) => WhileMeans(s, k, st, pt, fuel);
    case CDo(_, _) => DoMeans(s, k, st, pt, fuel);
    case CFor(_, _, _, _) => ForMeans(s, k, st, pt, fuel);
    case CSwitch(subject, arms) => SwitchMeans(subject, arms, k, st, pt, fuel);
  }

  /** On supported statements that is what C means. */
  lemma SupportedMeansC(s: CStmt, st: Store, fuel: nat)
    requires Supported(s) && UserStmt(s)
    ensures var c, m := CExec(s, st, fuel), Means(s, st, fuel); c.out == m.out && Agree(c.st, m.st)
  {
    StatementSimulates(s, 0, st, st, fuel);
    StatementMeans(s, 0, st, st, fuel);
    var c, p, m := CExec(s, st, fuel), PyExec(Lower(s, 0).py, st, fuel), Means(s, st, fuel);
    forall id: string ensures Same(c.st, m.st, User(id)) {
      assert Same(c.st, p.st, User(id)) && Same(m.st, p.st, User(id));
    }
  }
}
