/**
  Lowering preserves meaning: from stores that agree on the program's own variables, a C statement
  and its lowering end the same way at every budget, in stores that again agree, and the lowering
  writes only the temporaries numbered for the switches inside it.
 */
module LoweringProof {
  import opened Options
  import opened ControlFlow
  import opened Lowering

  // ----- the statements the translator lowers correctly -----

  /** The expression names no switch temporary. */
  predicate UserExpr(e: Expr) {
    match e
    case Num(_) => true
    case Var(x) => x.User?
    case Bin(_, l, r) => UserExpr(l) && UserExpr(r)
    case Not(x) => UserExpr(x)
    case And(l, r) => UserExpr(l) && UserExpr(r)
    case Or(l, r) => UserExpr(l) && UserExpr(r)
    case Let(x, d) => x.User? && UserExpr(d)
  }

  predicate UserOption(e: Option<Expr>) {
    e.Some? ==> UserExpr(e.value)
  }

  /** The statement holds a `continue` aimed at the loop around it. */
  predicate ContinuesStmt(s: CStmt) {
    match s
    case CContinue => true
    case CBlock(body) => Continues(body)
    case CIf(_, thn, els) => Continues(thn) || Continues(els)
    case CSwitch(_, arms) => exists a <- arms :: Continues(a.body)
    case _ => false
  }

  predicate Continues(ss: seq<CStmt>) {
    exists s <- ss :: ContinuesStmt(s)
  }

  /** The arm is emitted without statements of its own, so it is folded into the next one. */
  predicate Hollow(a: Arm) {
    !a.braced && if a.tag.Default? then (forall s <- a.body :: s.CBreak?) else a.body == []
  }

  /** Where `default` may stand: last, and not after an arm without statements; one without
      statements may also be followed by others without statements. */
  predicate DefaultPlaced(arms: seq<Arm>) {
    forall p :: 0 <= p < |arms| && arms[p].tag.Default? ==> PlacedAt(arms, p)
  }

  predicate PlacedAt(arms: seq<Arm>, p: nat)
    requires p < |arms|
  {
    if Hollow(arms[p]) then AllHollow(arms[p + 1..])
    else p == |arms| - 1 && (p == 0 || !Hollow(arms[p - 1]))
  }

  predicate AllHollow(arms: seq<Arm>) {
    forall a <- arms :: Hollow(a)
  }

  /** In an unbraced `default` only breaks follow the first `break`. */
  predicate BreaksEnd(a: Arm) {
    a.tag.Default? && !a.braced ==> OnlyBreaksFollow(a.body)
  }

  predicate OnlyBreaksFollow(ss: seq<CStmt>) {
    forall i, j :: 0 <= i < j < |ss| && ss[i].CBreak? ==> ss[j].CBreak?
  }

  predicate Supported(s: CStmt) {
    match s
    case CAssign(x, e) => x.User? && UserExpr(e)
    case CExpr(e) => UserExpr(e)
    case CBreak => true
    case CContinue => true
    case CReturn(value) => UserOption(value)
    case CBlock(body) => forall t <- body :: Supported(t)
    case CIf(cond, thn, els) => UserExpr(cond) && (forall t <- thn :: Supported(t)) && forall t <- els :: Supported(t)
    case CWhile(cond, body) => UserExpr(cond) && forall t <- body :: Supported(t)
    case CDo(body, cond) => UserExpr(cond) && !Continues(body) && forall t <- body :: Supported(t)
    case CFor(init, test, post, body) =>
      UserOption(init) && UserOption(test) && UserOption(post) && (post.Some? ==> !Continues(body)) &&
      forall t <- body :: Supported(t)
    case CSwitch(subject, arms) =>
      UserExpr(subject) && arms != [] && DefaultPlaced(arms) &&
      forall a <- arms :: BreaksEnd(a) && !Continues(a.body) && forall t <- a.body :: Supported(t)
  }

  predicate SupportedSeq(ss: seq<CStmt>) {
    forall t <- ss :: Supported(t)
  }

  /** The translator raises on no supported statement. */
  lemma {:induction false} SupportedIsTranslatable(s: CStmt)
    requires Supported(s)
    ensures Translatable(s)
    decreases s, 1
  {
    match s
    case CBlock(body) => PartsAreTranslatable(s, body);
    case CIf(_, thn, els) =>
      PartsAreTranslatable(s, thn);
      PartsAreTranslatable(s, els);
    case CWhile(_, body) => PartsAreTranslatable(s, body);
    case CDo(body, _) => PartsAreTranslatable(s, body);
    case CFor(_, _, _, body) => PartsAreTranslatable(s, body);
    case CSwitch(_, arms) =>
      forall a | a in arms ensures TranslatableSeq(a.body) {
        forall t | t in a.body ensures Translatable(t) {
          SupportedIsTranslatable(t);
        }
      }
    case _ =>
  }

  lemma {:induction false} PartsAreTranslatable(s: CStmt, body: seq<CStmt>)
    requires SupportedSeq(body) && forall t <- body :: t < s
    ensures TranslatableSeq(body)
    decreases s, 0
  {
    forall t | t in body ensures Translatable(t) {
      SupportedIsTranslatable(t);
    }
  }

  // ----- stores -----

  ghost predicate Same(a: Store, b: Store, x: Name) {
    (x in a <==> x in b) && (x in a ==> a[x] == b[x])
  }

  /** The two stores hold the same program variables. */
  ghost predicate Agree(a: Store, b: Store) {
    forall id: string :: Same(a, b, User(id))
  }

  /** Only temporaries numbered from `lo` up to `hi` differ. */
  ghost predicate KeepTemps(a: Store, b: Store, lo: nat, hi: nat) {
    forall kind: TempKind, j: nat :: j < lo || hi <= j ==> Same(a, b, Temp(kind, j))
  }

  ghost predicate Simulates(c: Run, p: Run, before: Store, lo: nat, hi: nat) {
    c.out == p.out && Agree(c.st, p.st) && KeepTemps(before, p.st, lo, hi)
  }

  lemma KeepTempsTrans(a: Store, b: Store, c: Store, l1: nat, h1: nat, l2: nat, h2: nat, lo: nat, hi: nat)
    requires KeepTemps(a, b, l1, h1) && KeepTemps(b, c, l2, h2)
    requires h1 <= l1 || (lo <= l1 && h1 <= hi)
    requires h2 <= l2 || (lo <= l2 && h2 <= hi)
    ensures KeepTemps(a, c, lo, hi)
  {
    forall kind: TempKind, j: nat | j < lo || hi <= j ensures Same(a, c, Temp(kind, j)) {
      assert Same(a, b, Temp(kind, j)) && Same(b, c, Temp(kind, j));
    }
  }

  lemma KeepTempsSelf(a: Store)
    ensures forall lo: nat, hi: nat :: KeepTemps(a, a, lo, hi)
  {
  }

  lemma {:induction false} EvalAgrees(e: Expr, st: Store, pt: Store)
    requires UserExpr(e) && Agree(st, pt)
    ensures var a, b := Eval(e, st), Eval(e, pt);
            a.Fault? == b.Fault? && (a.Val? ==> a.v == b.v) && Agree(a.st, b.st) && KeepTemps(pt, b.st, 0, 0)
  {
    match e
    case Num(_) =>
    case Var(x) => assert Same(st, pt, User(x.id));
    case Bin(_, l, r) =>
      EvalAgrees(l, st, pt);
      if Eval(l, st).Val? {
        EvalAgrees(r, Eval(l, st).st, Eval(l, pt).st);
      }
    case Not(x) => EvalAgrees(x, st, pt);
    case And(l, r) =>
      EvalAgrees(l, st, pt);
      if Eval(l, st).Val? && Eval(l, st).v != 0 {
        EvalAgrees(r, Eval(l, st).st, Eval(l, pt).st);
      }
    case Or(l, r) =>
      EvalAgrees(l, st, pt);
      if Eval(l, st).Val? && Eval(l, st).v == 0 {
        EvalAgrees(r, Eval(l, st).st, Eval(l, pt).st);
      }
    case Let(x, d) => EvalAgrees(d, st, pt);
  }

  // ----- outcomes -----

  /** Statements without a `continue` of their own never end by continuing. */
  lemma {:induction false} NeverContinues(ss: seq<CStmt>, st: Store, fuel: nat)
    requires !Continues(ss)
    ensures !CExecSeq(ss, st, fuel).out.Continued?
    decreases fuel, ss, 0
  {
    if ss != [] {
      assert ss[0] in ss;
      StmtNeverContinues(ss[0], st, fuel);
      var r := CExec(ss[0], st, fuel);
      if r.out.Normal? {
        NeverContinues(ss[1..], r.st, fuel);
      }
    }
  }

  lemma {:induction false} StmtNeverContinues(s: CStmt, st: Store, fuel: nat)
    requires !ContinuesStmt(s)
    ensures !CExec(s, st, fuel).out.Continued?
    decreases fuel, s, 1
  {
    match s
    case CBlock(body) => NeverContinues(body, st, fuel);
    case CIf(cond, thn, els) =>
      var a := Eval(cond, st);
      NeverContinues(thn, a.st, fuel);
      NeverContinues(els, a.st, fuel);
    case CWhile(cond, body) => LoopNeverContinues(s, st, fuel);
    case CDo(body, cond) => LoopNeverContinues(s, st, fuel);
    case CFor(init, _, _, _) =>
      ForNeverContinues(s, if init.None? then st else Eval(init.value, st).st, fuel);
    case CSwitch(subject, arms) =>
      var a := Eval(subject, st);
      if fuel > 0 && a.Val? {
        SelectedNeverContinues(arms, a.v);
        NeverContinues(Selected(arms, a.v), a.st, fuel - 1);
      }
    case _ =>
  }

  lemma {:induction false} LoopNeverContinues(s: CStmt, st: Store, fuel: nat)
    requires s.CWhile? || s.CDo?
    ensures !CExec(s, st, fuel).out.Continued?
    decreases fuel, s, 0
  {
    if fuel > 0 {
      if s.CWhile? {
        var a := Eval(s.cond, st);
        LoopNeverContinues(s, CExecSeq(s.body, a.st, fuel - 1).st, fuel - 1);
      } else {
        LoopNeverContinues(s, Eval(s.cond, CExecSeq(s.body, st, fuel - 1).st).st, fuel - 1);
      }
    }
  }

  lemma {:induction false} ForNeverContinues(s: CStmt, st: Store, fuel: nat)
    requires s.CFor?
    ensures !CForLoop(s, st, fuel).out.Continued?
    decreases fuel, s, 0
  {
    if fuel > 0 {
      var a := if s.test.None? then Val(1, st) else Eval(s.test.value, st);
      var r := CExecSeq(s.body, a.st, fuel - 1);
      ForNeverContinues(s, if s.post.None? then r.st else Eval(s.post.value, r.st).st, fuel - 1);
    }
  }

  lemma {:induction false} BodiesNeverContinue(arms: seq<Arm>)
    requires forall a <- arms :: !Continues(a.body)
    ensures !Continues(Bodies(arms))
  {
    if arms != [] {
      BodiesNeverContinue(arms[1..]);
      assert arms[0] in arms;
    }
  }

  lemma {:induction false} FromLabelIsSuffix(arms: seq<Arm>, l: Label)
    ensures FromLabel(arms, l).Some? ==>
              forall a <- FromLabel(arms, l).value :: a in arms
  {
    if arms != [] && arms[0].tag != l {
      FromLabelIsSuffix(arms[1..], l);
    }
  }

  lemma SelectedNeverContinues(arms: seq<Arm>, v: int)
    requires forall a <- arms :: !Continues(a.body)
    ensures !Continues(Selected(arms, v))
  {
    FromLabelIsSuffix(arms, Case(v));
    FromLabelIsSuffix(arms, Default);
    if FromLabel(arms, Case(v)).Some? {
      BodiesNeverContinue(FromLabel(arms, Case(v)).value);
    } else if FromLabel(arms, Default).Some? {
      BodiesNeverContinue(FromLabel(arms, Default).value);
    }
  }

  // ----- a switch as a scan over its arms -----

  /** Running the arms in order, testing each label until one is reached. */
  function ScanArms(arms: seq<Arm>, v: int, reached: bool, st: Store, fuel: nat): Run {
    if arms == [] then Run(Normal, st)
    else if reached || arms[0].tag == Case(v) || arms[0].tag == Default then
      var r := CExecSeq(arms[0].body, st, fuel);
      if r.out.Normal? then ScanArms(arms[1..], v, true, r.st, fuel) else r
    else ScanArms(arms[1..], v, false, st, fuel)
  }

  lemma {:induction false} ReachedScanRunsBodies(arms: seq<Arm>, v: int, st: Store, fuel: nat)
    ensures ScanArms(arms, v, true, st, fuel) == CExecSeq(Bodies(arms), st, fuel)
  {
    if arms != [] {
      CExecSeqAppend(arms[0].body, Bodies(arms[1..]), st, fuel);
      var r := CExecSeq(arms[0].body, st, fuel);
      if r.out.Normal? {
        ReachedScanRunsBodies(arms[1..], v, r.st, fuel);
      }
    }
  }

  lemma {:induction false} HollowArmsDoNothing(arms: seq<Arm>, v: int, reached: bool, st: Store, fuel: nat)
    requires AllHollow(arms)
    ensures AfterBreak(ScanArms(arms, v, reached, st, fuel)) == Run(Normal, st)
  {
    if arms != [] {
      var body := arms[0].body;
      assert Hollow(arms[0]);
      if body != [] {
        assert body[0].CBreak?;
        assert CExecSeq(body, st, fuel) == Run(Broke, st);
      }
      HollowArmsDoNothing(arms[1..], v, true, st, fuel);
      HollowArmsDoNothing(arms[1..], v, reached, st, fuel);
    }
  }

  lemma PlacedTail(arms: seq<Arm>)
    requires DefaultPlaced(arms) && arms != []
    ensures DefaultPlaced(arms[1..])
  {
    forall p | 0 <= p < |arms[1..]| && arms[1..][p].tag.Default? ensures PlacedAt(arms[1..], p) {
      assert PlacedAt(arms, p + 1);
      assert arms[1..][p + 1..] == arms[p + 2..];
    }
  }

  /** C's jump to a label and the scan agree, up to the `break` that ends a switch. */
  lemma {:induction false} ScanIsSelection(arms: seq<Arm>, v: int, st: Store, fuel: nat)
    requires DefaultPlaced(arms)
    ensures AfterBreak(CExecSeq(Selected(arms, v), st, fuel)) == AfterBreak(ScanArms(arms, v, false, st, fuel))
  {
    if arms == [] {
    } else if arms[0].tag == Case(v) || (arms[0].tag == Default && !Hollow(arms[0])) {
      assert arms[0].tag.Default? ==> PlacedAt(arms, 0) && arms[1..] == [];
      assert FromLabel(arms, Case(v)) == if arms[0].tag == Case(v) then Some(arms) else FromLabel(arms[1..], Case(v));
      ReachedScanRunsBodies(arms, v, st, fuel);
    } else if arms[0].tag == Default {
      assert PlacedAt(arms, 0) && arms == [arms[0]] + arms[1..];
      HollowArmsDoNothing(arms, v, false, st, fuel);
      FromLabelIsSuffix(arms, Case(v));
      var chosen := if FromLabel(arms, Case(v)).Some? then FromLabel(arms, Case(v)).value else arms;
      ReachedScanRunsBodies(chosen, v, st, fuel);
      HollowArmsDoNothing(chosen, v, true, st, fuel);
    } else {
      PlacedTail(arms);
      ScanIsSelection(arms[1..], v, st, fuel);
    }
  }

  // ----- the emitted tests -----

  ghost predicate Flags(pt: Store, k: nat, v: int, matched: bool) {
    && Temp(SwitchOn, k) in pt && pt[Temp(SwitchOn, k)] == v
    && Temp(Matched, k) in pt && pt[Temp(Matched, k)] == (if matched then 1 else 0)
    && Temp(MatchedAny, k) in pt && (!matched ==> pt[Temp(MatchedAny, k)] == 0)
  }

  lemma {:induction false} TestLabelsMeaning(tags: seq<Label>, k: nat, v: int, pt: Store)
    requires tags != [] && Default !in tags
    requires Temp(SwitchOn, k) in pt && pt[Temp(SwitchOn, k)] == v
    ensures Eval(TestLabels(tags, k), pt) == Val(if Case(v) in tags then 1 else 0, pt)
  {
    assert tags[0] in tags && tags[0].Case?;
    assert Eval(TestLabel(tags[0], k), pt) == Val(if tags[0] == Case(v) then 1 else 0, pt);
    if |tags| > 1 {
      assert tags == [tags[0]] + tags[1..];
      TestLabelsMeaning(tags[1..], k, v, pt);
    }
  }

  predicate Hit(n: Node, v: int, matched: bool) {
    matched || Case(v) in n.tags || Default in n.tags
  }

  /** The store in which the statements of a chosen node start. */
  function Marked(n: Node, k: nat, v: int, matched: bool, pt: Store): Store {
    (if n.tags != [Default] && !matched && Case(v) in n.tags then pt[Temp(MatchedAny, k) := 1] else pt)
      [Temp(ControlFlow.Matched, k) := 1]
  }

  lemma NodeStep(n: Node, k: nat, v: int, matched: bool, pt: Store, fuel: nat)
    requires n.tags != [] && (Default in n.tags ==> n.tags == [Default])
    requires Flags(pt, k, v, matched)
    ensures PyExec(EmitNode(n, k), pt, fuel) ==
            if Hit(n, v, matched) then PyExecSeq(n.body, Marked(n, k, v, matched, pt), fuel) else Run(Normal, pt)
  {
    var mark := Assign(Temp(ControlFlow.Matched, k), TRUE);
    assert Eval(Var(Temp(ControlFlow.Matched, k)), pt) == Val(if matched then 1 else 0, pt);
    var to := Marked(n, k, v, matched, pt);
    if n.tags == [Default] {
      PyExecSeqAppend([mark], n.body, pt, fuel);
      assert !matched ==> Eval(Not(Var(Temp(MatchedAny, k))), pt) == Val(1, pt);
      assert PyExecSeq([mark], pt, fuel) == Run(Normal, to);
    } else {
      TestLabelsMeaning(n.tags, k, v, pt);
      var test := TestLabels(n.tags, k);
      var note := Assign(Temp(MatchedAny, k), TRUE);
      var any := If(And(Not(Var(Temp(ControlFlow.Matched, k))), test), [note], []);
      if Hit(n, v, matched) {
        PyExecSeqAppend([any, mark], n.body, pt, fuel);
        var mid := if !matched && Case(v) in n.tags then pt[Temp(MatchedAny, k) := 1] else pt;
        assert PyExecSeq([note], pt, fuel) == Run(Normal, pt[Temp(MatchedAny, k) := 1]);
        assert Eval(Not(Var(Temp(ControlFlow.Matched, k))), pt) == Val(if matched then 0 else 1, pt);
        assert Eval(any.test, pt) == Val(if !matched && Case(v) in n.tags then 1 else 0, pt);
        assert PyExec(any, pt, fuel) == Run(Normal, mid);
        assert [any, mark][1..] == [mark];
        assert PyExecSeq([mark], mid, fuel) == Run(Normal, to);
        assert PyExecSeq([any, mark], pt, fuel) == Run(Normal, to);
      }
    }
  }

  /** Arms without statements left over at the end have no effect beyond the flags. */
  lemma {:induction false} FlushDoesNothing(pending: seq<Label>, k: nat, v: int, matched: bool, pt: Store, fuel: nat)
    requires Flags(pt, k, v, matched)
    ensures var r := PyExecSeq(EmitNodes(Flush(pending), k), pt, fuel);
            r.out.Normal? && Agree(pt, r.st) && KeepTemps(pt, r.st, k, k + 1)
  {
    if pending != [] {
      var n := Node([pending[0]], [Pass]);
      NodeStep(n, k, v, matched, pt, fuel);
      var to := if Hit(n, v, matched) then Marked(n, k, v, matched, pt) else pt;
      assert PyExec(EmitNode(n, k), pt, fuel) == Run(Normal, to);
      var rest := Flush(pending[1..]);
      assert Flush(pending)[1..] == rest;
      assert EmitNodes(Flush(pending), k)[1..] == EmitNodes(rest, k);
      FlushDoesNothing(pending[1..], k, v, Hit(n, v, matched), to, fuel);
    }
  }

  // ----- simulation -----

  lemma {:induction false} LoweredDefaultIsEmpty(ss: seq<CStmt>, k: nat)
    ensures LowerDefault(ss, k).py == [] <==> forall s <- ss :: s.CBreak?
  {
    if ss != [] {
      LoweredDefaultIsEmpty(ss[1..], Lower(ss[0], k).next);
      assert Lower(ss[0], k).py.Break? <==> ss[0].CBreak?;
      assert forall s <- ss[1..] :: s in ss;
    }
  }

  lemma HollowLowersToNothing(arm: Arm, k: nat)
    ensures LowerArm(arm, k).py == [] <==> Hollow(arm)
  {
    LoweredDefaultIsEmpty(arm.body, k);
    if arm.braced {
      assert LowerBody(arm.body, k).py != [];
    }
  }

  lemma {:induction false} SeqSimulates(ss: seq<CStmt>, k: nat, st: Store, pt: Store, fuel: nat)
    requires SupportedSeq(ss) && Agree(st, pt)
    ensures var l := LowerSeq(ss, k);
            Simulates(CExecSeq(ss, st, fuel), PyExecSeq(l.py, pt, fuel), pt, k, l.next)
    decreases fuel, ss, 0
  {
    if ss != [] {
      var l := LowerSeq(ss, k);
      var a := Lower(ss[0], k);
      assert l.py[0] == a.py && l.py[1..] == LowerSeq(ss[1..], a.next).py;
      StatementSimulates(ss[0], k, st, pt, fuel);
      var c, p := CExec(ss[0], st, fuel), PyExec(a.py, pt, fuel);
      if c.out.Normal? {
        SeqSimulates(ss[1..], a.next, c.st, p.st, fuel);
      }
    }
  }

  lemma {:induction false} BodySimulates(ss: seq<CStmt>, k: nat, st: Store, pt: Store, fuel: nat)
    requires SupportedSeq(ss) && Agree(st, pt)
    ensures var l := LowerBody(ss, k);
            Simulates(CExecSeq(ss, st, fuel), PyExecSeq(l.py, pt, fuel), pt, k, l.next)
    decreases fuel, ss, 2
  {
    if ss != [] {
      SeqSimulates(ss, k, st, pt, fuel);
    }
  }

  lemma {:induction false} DefaultSimulates(ss: seq<CStmt>, k: nat, st: Store, pt: Store, fuel: nat)
    requires SupportedSeq(ss) && Agree(st, pt)
    requires OnlyBreaksFollow(ss)
    ensures var l := LowerDefault(ss, k);
            Simulates(AfterBreak(CExecSeq(ss, st, fuel)), AfterBreak(PyExecSeq(l.py, pt, fuel)), pt, k, l.next)
    decreases fuel, ss, 0
  {
    if ss == [] {
    } else if ss[0].CBreak? {
      LoweredDefaultIsEmpty(ss, k);
      KeepTempsSelf(pt);
    } else {
      var l := LowerDefault(ss, k);
      var a := Lower(ss[0], k);
      assert l.py[0] == a.py && l.py[1..] == LowerDefault(ss[1..], a.next).py;
      StatementSimulates(ss[0], k, st, pt, fuel);
      var c, p := CExec(ss[0], st, fuel), PyExec(a.py, pt, fuel);
      if c.out.Normal? {
        DefaultSimulates(ss[1..], a.next, c.st, p.st, fuel);
      }
    }
  }

  lemma {:induction false} ArmSimulates(arm: Arm, k: nat, st: Store, pt: Store, fuel: nat)
    requires SupportedSeq(arm.body) && BreaksEnd(arm) && Agree(st, pt)
    ensures var l := LowerArm(arm, k);
            Simulates(AfterBreak(CExecSeq(arm.body, st, fuel)), AfterBreak(PyExecSeq(l.py, pt, fuel)), pt, k, l.next)
    ensures !arm.tag.Default? || arm.braced ==>
              CExecSeq(arm.body, st, fuel).out == PyExecSeq(LowerArm(arm, k).py, pt, fuel).out
    decreases fuel, arm, 3
  {
    if arm.braced {
      BodySimulates(arm.body, k, st, pt, fuel);
    } else if arm.tag.Default? {
      DefaultSimulates(arm.body, k, st, pt, fuel);
    } else {
      SeqSimulates(arm.body, k, st, pt, fuel);
    }
  }

  predicate SupportedArms(arms: seq<Arm>) {
    forall a <- arms :: BreaksEnd(a) && !Continues(a.body) && SupportedSeq(a.body)
  }

  ghost predicate ArmsMatch(arms: seq<Arm>, reached: bool, pending: seq<Label>, k: nat, lo: nat, v: int,
                            st: Store, pt: Store, fuel: nat) {
    var l := LowerArms(arms, lo);
    Simulates(AfterBreak(ScanArms(arms, v, reached, st, fuel)),
              AfterBreak(PyExecSeq(EmitNodes(Merge(l.arms, pending), k), pt, fuel)), pt, k, l.next)
  }

  /** The emitted tests, with labels `pending` still to be folded into the next arm, do what the
      scan over the remaining arms does. */
  lemma {:induction false} ArmsSimulate(arms: seq<Arm>, pending: seq<Label>, k: nat, lo: nat, v: int, matched: bool,
                                        st: Store, pt: Store, fuel: nat)
    requires k < lo && SupportedArms(arms) && DefaultPlaced(arms)
    requires Default in pending ==> AllHollow(arms)
    requires arms != [] && arms[0].tag.Default? && !Hollow(arms[0]) ==> pending == []
    requires Agree(st, pt) && Flags(pt, k, v, matched)
    ensures ArmsMatch(arms, matched || Case(v) in pending || Default in pending, pending, k, lo, v, st, pt, fuel)
    decreases fuel, arms, 5
  {
    if arms == [] {
      FlushDoesNothing(pending, k, v, matched, pt, fuel);
      KeepTempsTrans(pt, pt, PyExecSeq(EmitNodes(Flush(pending), k), pt, fuel).st, 0, 0, k, k + 1, k, lo);
    } else if Hollow(arms[0]) {
      HollowStep(arms, pending, k, lo, v, matched, st, pt, fuel);
    } else {
      SolidStep(arms, pending, k, lo, v, matched, st, pt, fuel);
    }
  }

  lemma NextDefault(arms: seq<Arm>)
    requires arms != [] && DefaultPlaced(arms)
    ensures DefaultPlaced(arms[1..])
    ensures arms[0].tag.Default? ==> if Hollow(arms[0]) then AllHollow(arms) else arms[1..] == []
    ensures |arms| > 1 && arms[1].tag.Default? && !Hollow(arms[1]) ==> !Hollow(arms[0])
  {
    PlacedTail(arms);
    assert arms[0].tag.Default? ==> PlacedAt(arms, 0);
    assert |arms| > 1 && arms[1].tag.Default? ==> PlacedAt(arms, 1);
    assert arms == [arms[0]] + arms[1..];
  }

  lemma {:induction false} HollowStep(arms: seq<Arm>, pending: seq<Label>, k: nat, lo: nat, v: int, matched: bool,
                                      st: Store, pt: Store, fuel: nat)
    requires arms != [] && Hollow(arms[0])
    requires k < lo && SupportedArms(arms) && DefaultPlaced(arms)
    requires Default in pending ==> AllHollow(arms)
    requires Agree(st, pt) && Flags(pt, k, v, matched)
    ensures ArmsMatch(arms, matched || Case(v) in pending || Default in pending, pending, k, lo, v, st, pt, fuel)
    decreases fuel, arms, 4
  {
    NextDefault(arms);
    var arm := arms[0];
    var a := LowerArm(arm, lo);
    var tags := pending + [arm.tag];
    assert arm in arms;
    HollowLowersToNothing(arm, lo);
    assert a.py == [];
    var l := LowerArms(arms, lo);
    assert l.arms[0] == PyArm(arm.tag, []) && l.arms[1..] == LowerArms(arms[1..], a.next).arms;
    assert Merge(l.arms, pending) == Merge(l.arms[1..], tags);
    ArmsSimulate(arms[1..], tags, k, a.next, v, matched, st, pt, fuel);
    var reached := matched || Case(v) in pending || Default in pending;
    if Default in tags {
      HollowArmsDoNothing(arms, v, reached, st, fuel);
      HollowArmsDoNothing(arms[1..], v, true, st, fuel);
    } else {
      assert ScanArms(arms, v, reached, st, fuel) == ScanArms(arms[1..], v, reached || arm.tag == Case(v), st, fuel);
    }
  }

  lemma {:induction false} SolidStep(arms: seq<Arm>, pending: seq<Label>, k: nat, lo: nat, v: int, matched: bool,
                                     st: Store, pt: Store, fuel: nat)
    requires arms != [] && !Hollow(arms[0])
    requires k < lo && SupportedArms(arms) && DefaultPlaced(arms)
    requires Default !in pending && (arms[0].tag.Default? ==> pending == [])
    requires Agree(st, pt) && Flags(pt, k, v, matched)
    ensures ArmsMatch(arms, matched || Case(v) in pending || Default in pending, pending, k, lo, v, st, pt, fuel)
    decreases fuel, arms, 4
  {
    hide Agree, KeepTemps, Flags, Marked, PyExec, CExec, CExecSeq, LowerArm, EmitNode;
    hide BreaksEnd, Continues, Hollow;
    NextDefault(arms);
    var arm := arms[0];
    assert arm in arms;
    var a := LowerArm(arm, lo);
    HollowLowersToNothing(arm, lo);
    assert a.py != [];
    var n := Node(pending + [arm.tag], a.py);
    var l := LowerArms(arms, lo);
    assert l.arms[0] == PyArm(arm.tag, a.py) && l.arms[1..] == LowerArms(arms[1..], a.next).arms;
    var nodes := Merge(l.arms, pending);
    var rest := Merge(l.arms[1..], []);
    assert nodes == [n] + rest && nodes[1..] == rest;
    var tests := EmitNodes(nodes, k);
    assert tests[0] == EmitNode(n, k) && tests[1..] == EmitNodes(rest, k);
    NodeStep(n, k, v, matched, pt, fuel);
    if Hit(n, v, matched) {
      ChosenArm(arms, n, k, lo, v, matched, st, pt, fuel);
    } else {
      ArmsSimulate(arms[1..], [], k, a.next, v, false, st, pt, fuel);
    }
  }

  /** A chosen arm runs its statements and falls through into the rest. */
  lemma {:induction false} ChosenArm(arms: seq<Arm>, n: Node, k: nat, lo: nat, v: int, matched: bool,
                                     st: Store, pt: Store, fuel: nat)
    requires arms != [] && !Hollow(arms[0]) && n.tags != [] && n.body == LowerArm(arms[0], lo).py
    requires k < lo && SupportedArms(arms) && DefaultPlaced(arms)
    requires Agree(st, pt) && Flags(pt, k, v, matched)
    ensures var l := LowerArms(arms, lo);
            var p := PyExecSeq(n.body, Marked(n, k, v, matched, pt), fuel);
            var rest := Merge(LowerArms(arms[1..], LowerArm(arms[0], lo).next).arms, []);
            Simulates(AfterBreak(ScanArms(arms, v, true, st, fuel)),
                      AfterBreak(if p.out.Normal? then PyExecSeq(EmitNodes(rest, k), p.st, fuel) else p), pt, k, l.next)
    decreases fuel, arms, 3
  {
    hide PyExec, CExec, CExecSeq, LowerArm, EmitNode, BreaksEnd, Continues;
    NextDefault(arms);
    var arm := arms[0];
    assert arm in arms;
    var a := LowerArm(arm, lo);
    var l := LowerArms(arms, lo);
    assert l.next == LowerArms(arms[1..], a.next).next;
    var start := Marked(n, k, v, matched, pt);
    assert KeepTemps(pt, start, k, k + 1);
    assert Agree(pt, start);
    assert Agree(st, start);
    ArmSimulates(arm, lo, st, start, fuel);
    var c, p := CExecSeq(arm.body, st, fuel), PyExecSeq(a.py, start, fuel);
    KeepTempsTrans(pt, start, p.st, k, k + 1, lo, a.next, k, l.next);
    if arm.tag.Default? {
      assert arms[1..] == [];
    } else if c.out.Normal? {
      assert Same(start, p.st, Temp(SwitchOn, k)) && Same(start, p.st, Temp(ControlFlow.Matched, k))
          && Same(start, p.st, Temp(MatchedAny, k));
      ArmsSimulate(arms[1..], [], k, a.next, v, true, c.st, p.st, fuel);
      KeepTempsTrans(pt, p.st, PyExecSeq(EmitNodes(Merge(LowerArms(arms[1..], a.next).arms, []), k), p.st, fuel).st,
                     k, l.next, k, l.next, k, l.next);
    }
  }

  /** A switch and its `while True` block. */
  lemma {:induction false} SwitchSimulates(subject: Expr, arms: seq<Arm>, k: nat, st: Store, pt: Store, fuel: nat)
    requires UserExpr(subject) && SupportedArms(arms) && DefaultPlaced(arms) && Agree(st, pt)
    ensures var l := Lower(CSwitch(subject, arms), k);
            Simulates(CExec(CSwitch(subject, arms), st, fuel), PyExec(l.py, pt, fuel), pt, k, l.next)
    decreases fuel, arms, 6
  {
    hide PyExecSeq, CExecSeq, EmitNodes, LowerArms, Flags, Selected, SupportedArms, DefaultPlaced;
    if fuel > 0 {
      EvalAgrees(subject, st, pt);
      var a, b := Eval(subject, st), Eval(subject, pt);
      var l := LowerArms(arms, k + 1);
      var nodes := Merge(l.arms, []);
      SwitchLoopRuns(subject, nodes, k, pt, fuel);
      if a.Fault? {
        KeepTempsTrans(pt, pt, b.st, 0, 0, 0, 0, k, l.next);
      } else {
        SelectionSimulates(arms, k, a.v, a.st, AfterHead(b, k), fuel - 1);
        var r := PyExecSeq(EmitNodes(nodes, k), AfterHead(b, k), fuel - 1);
        HeadKeeps(b, k, pt, a.st);
        KeepTempsTrans(pt, AfterHead(b, k), r.st, k, k + 1, k, l.next, k, l.next);
      }
    }
  }

  lemma HeadKeeps(b: Value, k: nat, pt: Store, st: Store)
    requires b.Val? && KeepTemps(pt, b.st, 0, 0) && Agree(st, b.st)
    ensures KeepTemps(pt, AfterHead(b, k), k, k + 1) && Agree(st, AfterHead(b, k))
    ensures Flags(AfterHead(b, k), k, b.v, false)
  {
    forall kind: TempKind, j: nat | j < k || k + 1 <= j ensures Same(pt, AfterHead(b, k), Temp(kind, j)) {
      assert Same(pt, b.st, Temp(kind, j));
    }
    forall id: string ensures Same(st, AfterHead(b, k), User(id)) {
      assert Same(st, b.st, User(id));
    }
  }

  lemma {:induction false} SelectionSimulates(arms: seq<Arm>, k: nat, v: int, st: Store, start: Store, fuel: nat)
    requires SupportedArms(arms) && DefaultPlaced(arms) && Agree(st, start) && Flags(start, k, v, false)
    ensures var l := LowerArms(arms, k + 1);
            var r := PyExecSeq(EmitNodes(Merge(l.arms, []), k), start, fuel);
            Simulates(AfterBreak(CExecSeq(Selected(arms, v), st, fuel)), AfterBreak(r), start, k, l.next) &&
            !r.out.Continued?
    decreases fuel, arms, 6
  {
    ArmsSimulate(arms, [], k, k + 1, v, false, st, start, fuel);
    SelectionEnds(arms, v, st, fuel);
  }

  function AfterHead(b: Value, k: nat): Store
    requires b.Val?
  {
    b.st[Temp(SwitchOn, k) := b.v][Temp(MatchedAny, k) := 0][Temp(ControlFlow.Matched, k) := 0]
  }

  lemma SwitchLoopRuns(subject: Expr, nodes: seq<Node>, k: nat, pt: Store, fuel: nat)
    requires Tagged(nodes) && fuel > 0
    ensures var b := Eval(subject, pt);
            var p := PyExec(SwitchLoop(subject, nodes, k), pt, fuel);
            if b.Fault? then p == Run(Failed, b.st) else
            var r := PyExecSeq(EmitNodes(nodes, k), AfterHead(b, k), fuel - 1);
            p == if r.out.Continued? then PyExec(SwitchLoop(subject, nodes, k), r.st, fuel - 1) else AfterBreak(r)
  {
    var head, tests := SwitchBody(subject, k), EmitNodes(nodes, k);
    var b := Eval(subject, pt);
    if b.Fault? {
      assert (head + tests + [Break])[0] == head[0];
      assert PyExec(head[0], pt, fuel - 1) == Run(Failed, b.st);
    } else {
      SwitchHeadRuns(subject, k, pt, fuel - 1);
      PyExecSeqAppend(head + tests, [Break], pt, fuel - 1);
      PyExecSeqAppend(head, tests, pt, fuel - 1);
    }
  }

  /** A switch ends as its scan does, and never by continuing. */
  lemma SelectionEnds(arms: seq<Arm>, v: int, st: Store, fuel: nat)
    requires SupportedArms(arms) && DefaultPlaced(arms)
    ensures AfterBreak(CExecSeq(Selected(arms, v), st, fuel)) == AfterBreak(ScanArms(arms, v, false, st, fuel))
    ensures !ScanArms(arms, v, false, st, fuel).out.Continued?
  {
    ScanIsSelection(arms, v, st, fuel);
    SelectedNeverContinues(arms, v);
    NeverContinues(Selected(arms, v), st, fuel);
  }

  lemma SwitchHeadRuns(subject: Expr, k: nat, pt: Store, fuel: nat)
    requires Eval(subject, pt).Val?
    ensures var b := Eval(subject, pt);
            PyExecSeq(SwitchBody(subject, k), pt, fuel) ==
            Run(Normal, AfterHead(b, k))
  {
    var b := Eval(subject, pt);
    var s := SwitchBody(subject, k);
    var set1 := b.st[Temp(SwitchOn, k) := b.v];
    var set2 := set1[Temp(MatchedAny, k) := 0];
    assert PyExec(s[0], pt, fuel) == Run(Normal, set1);
    assert PyExec(s[1], set1, fuel) == Run(Normal, set2);
    assert PyExecSeq(s[2..], set2, fuel) == Run(Normal, set2[Temp(ControlFlow.Matched, k) := 0]);
    assert s[1..][1..] == s[2..];
  }

  // ----- the loops -----

  lemma {:induction false} DoSimulates(s: CStmt, k: nat, st: Store, pt: Store, fuel: nat)
    requires s.CDo? && Supported(s) && Agree(st, pt)
    ensures var l := Lower(s, k);
            Simulates(CExec(s, st, fuel), PyExec(l.py, pt, fuel), pt, k, l.next)
    decreases fuel, s, 0
  {
    hide CExecSeq, LowerBody, Continues;
    if fuel > 0 {
      var b := LowerBody(s.body, k);
      var last := If(Not(s.cond), [Break], []);
      BodySimulates(s.body, k, st, pt, fuel - 1);
      NeverContinues(s.body, st, fuel - 1);
      PyExecSeqAppend(b.py, [last], pt, fuel - 1);
      var c, p := CExecSeq(s.body, st, fuel - 1), PyExecSeq(b.py, pt, fuel - 1);
      if c.out.Normal? {
        EvalAgrees(s.cond, c.st, p.st);
        var e, f := Eval(s.cond, c.st), Eval(s.cond, p.st);
        if e.Val? {
          assert Eval(last.test, p.st) == Val(if f.v == 0 then 1 else 0, f.st);
          assert PyExecSeq([Break], f.st, fuel - 1) == Run(Broke, f.st);
          assert PyExec(last, p.st, fuel - 1) == Run(if f.v == 0 then Broke else Normal, f.st);
          assert PyExecSeq([last], p.st, fuel - 1) == Run(if f.v == 0 then Broke else Normal, f.st);
          if e.v != 0 {
            DoSimulates(s, k, e.st, f.st, fuel - 1);
          }
        }
      }
    }
  }

  lemma {:induction false} WhileSimulates(s: CStmt, k: nat, st: Store, pt: Store, fuel: nat)
    requires s.CWhile? && Supported(s) && Agree(st, pt)
    ensures var l := Lower(s, k);
            Simulates(CExec(s, st, fuel), PyExec(l.py, pt, fuel), pt, k, l.next)
    decreases fuel, s, 0
  {
    if fuel > 0 {
      EvalAgrees(s.cond, st, pt);
      var e, f := Eval(s.cond, st), Eval(s.cond, pt);
      if e.Val? && e.v != 0 {
        BodySimulates(s.body, k, e.st, f.st, fuel - 1);
        var c, p := CExecSeq(s.body, e.st, fuel - 1), PyExecSeq(LowerBody(s.body, k).py, f.st, fuel - 1);
        if c.out.Normal? || c.out.Continued? {
          WhileSimulates(s, k, c.st, p.st, fuel - 1);
        }
      }
    }
  }

  function ForBody(s: CStmt, st: Store, fuel: nat): Run
    requires s.CFor?
  {
    var r := CExecSeq(s.body, st, fuel);
    if !r.out.Normal? || s.post.None? then r else
    var b := Eval(s.post.value, r.st);
    Run(if b.Fault? then Failed else Normal, b.st)
  }

  lemma {:induction false} ForBodySimulates(s: CStmt, k: nat, st: Store, pt: Store, fuel: nat)
    requires s.CFor? && Supported(s) && Agree(st, pt)
    ensures var b := LowerBody(s.body, k);
            Simulates(ForBody(s, st, fuel),
                      PyExecSeq(b.py + if s.post.None? then [] else [ExprStmt(s.post.value)], pt, fuel), pt, k, b.next)
    ensures s.post.Some? ==> !ForBody(s, st, fuel).out.Continued?
    decreases fuel, s, 0
  {
    var b := LowerBody(s.body, k);
    BodySimulates(s.body, k, st, pt, fuel);
    if s.post.Some? {
      NeverContinues(s.body, st, fuel);
    }
    var tail := if s.post.None? then [] else [ExprStmt(s.post.value)];
    PyExecSeqAppend(b.py, tail, pt, fuel);
    var c, p := CExecSeq(s.body, st, fuel), PyExecSeq(b.py, pt, fuel);
    if s.post.Some? && c.out.Normal? {
      EvalAgrees(s.post.value, c.st, p.st);
      var h := Eval(s.post.value, p.st);
      assert PyExecSeq(tail, p.st, fuel) == Run(if h.Fault? then Failed else Normal, h.st);
      KeepTempsTrans(pt, p.st, h.st, k, b.next, 0, 0, k, b.next);
    }
  }

  /** The iterations of a `for`, init clause done, against the `while` with the post clause appended. */
  lemma {:induction false} ForLoopSimulates(s: CStmt, k: nat, st: Store, pt: Store, fuel: nat)
    requires s.CFor? && Supported(s) && Agree(st, pt)
    ensures var b := LowerBody(s.body, k);
            Simulates(CForLoop(s, st, fuel), PyExec(ForLoop(None, s.test, s.post, b.py), pt, fuel), pt, k, b.next)
    decreases fuel, s, 1
  {
    hide Agree, KeepTemps, CExecSeq, LowerBody, Continues;
    KeepTempsSelf(pt);
    if fuel > 0 {
      var b := LowerBody(s.body, k);
      var loop := ForLoop(None, s.test, s.post, b.py);
      if s.test.Some? {
        EvalAgrees(s.test.value, st, pt);
      }
      var e := if s.test.None? then Val(1, st) else Eval(s.test.value, st);
      var f := Eval(loop.test, pt);
      KeepTempsTrans(pt, pt, f.st, 0, 0, 0, 0, k, b.next);
      if e.Val? && e.v != 0 {
        ForBodySimulates(s, k, e.st, f.st, fuel - 1);
        var c, p := ForBody(s, e.st, fuel - 1), PyExecSeq(loop.body, f.st, fuel - 1);
        KeepTempsTrans(pt, f.st, p.st, 0, 0, k, b.next, k, b.next);
        var again := c.out.Normal? || c.out.Continued?;
        assert CForLoop(s, st, fuel) == if again then CForLoop(s, c.st, fuel - 1) else AfterBreak(c);
        if again {
          ForLoopSimulates(s, k, c.st, p.st, fuel - 1);
          KeepTempsTrans(pt, p.st, PyExec(loop, p.st, fuel - 1).st, k, b.next, k, b.next, k, b.next);
        }
      }
    }
  }

  lemma {:induction false} ForSimulates(s: CStmt, k: nat, st: Store, pt: Store, fuel: nat)
    requires s.CFor? && Supported(s) && Agree(st, pt)
    ensures var l := Lower(s, k);
            Simulates(CExec(s, st, fuel), PyExec(l.py, pt, fuel), pt, k, l.next)
    decreases fuel, s, 2
  {
    if s.init.None? {
      ForLoopSimulates(s, k, st, pt, fuel);
    } else {
      EvalAgrees(s.init.value, st, pt);
      var e, f := Eval(s.init.value, st), Eval(s.init.value, pt);
      var loop := ForLoop(None, s.test, s.post, LowerBody(s.body, k).py);
      var block := [ExprStmt(s.init.value), loop];
      assert Lower(s, k).py == If(TRUE, block, []);
      if e.Val? {
        ForLoopSimulates(s, k, e.st, f.st, fuel);
        var p := PyExec(loop, f.st, fuel);
        assert block[1..] == [loop];
        assert PyExecSeq([loop], f.st, fuel) == p;
        assert PyExecSeq(block, pt, fuel) == p;
      } else {
        assert PyExecSeq(block, pt, fuel) == Run(Failed, f.st);
      }
    }
  }

  lemma {:induction false} IfSimulates(s: CStmt, k: nat, st: Store, pt: Store, fuel: nat)
    requires s.CIf? && Supported(s) && Agree(st, pt)
    ensures var l := Lower(s, k);
            Simulates(CExec(s, st, fuel), PyExec(l.py, pt, fuel), pt, k, l.next)
    decreases fuel, s, 2
  {
    hide CExecSeq, PyExecSeq, LowerBody, LowerSeq;
    EvalAgrees(s.cond, st, pt);
    var a, b := Eval(s.cond, st), Eval(s.cond, pt);
    if a.Val? && a.v != 0 {
      BodySimulates(s.thn, k, a.st, b.st, fuel);
    } else if a.Val? {
      SeqSimulates(s.els, LowerBody(s.thn, k).next, a.st, b.st, fuel);
    }
  }

  /** Every supported statement. */
  lemma {:induction false} StatementSimulates(s: CStmt, k: nat, st: Store, pt: Store, fuel: nat)
    requires Supported(s) && Agree(st, pt)
    ensures var l := Lower(s, k);
            Simulates(CExec(s, st, fuel), PyExec(l.py, pt, fuel), pt, k, l.next)
    decreases fuel, s, 3
  {
    hide SwitchLoop, ForLoop, DoLoop, Merge, Continues, DefaultPlaced, CExecSeq, PyExecSeq, LowerBody, LowerArms;
    match s
    case CAssign(x, e) => EvalAgrees(e, st, pt);
    case CExpr(e) => EvalAgrees(e, st, pt);
    case CBreak =>
    case CContinue =>
    case CReturn(value) =>
      if value.Some? {
        EvalAgrees(value.value, st, pt);
      }
    case CBlock(body) => BodySimulates(body, k, st, pt, fuel);
    case CIf(_, _, _) => IfSimulates(s, k, st, pt, fuel);
    case CWhile(cond, body) => WhileSimulates(s, k, st, pt, fuel);
    case CDo(body, cond) => DoSimulates(s, k, st, pt, fuel);
    case CFor(_, _, _, _) => ForSimulates(s, k, st, pt, fuel);
    case CSwitch(subject, arms) => SwitchSimulates(subject, arms, k, st, pt, fuel);
  }

  // ----- whole behaviours -----

  ghost predicate CEnds(s: CStmt, st: Store, r: Run) {
    !r.out.Timeout? && exists fuel: nat :: CExec(s, st, fuel) == r
  }

  ghost predicate PyEnds(s: PyStmt, st: Store, r: Run) {
    !r.out.Timeout? && exists fuel: nat :: PyExec(s, st, fuel) == r
  }

  /** The C statement and its lowering end together, with the same outcome and the same program
      variables; so one runs for ever exactly when the other does. */
  lemma SameBehaviour(s: CStmt, k: nat, st: Store)
    requires Supported(s)
    ensures forall r :: CEnds(s, st, r) ==>
              exists q :: PyEnds(Lower(s, k).py, st, q) && q.out == r.out && Agree(r.st, q.st)
    ensures forall q :: PyEnds(Lower(s, k).py, st, q) ==>
              exists r :: CEnds(s, st, r) && r.out == q.out && Agree(r.st, q.st)
  {
    var py := Lower(s, k).py;
    forall r | CEnds(s, st, r) ensures exists q :: PyEnds(py, st, q) && q.out == r.out && Agree(r.st, q.st) {
      var fuel: nat :| CExec(s, st, fuel) == r;
      StatementSimulates(s, k, st, st, fuel);
      assert PyEnds(py, st, PyExec(py, st, fuel));
    }
    forall q | PyEnds(py, st, q) ensures exists r :: CEnds(s, st, r) && r.out == q.out && Agree(r.st, q.st) {
      var fuel: nat :| PyExec(py, st, fuel) == q;
      StatementSimulates(s, k, st, st, fuel);
      assert CEnds(s, st, CExec(s, st, fuel));
    }
  }

  /** What a statement ends with does not depend on the budget it was given. */
  lemma EndIsUnique(s: CStmt, p: PyStmt, st: Store, a: Run, b: Run)
    ensures CEnds(s, st, a) && CEnds(s, st, b) ==> a == b
    ensures PyEnds(p, st, a) && PyEnds(p, st, b) ==> a == b
  {
    if CEnds(s, st, a) && CEnds(s, st, b) {
      var f: nat :| CExec(s, st, f) == a;
      var g: nat :| CExec(s, st, g) == b;
      if f <= g { CFuelMonotone(s, st, f, g); } else { CFuelMonotone(s, st, g, f); }
    }
    if PyEnds(p, st, a) && PyEnds(p, st, b) {
      var f: nat :| PyExec(p, st, f) == a;
      var g: nat :| PyExec(p, st, g) == b;
      if f <= g { PyFuelMonotone(p, st, f, g); } else { PyFuelMonotone(p, st, g, f); }
    }
  }
}
