/**
  The statement languages on the two sides of the C-to-Python translator and what running them
  means: C with `switch`, `for` and `do`, and the Python subset the translator emits.
  Expressions are carried over unchanged, so both sides share one evaluator.

  A run is given a budget of loop entries (`fuel`); a run that uses it up times out.  A `switch`
  is charged like one loop entry, so that the two sides time out at exactly the same budgets.
 */
module ControlFlow {
  import opened Options

  /** A variable of the translated program, or one of the numbered temporaries of a switch. */
  datatype TempKind = SwitchOn | Matched | MatchedAny
  datatype Name = User(id: string) | Temp(kind: TempKind, k: nat)

  datatype Operator = Add | Sub | Mul | Lt | Eq
  datatype Expr =
    | Num(n: int)
    | Var(name: Name)
    | Bin(op: Operator, l: Expr, r: Expr)
    | Not(e: Expr)
    | And(l: Expr, r: Expr)
    | Or(l: Expr, r: Expr)
    | Let(name: Name, e: Expr) // assignment used as an expression

  type Store = map<Name, int>
  datatype Value = Val(v: int, st: Store) | Fault(st: Store) // Fault: an unbound name was read

  function Apply(op: Operator, a: int, b: int): int {
    match op
    case Add => a + b
    case Sub => a - b
    case Mul => a * b
    case Lt => if a < b then 1 else 0
    case Eq => if a == b then 1 else 0
  }

  function Eval(e: Expr, st: Store): Value {
    match e
    case Num(n) => Val(n, st)
    case Var(x) => if x in st then Val(st[x], st) else Fault(st)
    case Bin(op, l, r) =>
      var a := Eval(l, st);
      if a.Fault? then a else
      var b := Eval(r, a.st);
      if b.Fault? then b else Val(Apply(op, a.v, b.v), b.st)
    case Not(x) =>
      var a := Eval(x, st);
      if a.Fault? then a else Val(if a.v == 0 then 1 else 0, a.st)
    case And(l, r) =>
      var a := Eval(l, st);
      if a.Fault? || a.v == 0 then a else Eval(r, a.st)
    case Or(l, r) =>
      var a := Eval(l, st);
      if a.Fault? || a.v != 0 then a else Eval(r, a.st)
    case Let(x, d) =>
      var a := Eval(d, st);
      if a.Fault? then a else Val(a.v, a.st[x := a.v])
  }

  /** How a statement ends. */
  datatype Outcome = Normal | Broke | Continued | Returned(value: Option<int>) | Failed | Timeout
  datatype Run = Run(out: Outcome, st: Store)

  // ----- C -----

  datatype CStmt =
    | CAssign(x: Name, e: Expr)
    | CExpr(e: Expr)
    | CBreak
    | CContinue
    | CReturn(value: Option<Expr>)
    | CBlock(body: seq<CStmt>)
    | CIf(cond: Expr, thn: seq<CStmt>, els: seq<CStmt>)
    | CWhile(cond: Expr, body: seq<CStmt>)
    | CDo(body: seq<CStmt>, cond: Expr)
    | CFor(init: Option<Expr>, test: Option<Expr>, post: Option<Expr>, body: seq<CStmt>)
    | CSwitch(subject: Expr, arms: seq<Arm>)

  datatype Label = Case(n: int) | Default
  datatype Arm = Arm(tag: Label, body: seq<CStmt>, braced: bool)

  /** The arms from the first one carrying label `l`. */
  function FromLabel(arms: seq<Arm>, l: Label): Option<seq<Arm>> {
    if arms == [] then None
    else if arms[0].tag == l then Some(arms)
    else FromLabel(arms[1..], l)
  }

  function Bodies(arms: seq<Arm>): seq<CStmt> {
    if arms == [] then [] else arms[0].body + Bodies(arms[1..])
  }

  /** What a switch on `v` runs (section 6.8.4.2 of ISO/IEC 9899:2011): everything after the matching
      case label, else everything after `default`, else nothing. */
  function Selected(arms: seq<Arm>, v: int): seq<CStmt> {
    match FromLabel(arms, Case(v))
    case Some(a) => Bodies(a)
    case None =>
      match FromLabel(arms, Default)
      case Some(a) => Bodies(a)
      case None => []
  }

  function AfterBreak(r: Run): Run {
    if r.out.Broke? then Run(Normal, r.st) else r
  }

  function CExec(s: CStmt, st: Store, fuel: nat): Run
    decreases fuel, s, 1
  {
    match s
    case CAssign(x, e) =>
      var a := Eval(e, st);
      if a.Fault? then Run(Failed, a.st) else Run(Normal, a.st[x := a.v])
    case CExpr(e) => Run(if Eval(e, st).Fault? then Failed else Normal, Eval(e, st).st)
    case CBreak => Run(Broke, st)
    case CContinue => Run(Continued, st)
    case CReturn(value) =>
      if value.None? then Run(Returned(None), st) else
      var a := Eval(value.value, st);
      if a.Fault? then Run(Failed, a.st) else Run(Returned(Some(a.v)), a.st)
    case CBlock(body) => CExecSeq(body, st, fuel)
    case CIf(cond, thn, els) =>
      var a := Eval(cond, st);
      if a.Fault? then Run(Failed, a.st)
      else if a.v != 0 then CExecSeq(thn, a.st, fuel)
      else CExecSeq(els, a.st, fuel)
    case CWhile(cond, body) =>
      if fuel == 0 then Run(Timeout, st) else
      var a := Eval(cond, st);
      if a.Fault? then Run(Failed, a.st)
      else if a.v == 0 then Run(Normal, a.st)
      else
        var r := CExecSeq(body, a.st, fuel - 1);
        if r.out.Normal? || r.out.Continued? then CExec(s, r.st, fuel - 1) else AfterBreak(r)
    case CDo(body, cond) =>
      if fuel == 0 then Run(Timeout, st) else
      var r := CExecSeq(body, st, fuel - 1);
      if r.out.Normal? || r.out.Continued? then
        var a := Eval(cond, r.st);
        if a.Fault? then Run(Failed, a.st)
        else if a.v == 0 then Run(Normal, a.st)
        else CExec(s, a.st, fuel - 1)
      else AfterBreak(r)
    case CFor(init, _, _, _) =>
      if init.None? then CForLoop(s, st, fuel) else
      var a := Eval(init.value, st);
      if a.Fault? then Run(Failed, a.st) else CForLoop(s, a.st, fuel)
    case CSwitch(subject, arms) =>
      if fuel == 0 then Run(Timeout, st) else
      var a := Eval(subject, st);
      if a.Fault? then Run(Failed, a.st)
      else AfterBreak(CExecSeq(Selected(arms, a.v), a.st, fuel - 1))
  }

  /** The iterations of a `for` whose init clause is done (section 6.8.5.3). */
  function CForLoop(s: CStmt, st: Store, fuel: nat): Run
    requires s.CFor?
    decreases fuel, s, 0
  {
    if fuel == 0 then Run(Timeout, st) else
    var a := if s.test.None? then Val(1, st) else Eval(s.test.value, st);
    if a.Fault? then Run(Failed, a.st)
    else if a.v == 0 then Run(Normal, a.st)
    else
      var r := CExecSeq(s.body, a.st, fuel - 1);
      if r.out.Normal? || r.out.Continued? then
        if s.post.None? then CForLoop(s, r.st, fuel - 1) else
        var b := Eval(s.post.value, r.st);
        if b.Fault? then Run(Failed, b.st) else CForLoop(s, b.st, fuel - 1)
      else AfterBreak(r)
  }

  function CExecSeq(ss: seq<CStmt>, st: Store, fuel: nat): Run
    decreases fuel, ss, 0
  {
    if ss == [] then Run(Normal, st) else
    var r := CExec(ss[0], st, fuel);
    if r.out.Normal? then CExecSeq(ss[1..], r.st, fuel) else r
  }

  // ----- Python -----

  datatype PyStmt =
    | Pass
    | Assign(x: Name, e: Expr)
    | ExprStmt(e: Expr)
    | Break
    | Continue
    | Return(value: Option<Expr>)
    | If(test: Expr, body: seq<PyStmt>, orelse: seq<PyStmt>)
    | While(test: Expr, body: seq<PyStmt>)

  function PyExec(s: PyStmt, st: Store, fuel: nat): Run
    decreases fuel, s, 1
  {
    match s
    case Pass => Run(Normal, st)
    case Assign(x, e) =>
      var a := Eval(e, st);
      if a.Fault? then Run(Failed, a.st) else Run(Normal, a.st[x := a.v])
    case ExprStmt(e) => Run(if Eval(e, st).Fault? then Failed else Normal, Eval(e, st).st)
    case Break => Run(Broke, st)
    case Continue => Run(Continued, st)
    case Return(value) =>
      if value.None? then Run(Returned(None), st) else
      var a := Eval(value.value, st);
      if a.Fault? then Run(Failed, a.st) else Run(Returned(Some(a.v)), a.st)
    case If(test, body, orelse) =>
      var a := Eval(test, st);
      if a.Fault? then Run(Failed, a.st)
      else if a.v != 0 then PyExecSeq(body, a.st, fuel)
      else PyExecSeq(orelse, a.st, fuel)
    case While(test, body) =>
      if fuel == 0 then Run(Timeout, st) else
      var a := Eval(test, st);
      if a.Fault? then Run(Failed, a.st)
      else if a.v == 0 then Run(Normal, a.st)
      else
        var r := PyExecSeq(body, a.st, fuel - 1);
        if r.out.Normal? || r.out.Continued? then PyExec(s, r.st, fuel - 1) else AfterBreak(r)
  }

  function PyExecSeq(ss: seq<PyStmt>, st: Store, fuel: nat): Run
    decreases fuel, ss, 0
  {
    if ss == [] then Run(Normal, st) else
    var r := PyExec(ss[0], st, fuel);
    if r.out.Normal? then PyExecSeq(ss[1..], r.st, fuel) else r
  }

  // ----- running sequences piecewise -----

  lemma {:induction false} CExecSeqAppend(a: seq<CStmt>, b: seq<CStmt>, st: Store, fuel: nat)
    ensures CExecSeq(a + b, st, fuel) ==
            var r := CExecSeq(a, st, fuel);
            if r.out.Normal? then CExecSeq(b, r.st, fuel) else r
    decreases |a|
  {
    if a == [] {
      assert a + b == b;
    } else {
      assert (a + b)[0] == a[0] && (a + b)[1..] == a[1..] + b;
      var r := CExec(a[0], st, fuel);
      if r.out.Normal? {
        CExecSeqAppend(a[1..], b, r.st, fuel);
      }
    }
  }

  lemma {:induction false} PyExecSeqAppend(a: seq<PyStmt>, b: seq<PyStmt>, st: Store, fuel: nat)
    ensures PyExecSeq(a + b, st, fuel) ==
            var r := PyExecSeq(a, st, fuel);
            if r.out.Normal? then PyExecSeq(b, r.st, fuel) else r
    decreases |a|
  {
    if a == [] {
      assert a + b == b;
    } else {
      assert (a + b)[0] == a[0] && (a + b)[1..] == a[1..] + b;
      var r := PyExec(a[0], st, fuel);
      if r.out.Normal? {
        PyExecSeqAppend(a[1..], b, r.st, fuel);
      }
    }
  }

  // ----- a larger budget never changes a finished run -----

  lemma {:induction false} CFuelMonotone(s: CStmt, st: Store, fuel: nat, more: nat)
    requires fuel <= more && !CExec(s, st, fuel).out.Timeout?
    ensures CExec(s, st, more) == CExec(s, st, fuel)
    decreases fuel, s, 1
  {
    match s
    case CBlock(body) => CSeqFuelMonotone(body, st, fuel, more);
    case CIf(cond, thn, els) =>
      var a := Eval(cond, st);
      if a.Val? {
        CSeqFuelMonotone(if a.v != 0 then thn else els, a.st, fuel, more);
      }
    case CWhile(cond, body) =>
      var a := Eval(cond, st);
      if a.Val? && a.v != 0 {
        CSeqFuelMonotone(body, a.st, fuel - 1, more - 1);
        var r := CExecSeq(body, a.st, fuel - 1);
        if r.out.Normal? || r.out.Continued? {
          CFuelMonotone(s, r.st, fuel - 1, more - 1);
        }
      }
    case CDo(body, cond) =>
      CSeqFuelMonotone(body, st, fuel - 1, more - 1);
      var r := CExecSeq(body, st, fuel - 1);
      var a := Eval(cond, r.st);
      if (r.out.Normal? || r.out.Continued?) && a.Val? && a.v != 0 {
        CFuelMonotone(s, a.st, fuel - 1, more - 1);
      }
    case CFor(init, _, _, _) =>
      if init.None? {
        CForFuelMonotone(s, st, fuel, more);
      } else if Eval(init.value, st).Val? {
        CForFuelMonotone(s, Eval(init.value, st).st, fuel, more);
      }
    case CSwitch(subject, arms) =>
      var a := Eval(subject, st);
      if a.Val? {
        CSeqFuelMonotone(Selected(arms, a.v), a.st, fuel - 1, more - 1);
      }
    case _ =>
  }

  lemma {:induction false} CForFuelMonotone(s: CStmt, st: Store, fuel: nat, more: nat)
    requires s.CFor? && fuel <= more && !CForLoop(s, st, fuel).out.Timeout?
    ensures CForLoop(s, st, more) == CForLoop(s, st, fuel)
    decreases fuel, s, 0
  {
    var a := if s.test.None? then Val(1, st) else Eval(s.test.value, st);
    if a.Val? && a.v != 0 {
      CSeqFuelMonotone(s.body, a.st, fuel - 1, more - 1);
      var r := CExecSeq(s.body, a.st, fuel - 1);
      if r.out.Normal? || r.out.Continued? {
        if s.post.None? {
          CForFuelMonotone(s, r.st, fuel - 1, more - 1);
        } else if Eval(s.post.value, r.st).Val? {
          CForFuelMonotone(s, Eval(s.post.value, r.st).st, fuel - 1, more - 1);
        }
      }
    }
  }

  lemma {:induction false} CSeqFuelMonotone(ss: seq<CStmt>, st: Store, fuel: nat, more: nat)
    requires fuel <= more && !CExecSeq(ss, st, fuel).out.Timeout?
    ensures CExecSeq(ss, st, more) == CExecSeq(ss, st, fuel)
    decreases fuel, ss, 0
  {
    if ss != [] {
      CFuelMonotone(ss[0], st, fuel, more);
      var r := CExec(ss[0], st, fuel);
      if r.out.Normal? {
        CSeqFuelMonotone(ss[1..], r.st, fuel, more);
      }
    }
  }

  lemma {:induction false} PyFuelMonotone(s: PyStmt, st: Store, fuel: nat, more: nat)
    requires fuel <= more && !PyExec(s, st, fuel).out.Timeout?
    ensures PyExec(s, st, more) == PyExec(s, st, fuel)
    decreases fuel, s, 1
  {
    match s
    case If(test, body, orelse) =>
      var a := Eval(test, st);
      if a.Val? {
        PySeqFuelMonotone(if a.v != 0 then body else orelse, a.st, fuel, more);
      }
    case While(test, body) =>
      var a := Eval(test, st);
      if a.Val? && a.v != 0 {
        PySeqFuelMonotone(body, a.st, fuel - 1, more - 1);
        var r := PyExecSeq(body, a.st, fuel - 1);
        if r.out.Normal? || r.out.Continued? {
          PyFuelMonotone(s, r.st, fuel - 1, more - 1);
        }
      }
    case _ =>
  }

  lemma {:induction false} PySeqFuelMonotone(ss: seq<PyStmt>, st: Store, fuel: nat, more: nat)
    requires fuel <= more && !PyExecSeq(ss, st, fuel).out.Timeout?
    ensures PyExecSeq(ss, st, more) == PyExecSeq(ss, st, fuel)
    decreases fuel, ss, 0
  {
    if ss != [] {
      PyFuelMonotone(ss[0], st, fuel, more);
      var r := PyExec(ss[0], st, fuel);
      if r.out.Normal? {
        PySeqFuelMonotone(ss[1..], r.st, fuel, more);
      }
    }
  }
}
