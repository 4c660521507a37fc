/**
  The translator's lowering of C statements: `switch` becomes a `while True` block driven by three
  numbered temporaries, `for` and `do` become `while`.  The functions say which Python tree comes
  out and how many switch numbers are used up; class Translator produces that tree the way the
  translator does, with a running counter and a stack of the switches being read.
 */
module Lowering {
  import opened Options
  import opened ControlFlow

  datatype Lowered = Lowered(py: PyStmt, next: nat)
  datatype LoweredSeq = LoweredSeq(py: seq<PyStmt>, next: nat)

  /** An arm with its statements translated, and an arm as it is emitted: the labels it tests. */
  datatype PyArm = PyArm(tag: Label, body: seq<PyStmt>)
  datatype LoweredArms = LoweredArms(arms: seq<PyArm>, next: nat)
  datatype Node = Node(tags: seq<Label>, body: seq<PyStmt>)

  const TRUE := Num(1)
  const FALSE := Num(0)

  // ----- the three kinds of arm body -----

  function LowerSeq(ss: seq<CStmt>, k: nat): (r: LoweredSeq)
    ensures k <= r.next
    decreases ss, 0
  {
    if ss == [] then LoweredSeq([], k) else
    var a := Lower(ss[0], k);
    var b := LowerSeq(ss[1..], a.next);
    LoweredSeq([a.py] + b.py, b.next)
  }

  /** A braced body; an empty one becomes `pass`. */
  function LowerBody(ss: seq<CStmt>, k: nat): (r: LoweredSeq)
    ensures k <= r.next
    decreases ss, 2
  {
    if ss == [] then LoweredSeq([Pass], k) else LowerSeq(ss, k)
  }

  /** The statements after an unbraced `default:`, from which every `break` is removed. */
  function LowerDefault(ss: seq<CStmt>, k: nat): (r: LoweredSeq)
    ensures k <= r.next
    decreases ss, 0
  {
    if ss == [] then LoweredSeq([], k) else
    var a := Lower(ss[0], k);
    var b := LowerDefault(ss[1..], a.next);
    LoweredSeq(if a.py.Break? then b.py else [a.py] + b.py, b.next)
  }

  function LowerArm(arm: Arm, k: nat): (r: LoweredSeq)
    ensures k <= r.next
    decreases arm, 3
  {
    if arm.braced then LowerBody(arm.body, k)
    else if arm.tag.Default? then LowerDefault(arm.body, k)
    else LowerSeq(arm.body, k)
  }

  function LowerArms(arms: seq<Arm>, k: nat): (r: LoweredArms)
    ensures k <= r.next
    decreases arms, 4
  {
    if arms == [] then LoweredArms([], k) else
    var a := LowerArm(arms[0], k);
    var b := LowerArms(arms[1..], a.next);
    LoweredArms([PyArm(arms[0].tag, a.py)] + b.arms, b.next)
  }

  // ----- statements -----

  function Lower(s: CStmt, k: nat): (r: Lowered)
    ensures k <= r.next
    decreases s, 1
  {
    match s
    case CAssign(x, e) => Lowered(Assign(x, e), k)
    case CExpr(e) => Lowered(ExprStmt(e), k)
    case CBreak => Lowered(Break, k)
    case CContinue => Lowered(Continue, k)
    case CReturn(value) => Lowered(Return(value), k)
    case CBlock(body) =>
      var b := LowerBody(body, k);
      Lowered(If(TRUE, b.py, []), b.next)
    case CIf(cond, thn, els) =>
      var a := LowerBody(thn, k);
      var b := LowerSeq(els, a.next);
      Lowered(If(cond, a.py, b.py), b.next)
    case CWhile(cond, body) =>
      var b := LowerBody(body, k);
      Lowered(While(cond, b.py), b.next)
    case CDo(body, cond) =>
      var b := LowerBody(body, k);
      Lowered(DoLoop(b.py, cond), b.next)
    case CFor(init, test, post, body) =>
      var b := LowerBody(body, k);
      Lowered(ForLoop(init, test, post, b.py), b.next)
    case CSwitch(subject, arms) =>
      var a := LowerArms(arms, k + 1);
      Lowered(SwitchLoop(subject, Merge(a.arms, []), k), a.next)
  }

  function DoLoop(body: seq<PyStmt>, cond: Expr): PyStmt {
    While(TRUE, body + [If(Not(cond), [Break], [])])
  }

  function ForLoop(init: Option<Expr>, test: Option<Expr>, post: Option<Expr>, body: seq<PyStmt>): PyStmt {
    var loop := While(if test.None? then TRUE else test.value,
                      body + if post.None? then [] else [ExprStmt(post.value)]);
    if init.None? then loop else If(TRUE, [ExprStmt(init.value), loop], [])
  }

  /** Arms without statements are folded into the next arm that has some; those left over at the
      end each get `pass`. */
  function Merge(arms: seq<PyArm>, pending: seq<Label>): (nodes: seq<Node>)
    ensures Tagged(nodes)
  {
    if arms == [] then Flush(pending)
    else if arms[0].body == [] then Merge(arms[1..], pending + [arms[0].tag])
    else [Node(pending + [arms[0].tag], arms[0].body)] + Merge(arms[1..], [])
  }

  function Flush(pending: seq<Label>): (nodes: seq<Node>)
    ensures Tagged(nodes)
  {
    if pending == [] then [] else [Node([pending[0]], [Pass])] + Flush(pending[1..])
  }

  /** The comparison against one label.  A `default` folded into a test reads the variable `_`. */
  function TestLabel(l: Label, k: nat): Expr {
    Bin(Eq, Var(Temp(SwitchOn, k)), if l.Case? then Num(l.n) else Var(User("_")))
  }

  function TestLabels(tags: seq<Label>, k: nat): Expr
    requires tags != []
  {
    if |tags| == 1 then TestLabel(tags[0], k) else Or(TestLabel(tags[0], k), TestLabels(tags[1..], k))
  }

  function EmitNode(n: Node, k: nat): PyStmt
    requires n.tags != []
  {
    var matched := Var(Temp(Matched, k));
    var mark := Assign(Temp(Matched, k), TRUE);
    if n.tags == [Default] then
      If(Or(matched, Not(Var(Temp(MatchedAny, k)))), [mark] + n.body, [])
    else
      var test := TestLabels(n.tags, k);
      If(Or(matched, test),
         [If(And(Not(matched), test), [Assign(Temp(MatchedAny, k), TRUE)], []), mark] + n.body, [])
  }

  predicate Tagged(nodes: seq<Node>) {
    forall n <- nodes :: n.tags != []
  }

  function EmitNodes(nodes: seq<Node>, k: nat): seq<PyStmt>
    requires Tagged(nodes)
  {
    if nodes == [] then [] else [EmitNode(nodes[0], k)] + EmitNodes(nodes[1..], k)
  }

  function SwitchBody(subject: Expr, k: nat): seq<PyStmt> {
    [Assign(Temp(SwitchOn, k), subject), Assign(Temp(MatchedAny, k), FALSE), Assign(Temp(Matched, k), FALSE)]
  }

  function SwitchLoop(subject: Expr, nodes: seq<Node>, k: nat): PyStmt
    requires Tagged(nodes)
  {
    While(TRUE, SwitchBody(subject, k) + EmitNodes(nodes, k) + [Break])
  }

  // ----- the translator -----

  /** No switch in the statement is without arms: on one the translator raises. */
  predicate Translatable(s: CStmt) {
    match s
    case CBlock(body) => forall t <- body :: Translatable(t)
    case CIf(_, thn, els) => (forall t <- thn :: Translatable(t)) && forall t <- els :: Translatable(t)
    case CWhile(_, body) => forall t <- body :: Translatable(t)
    case CDo(body, _) => forall t <- body :: Translatable(t)
    case CFor(_, _, _, body) => forall t <- body :: Translatable(t)
    case CSwitch(_, arms) => arms != [] && forall a <- arms :: forall t <- a.body :: Translatable(t)
    case _ => true
  }

  predicate TranslatableSeq(ss: seq<CStmt>) {
    forall t <- ss :: Translatable(t)
  }

  predicate TranslatableArms(arms: seq<Arm>) {
    forall a <- arms :: TranslatableSeq(a.body)
  }

  /** The counter and the stack are shared by every parser of a run.  `None` stands for an exception. */
  class Translator {
    var matchI: nat
    var matchQ: seq<nat>

    constructor ()
      ensures matchI == 0 && matchQ == []
    {
      matchI, matchQ := 0, [];
    }

    method Statements(ss: seq<CStmt>) returns (out: Option<seq<PyStmt>>)
      modifies this
      ensures out.Some? <==> TranslatableSeq(ss)
      ensures out.Some? ==> LoweredSeq(out.value, matchI) == LowerSeq(ss, old(matchI)) && matchQ == old(matchQ)
      decreases ss, 0
    {
      var done := [];
      for i := 0 to |ss|
        invariant matchQ == old(matchQ) && forall j :: 0 <= j < i ==> Translatable(ss[j])
        invariant LowerSeq(ss, old(matchI)) ==
                  LoweredSeq(done + LowerSeq(ss[i..], matchI).py, LowerSeq(ss[i..], matchI).next)
      {
        var s := Statement(ss[i]);
        if s.None? {
          return None;
        }
        done := done + [s.value];
      }
      out := Some(done);
    }

    method Body(ss: seq<CStmt>) returns (out: Option<seq<PyStmt>>)
      modifies this
      ensures out.Some? <==> TranslatableSeq(ss)
      ensures out.Some? ==> LoweredSeq(out.value, matchI) == LowerBody(ss, old(matchI)) && matchQ == old(matchQ)
      decreases ss, 2
    {
      if ss == [] {
        return Some([Pass]);
      }
      out := Statements(ss);
    }

    method DefaultStatements(ss: seq<CStmt>) returns (out: Option<seq<PyStmt>>)
      modifies this
      ensures out.Some? <==> TranslatableSeq(ss)
      ensures out.Some? ==> LoweredSeq(out.value, matchI) == LowerDefault(ss, old(matchI)) && matchQ == old(matchQ)
      decreases ss, 0
    {
      var done := [];
      for i := 0 to |ss|
        invariant matchQ == old(matchQ) && forall j :: 0 <= j < i ==> Translatable(ss[j])
        invariant LowerDefault(ss, old(matchI)) ==
                  LoweredSeq(done + LowerDefault(ss[i..], matchI).py, LowerDefault(ss[i..], matchI).next)
      {
        var s := Statement(ss[i]);
        if s.None? {
          return None;
        }
        if !s.value.Break? {
          done := done + [s.value];
        }
      }
      out := Some(done);
    }

    method Arms(arms: seq<Arm>) returns (out: Option<seq<PyArm>>)
      modifies this
      ensures out.Some? <==> TranslatableArms(arms)
      ensures out.Some? ==> LoweredArms(out.value, matchI) == LowerArms(arms, old(matchI)) && matchQ == old(matchQ)
      decreases arms, 4
    {
      hide LowerSeq, LowerBody, LowerDefault, Translatable;
      var done := [];
      for i := 0 to |arms|
        invariant matchQ == old(matchQ) && forall j :: 0 <= j < i ==> TranslatableSeq(arms[j].body)
        invariant LowerArms(arms, old(matchI)) ==
                  LoweredArms(done + LowerArms(arms[i..], matchI).arms, LowerArms(arms[i..], matchI).next)
      {
        var arm := arms[i];
        var body;
        if arm.braced {
          body := Body(arm.body);
        } else if arm.tag.Default? {
          body := DefaultStatements(arm.body);
        } else {
          body := Statements(arm.body);
        }
        if body.None? {
          return None;
        }
        assert arms[i..][1..] == arms[i + 1..];
        done := done + [PyArm(arm.tag, body.value)];
      }
      out := Some(done);
    }

    method Statement(s: CStmt) returns (py: Option<PyStmt>)
      modifies this
      ensures py.Some? <==> Translatable(s)
      ensures py.Some? ==> Lowered(py.value, matchI) == Lower(s, old(matchI)) && matchQ == old(matchQ)
      decreases s, 1
    {
      match s
      case CAssign(x, e) => py := Some(Assign(x, e));
      case CExpr(e) => py := Some(ExprStmt(e));
      case CBreak => py := Some(Break);
      case CContinue => py := Some(Continue);
      case CReturn(value) => py := Some(Return(value));
      case CBlock(body) =>
        var b := Body(body);
        py := if b.None? then None else Some(If(TRUE, b.value, []));
      case CIf(cond, thn, els) =>
        var a := Body(thn);
        if a.None? {
          return None;
        }
        var b := Statements(els);
        py := if b.None? then None else Some(If(cond, a.value, b.value));
      case CWhile(cond, body) =>
        var b := Body(body);
        py := if b.None? then None else Some(While(cond, b.value));
      case CDo(body, cond) =>
        var b := Body(body);
        py := if b.None? then None else Some(While(TRUE, b.value + [If(Not(cond), [Break], [])]));
      case CFor(_, _, _, _) => py := For(s);
      case CSwitch(_, _) => py := Switch(s);
    }

    method For(s: CStmt) returns (py: Option<PyStmt>)
      requires s.CFor?
      modifies this
      ensures py.Some? <==> Translatable(s)
      ensures py.Some? ==> Lowered(py.value, matchI) == Lower(s, old(matchI)) && matchQ == old(matchQ)
      decreases s, 0
    {
      var b := Body(s.body);
      if b.None? {
        return None;
      }
      var body := b.value;
      if s.post.Some? {
        body := body + [ExprStmt(s.post.value)];
      } else {
        assert body == body + [];
      }
      var loop := While(if s.test.None? then TRUE else s.test.value, body);
      py := Some(if s.init.Some? then If(TRUE, [ExprStmt(s.init.value), loop], []) else loop);
    }

    method Switch(s: CStmt) returns (py: Option<PyStmt>)
      requires s.CSwitch?
      modifies this
      ensures py.Some? <==> Translatable(s)
      ensures py.Some? ==> Lowered(py.value, matchI) == Lower(s, old(matchI)) && matchQ == old(matchQ)
      decreases s, 0
    {
      matchQ := [matchI] + matchQ;
      matchI := matchI + 1;
      if s.arms == [] {
        return None;
      }
      var parsed := Arms(s.arms);
      if parsed.None? {
        return None;
      }
      var nodes := MergeCases(parsed.value);
      var tests := EmitAll(nodes, matchQ[0]);
      py := Some(While(TRUE, SwitchBody(s.subject, matchQ[0]) + tests + [Break]));
      matchQ := matchQ[1..];
    }

    /** The pass that folds arms without statements into the next one that has some. */
    static method MergeCases(arms: seq<PyArm>) returns (out: seq<Node>)
      ensures Tagged(out) && out == Merge(arms, [])
    {
      var pending: seq<Label> := [];
      out := [];
      for i := 0 to |arms|
        invariant Tagged(out)
        invariant Merge(arms, []) == out + Merge(arms[i..], pending)
      {
        assert arms[i..][1..] == arms[i + 1..];
        if arms[i].body == [] {
          pending := pending + [arms[i].tag];
        } else {
          out := out + [Node(pending + [arms[i].tag], arms[i].body)];
          pending := [];
        }
      }
      for j := 0 to |pending|
        invariant Tagged(out)
        invariant Merge(arms, []) == out + Flush(pending[j..])
      {
        assert pending[j..][1..] == pending[j + 1..];
        out := out + [Node([pending[j]], [Pass])];
      }
    }

    static method EmitAll(nodes: seq<Node>, k: nat) returns (out: seq<PyStmt>)
      requires Tagged(nodes)
      ensures out == EmitNodes(nodes, k)
    {
      out := [];
      for i := 0 to |nodes|
        invariant EmitNodes(nodes, k) == out + EmitNodes(nodes[i..], k)
      {
        out := out + [EmitNode(nodes[i], k)];
      }
    }
  }
}
