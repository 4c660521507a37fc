/**
  The numbered temporaries never clash: within one translation every switch gets its own number,
  and different numbers and kinds give different identifiers.
 */
module SwitchNames {
  import opened Options
  import opened ControlFlow
  import opened Lowering
  import opened Numerals

  /** The identifier a name is printed as. */
  function Render(x: Name): string {
    match x
    case User(id) => id
    case Temp(SwitchOn, k) => "__switch_on" + Decimal(k)
    case Temp(Matched, k) => "__matched" + Decimal(k)
    case Temp(MatchedAny, k) => "_switch_matched_any" + Decimal(k)
  }

  /** An identifier no temporary is printed as. */
  ghost predicate Unreserved(id: string) {
    forall kind: TempKind, k: nat :: Render(Temp(kind, k)) != id
  }

  /** Printing keeps names apart, provided the program itself uses no temporary's identifier. */
  lemma RenderInjective(x: Name, y: Name)
    requires x.User? ==> Unreserved(x.id)
    requires y.User? ==> Unreserved(y.id)
    requires Render(x) == Render(y)
    ensures x == y
  {
    if x.Temp? && y.Temp? {
      var s, t := Render(x), Render(y);
      assert x.kind == SwitchOn ==> s[1] == '_' && s[2] == 's';
      assert x.kind == Matched ==> s[1] == '_' && s[2] == 'm';
      assert x.kind == MatchedAny ==> s[1] == 's';
      assert y.kind == SwitchOn ==> t[1] == '_' && t[2] == 's';
      assert y.kind == Matched ==> t[1] == '_' && t[2] == 'm';
      assert y.kind == MatchedAny ==> t[1] == 's';
      assert x.kind == y.kind;
      var n := match x.kind
        case SwitchOn => |"__switch_on"|
        case Matched => |"__matched"|
        case MatchedAny => |"_switch_matched_any"|;
      assert s[n..] == Decimal(x.k) && t[n..] == Decimal(y.k);
      DecimalInjective(x.k, y.k);
    }
  }

  /** The numbers of the switches in a Python tree, in the order their blocks are entered. */
  function Numbers(s: PyStmt): seq<nat>
    decreases s, 1
  {
    match s
    case Assign(x, _) => if x.Temp? && x.kind.SwitchOn? then [x.k] else []
    case If(_, body, orelse) => NumbersOf(body) + NumbersOf(orelse)
    case While(_, body) => NumbersOf(body)
    case _ => []
  }

  function NumbersOf(ss: seq<PyStmt>): seq<nat>
    decreases ss, 0
  {
    if ss == [] then [] else Numbers(ss[0]) + NumbersOf(ss[1..])
  }

  function Upto(a: nat, b: nat): seq<nat>
    requires a <= b
  {
    seq(b - a, i requires 0 <= i => a + i)
  }

  lemma UptoJoin(a: nat, b: nat, c: nat)
    requires a <= b <= c
    ensures Upto(a, b) + Upto(b, c) == Upto(a, c)
  {
  }

  lemma {:induction false} NumbersAppend(a: seq<PyStmt>, b: seq<PyStmt>)
    ensures NumbersOf(a + b) == NumbersOf(a) + NumbersOf(b)
  {
    if a == [] {
      assert a + b == b;
    } else {
      assert (a + b)[0] == a[0] && (a + b)[1..] == a[1..] + b;
      NumbersAppend(a[1..], b);
    }
  }

  /** The program assigns no temporary itself. */
  predicate NoTemps(s: CStmt) {
    match s
    case CAssign(x, _) => x.User?
    case CBlock(body) => forall t <- body :: NoTemps(t)
    case CIf(_, thn, els) => (forall t <- thn :: NoTemps(t)) && forall t <- els :: NoTemps(t)
    case CWhile(_, body) => forall t <- body :: NoTemps(t)
    case CDo(body, _) => forall t <- body :: NoTemps(t)
    case CFor(_, _, _, body) => forall t <- body :: NoTemps(t)
    case CSwitch(_, arms) => forall a <- arms :: forall t <- a.body :: NoTemps(t)
    case _ => true
  }

  predicate NoTempsIn(ss: seq<CStmt>) {
    forall t <- ss :: NoTemps(t)
  }

  /** A lowered statement numbers its switches with exactly the counter values it used up, each
      once, outer switches before the ones nested in them. */
  lemma {:induction false} NumbersAreCounter(s: CStmt, k: nat)
    requires NoTemps(s)
    ensures Numbers(Lower(s, k).py) == Upto(k, Lower(s, k).next)
    decreases s, 1
  {
    hide SwitchLoop, ForLoop, DoLoop, Merge;
    match s
    case CBlock(body) => BodyNumbers(body, k);
    case CIf(_, thn, els) =>
      BodyNumbers(thn, k);
      SeqNumbers(els, LowerBody(thn, k).next);
    case CWhile(_, body) => BodyNumbers(body, k);
    case CDo(body, cond) =>
      BodyNumbers(body, k);
      DoNumbers(LowerBody(body, k).py, cond);
    case CFor(init, test, post, body) =>
      BodyNumbers(body, k);
      ForNumbers(s, k);
    case CSwitch(subject, arms) =>
      ArmsNumbers(arms, k + 1);
      SwitchCounted(subject, arms, k);
    case _ =>
  }

  lemma SwitchCounted(subject: Expr, arms: seq<Arm>, k: nat)
    requires var l := LowerArms(arms, k + 1); ArmNumbers(l.arms) == Upto(k + 1, l.next)
    ensures var l := LowerArms(arms, k + 1);
            Numbers(SwitchLoop(subject, Merge(l.arms, []), k)) == Upto(k, l.next)
  {
    hide Numbers, NumbersOf, SwitchLoop, Merge, EmitNodes, LowerArms;
    var l := LowerArms(arms, k + 1);
    MergeNumbers(l.arms, [], k);
    SwitchNumbers(subject, Merge(l.arms, []), k);
    UptoJoin(k, k + 1, l.next);
    assert Upto(k, k + 1) == [k];
  }

  lemma DoNumbers(b: seq<PyStmt>, cond: Expr)
    ensures Numbers(DoLoop(b, cond)) == NumbersOf(b)
  {
    var last := If(Not(cond), [Break], []);
    NumbersAppend(b, [last]);
    assert NumbersOf([Break]) == [];
    assert NumbersOf([last]) == [];
  }

  lemma ForNumbers(s: CStmt, k: nat)
    requires s.CFor?
    ensures Numbers(Lower(s, k).py) == NumbersOf(LowerBody(s.body, k).py)
  {
    var b := LowerBody(s.body, k).py;
    var loop := ForLoop(None, s.test, s.post, b);
    LoopNumbers(b, s.test, s.post);
    if s.init.Some? {
      var block := [ExprStmt(s.init.value), loop];
      assert Lower(s, k).py == If(TRUE, block, []);
      assert block[1..] == [loop];
      assert NumbersOf([loop]) == Numbers(loop) + NumbersOf([]);
      assert NumbersOf(block) == Numbers(block[0]) + NumbersOf([loop]);
    }
  }

  lemma LoopNumbers(b: seq<PyStmt>, test: Option<Expr>, post: Option<Expr>)
    ensures Numbers(ForLoop(None, test, post, b)) == NumbersOf(b)
  {
    var tail := if post.None? then [] else [ExprStmt(post.value)];
    assert NumbersOf(tail) == [];
    NumbersAppend(b, tail);
    assert ForLoop(None, test, post, b).body == b + tail;
  }

  lemma SwitchNumbers(subject: Expr, nodes: seq<Node>, k: nat)
    requires Tagged(nodes)
    ensures Numbers(SwitchLoop(subject, nodes, k)) == [k] + NumbersOf(EmitNodes(nodes, k))
  {
    var head, tests := SwitchBody(subject, k), EmitNodes(nodes, k);
    NumbersAppend(head + tests, [Break]);
    NumbersAppend(head, tests);
    assert NumbersOf(head[1..][1..][1..]) == [];
    assert NumbersOf(head[1..][1..]) == [];
    assert NumbersOf(head[1..]) == [];
    assert NumbersOf([Break]) == [];
  }

  function ArmNumbers(arms: seq<PyArm>): seq<nat> {
    if arms == [] then [] else NumbersOf(arms[0].body) + ArmNumbers(arms[1..])
  }

  lemma NodeNumbers(n: Node, k: nat)
    requires n.tags != []
    ensures Numbers(EmitNode(n, k)) == NumbersOf(n.body)
  {
    var mark := Assign(Temp(Matched, k), TRUE);
    if n.tags == [Default] {
      NumbersAppend([mark], n.body);
      assert NumbersOf([mark]) == [];
    } else {
      var note := If(And(Not(Var(Temp(Matched, k))), TestLabels(n.tags, k)), [Assign(Temp(MatchedAny, k), TRUE)], []);
      assert NumbersOf(note.body) == [];
      NumbersAppend([note, mark], n.body);
      assert [note, mark][1..] == [mark];
      assert NumbersOf([mark]) == [];
      assert NumbersOf([note, mark]) == [];
    }
  }

  lemma {:induction false} MergeNumbers(arms: seq<PyArm>, pending: seq<Label>, k: nat)
    ensures NumbersOf(EmitNodes(Merge(arms, pending), k)) == ArmNumbers(arms)
    decreases |arms|, |pending|
  {
    var nodes := Merge(arms, pending);
    if arms == [] {
      if pending != [] {
        MergeNumbers([], pending[1..], k);
        NodeNumbers(nodes[0], k);
        assert nodes[1..] == Flush(pending[1..]);
        assert NumbersOf([Pass]) == [];
      }
    } else if arms[0].body == [] {
      MergeNumbers(arms[1..], pending + [arms[0].tag], k);
    } else {
      MergeNumbers(arms[1..], [], k);
      NodeNumbers(nodes[0], k);
      assert nodes[1..] == Merge(arms[1..], []);
    }
  }

  lemma {:induction false} ArmsNumbers(arms: seq<Arm>, k: nat)
    requires forall a <- arms :: NoTempsIn(a.body)
    ensures ArmNumbers(LowerArms(arms, k).arms) == Upto(k, LowerArms(arms, k).next)
    decreases arms, 4
  {
    if arms != [] {
      var a := LowerArm(arms[0], k);
      var l := LowerArms(arms, k);
      assert l.arms[0].body == a.py && l.arms[1..] == LowerArms(arms[1..], a.next).arms;
      assert arms[0] in arms;
      if arms[0].braced {
        BodyNumbers(arms[0].body, k);
      } else if arms[0].tag.Default? {
        DefaultNumbers(arms[0].body, k);
      } else {
        SeqNumbers(arms[0].body, k);
      }
      ArmsNumbers(arms[1..], a.next);
      UptoJoin(k, a.next, l.next);
    }
  }

  lemma {:induction false} BodyNumbers(ss: seq<CStmt>, k: nat)
    requires NoTempsIn(ss)
    ensures NumbersOf(LowerBody(ss, k).py) == Upto(k, LowerBody(ss, k).next)
    decreases ss, 2
  {
    if ss != [] {
      SeqNumbers(ss, k);
    } else {
      assert NumbersOf([Pass]) == [];
    }
  }

  lemma {:induction false} SeqNumbers(ss: seq<CStmt>, k: nat)
    requires NoTempsIn(ss)
    ensures NumbersOf(LowerSeq(ss, k).py) == Upto(k, LowerSeq(ss, k).next)
    decreases ss, 0
  {
    if ss != [] {
      var a := Lower(ss[0], k);
      assert LowerSeq(ss, k).py[1..] == LowerSeq(ss[1..], a.next).py;
      NumbersAreCounter(ss[0], k);
      SeqNumbers(ss[1..], a.next);
      UptoJoin(k, a.next, LowerSeq(ss, k).next);
    }
  }

  lemma {:induction false} DefaultNumbers(ss: seq<CStmt>, k: nat)
    requires NoTempsIn(ss)
    ensures NumbersOf(LowerDefault(ss, k).py) == Upto(k, LowerDefault(ss, k).next)
    decreases ss, 0
  {
    if ss != [] {
      var a := Lower(ss[0], k);
      var l := LowerDefault(ss, k);
      assert !a.py.Break? ==> l.py[0] == a.py && l.py[1..] == LowerDefault(ss[1..], a.next).py;
      NumbersAreCounter(ss[0], k);
      DefaultNumbers(ss[1..], a.next);
      UptoJoin(k, a.next, l.next);
    }
  }
}
