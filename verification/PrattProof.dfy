/**
  The expression parser and a printer undo each other.  Normal trees are those in which every
  operator binds its operands as the table demands; the parser returns exactly these, and returns
  each from exactly one token sequence.
 */
module PrattProof {
  import opened Pratt

  function Print(e: Expr): (ts: seq<Token>)
    ensures ts != []
    decreases e, 1
  {
    match e
    case Leaf(lit, text) => [Atom(lit, text)]
    case Prefix(op, x) => [Sym(op)] + Print(x)
    case Infix(op, l, r) => Print(l) + [Sym(op)] + Print(r)
    case Cond(test, yes, no) => Print(test) + [Sym(CONDOP)] + Print(yes) + [Sym(COLON)] + Print(no)
    case Subscript(base, index) => Print(base) + [Sym(LBRACKET)] + Print(index) + [Sym(RBRACKET)]
    case Apply(base, args) => Print(base) + [Sym(LPAREN)] + PrintArgs(args) + [Sym(RPAREN)]
  }

  function PrintArgs(args: seq<Expr>): seq<Token>
    decreases args, 0
  {
    if args == [] then []
    else if |args| == 1 then Print(args[0])
    else Print(args[0]) + [Sym(COMMA)] + PrintArgs(args[1..])
  }

  const CLOSED := 1000

  function Min(a: int, b: int): int {
    if a < b then a else b
  }

  /** The weakest left power on the left edge of a tree: what a minimum power must stay below. */
  function LeftEdge(e: Expr): int {
    match e
    case Leaf(_, _) => CLOSED
    case Prefix(_, _) => CLOSED
    case Infix(op, l, _) => Min(Table(op).left, LeftEdge(l))
    case Cond(test, _, _) => Min(Table(CONDOP).left, LeftEdge(test))
    case Subscript(base, _) => Min(Table(LBRACKET).left, LeftEdge(base))
    case Apply(base, _) => Min(Table(LPAREN).left, LeftEdge(base))
  }

  /** The weakest minimum power still open on the right edge: the strongest operator that may follow. */
  function RightEdge(e: Expr): int {
    match e
    case Leaf(_, _) => CLOSED
    case Prefix(_, x) => Min(PREFIX_POWER, RightEdge(x))
    case Infix(op, _, r) => Min(Table(op).right, RightEdge(r))
    case Cond(_, _, no) => Min(Table(CONDOP).right, RightEdge(no))
    case Subscript(_, _) => CLOSED
    case Apply(_, _) => CLOSED
  }

  /** Trees in normal form for the binding powers. */
  predicate Normal(e: Expr) {
    match e
    case Leaf(_, _) => true
    case Prefix(op, x) => IsPrefix(op) && Normal(x) && LeftEdge(x) > PREFIX_POWER
    case Infix(op, l, r) =>
      IsInfix(op) && Normal(l) && Normal(r) && Table(op).left <= RightEdge(l) && LeftEdge(r) > Table(op).right
    case Cond(test, yes, no) =>
      Normal(test) && Normal(yes) && Normal(no) &&
      Table(CONDOP).left <= RightEdge(test) && LeftEdge(no) > Table(CONDOP).right
    case Subscript(base, index) => Normal(base) && Normal(index) && Table(LBRACKET).left <= RightEdge(base)
    case Apply(base, args) => Normal(base) && Table(LPAREN).left <= RightEdge(base) && forall a <- args :: Normal(a)
  }

  lemma {:induction false} EdgesPositive(e: Expr)
    requires Normal(e)
    ensures LeftEdge(e) > 0
  {
    match e
    case Infix(op, l, _) => EdgesPositive(l);
    case Cond(test, _, _) => EdgesPositive(test);
    case Subscript(base, _) => EdgesPositive(base);
    case Apply(base, _) => EdgesPositive(base);
    case _ =>
  }

  /** `ts` carries the tokens `p` from index `i` on. */
  predicate Holds(ts: seq<Token>, i: nat, p: seq<Token>) {
    i + |p| <= |ts| && ts[i..i + |p|] == p
  }

  lemma HoldsJoin(ts: seq<Token>, i: nat, p: seq<Token>, q: seq<Token>)
    ensures Holds(ts, i, p + q) <==> Holds(ts, i, p) && Holds(ts, i + |p|, q)
  {
    if Holds(ts, i, p + q) {
      assert ts[i..i + |p|] == (p + q)[..|p|] == p;
      assert ts[i + |p|..i + |p| + |q|] == (p + q)[|p|..] == q;
    }
    if Holds(ts, i, p) && Holds(ts, i + |p|, q) {
      assert ts[i..i + |p + q|] == ts[i..i + |p|] + ts[i + |p|..i + |p| + |q|];
    }
  }

  lemma HoldsFits(ts: seq<Token>, i: nat, p: seq<Token>)
    requires Holds(ts, i, p)
    ensures i + |p| <= |ts|
  {
  }

  lemma HoldsOne(ts: seq<Token>, i: nat, t: Token)
    ensures Holds(ts, i, [t]) <==> i < |ts| && ts[i] == t
  {
  }

  lemma TableFacts(k: Kind)
    ensures IsInfix(k) ==> 0 < Table(k).left && 0 <= Table(k).right <= 160
    ensures Table(CONDOP) == Power(20, 19, Ternary)
    ensures Table(LBRACKET).left == 160 && Table(LPAREN).left == 160
  {
  }

  lemma StopsBelow(ts: seq<Token>, i: nat, a: int, b: int)
    requires Stops(ts, i, a) && a <= b
    ensures Stops(ts, i, b)
  {
  }

  lemma StopsAtOperator(ts: seq<Token>, i: nat, k: Kind, bp: int)
    requires At(ts, i, k) && (Table(k).left <= bp || k in {COMMA, COLON, RPAREN, RBRACKET})
    ensures Stops(ts, i, bp)
  {
  }

  // ----- printing, then parsing -----

  lemma LeafStep(ts: seq<Token>, i: nat, bp: nat, lit: Literal, text: string)
    requires i < |ts| && ts[i] == Atom(lit, text)
    ensures ParseExpr(ts, i, bp) == Climb(ts, i + 1, bp, Leaf(lit, text))
  {
  }

  lemma PrefixStep(ts: seq<Token>, i: nat, bp: nat, op: Kind, x: Expr, j: nat)
    requires At(ts, i, op) && IsPrefix(op) && ParseExpr(ts, i + 1, PREFIX_POWER) == Ok(x, j)
    ensures ParseExpr(ts, i, bp) == Climb(ts, j, bp, Prefix(op, x))
  {
  }

  lemma InfixStep(ts: seq<Token>, k: nat, bp: nat, op: Kind, l: Expr, r: Expr, j: nat)
    requires HasNext(ts, k) && ts[k] == Sym(op) && IsInfix(op) && Table(op).left > bp
    requires ParseExpr(ts, k + 1, Table(op).right) == Ok(r, j)
    ensures Climb(ts, k, bp, l) == Climb(ts, j, bp, Infix(op, l, r))
  {
  }

  lemma CondStep(ts: seq<Token>, k: nat, bp: nat, test: Expr, yes: Expr, c: nat, no: Expr, j: nat)
    requires HasNext(ts, k) && ts[k] == Sym(CONDOP) && Table(CONDOP).left > bp
    requires ParseExpr(ts, k + 1, 0) == Ok(yes, c) && At(ts, c, COLON)
    requires ParseExpr(ts, c + 1, Table(CONDOP).right) == Ok(no, j)
    ensures Climb(ts, k, bp, test) == Climb(ts, j, bp, Cond(test, yes, no))
  {
    CondLed(ts, k, test, yes, c, no, j);
    hide Led, ParseExpr;
  }

  lemma CondLed(ts: seq<Token>, k: nat, test: Expr, yes: Expr, c: nat, no: Expr, j: nat)
    requires At(ts, k, CONDOP)
    requires ParseExpr(ts, k + 1, 0) == Ok(yes, c) && At(ts, c, COLON)
    requires ParseExpr(ts, c + 1, Table(CONDOP).right) == Ok(no, j)
    ensures Led(ts, k, test) == Ok(Cond(test, yes, no), j)
  {
    hide ParseExpr;
  }

  lemma SubscriptStep(ts: seq<Token>, k: nat, bp: nat, base: Expr, index: Expr, j: nat)
    requires HasNext(ts, k) && ts[k] == Sym(LBRACKET) && Table(LBRACKET).left > bp
    requires ParseExpr(ts, k + 1, 0) == Ok(index, j) && At(ts, j, RBRACKET)
    ensures Climb(ts, k, bp, base) == Climb(ts, j + 1, bp, Subscript(base, index))
  {
  }

  lemma ApplyStep(ts: seq<Token>, k: nat, bp: nat, base: Expr, args: seq<Expr>, j: nat)
    requires HasNext(ts, k) && ts[k] == Sym(LPAREN) && Table(LPAREN).left > bp && At(ts, j, RPAREN)
    requires if args == [] then j == k + 1 else !At(ts, k + 1, RPAREN) && Args(ts, k + 1) == OkArgs(args, j)
    ensures Climb(ts, k, bp, base) == Climb(ts, j + 1, bp, Apply(base, args))
  {
  }

  lemma ArgsStep(ts: seq<Token>, i: nat, args: seq<Expr>, j: nat)
    requires args != [] && ParseExpr(ts, i, 0) == Ok(args[0], j)
    requires if |args| == 1 then !At(ts, j, COMMA)
             else At(ts, j, COMMA) && Args(ts, j + 1).OkArgs? && Args(ts, j + 1).args == args[1..]
    ensures Args(ts, i) == OkArgs(args, if |args| == 1 then j else Args(ts, j + 1).next)
  {
    assert args == [args[0]] + args[1..];
  }

  /** A loop entered where nothing binds returns at once. */
  lemma ParseStops(ts: seq<Token>, i: nat, bp: nat, e: Expr, j: nat)
    requires j <= |ts| && Stops(ts, j, bp) && ParseExpr(ts, i, bp) == Climb(ts, j, bp, e)
    ensures ParseExpr(ts, i, bp) == Ok(e, j)
  {
  }

  /** Parsing the tokens of a normal tree brings the parser's loop to their end with that tree. */
  lemma {:induction false} ParseReaches(e: Expr, ts: seq<Token>, i: nat, bp: nat)
    requires Normal(e) && LeftEdge(e) > bp && Holds(ts, i, Print(e))
    requires Stops(ts, i + |Print(e)|, RightEdge(e))
    ensures ParseExpr(ts, i, bp) == Climb(ts, i + |Print(e)|, bp, e)
    decreases e, 2
  {
    hide Holds, Table, ParseExpr, Climb, Led, Args, Stops;
    match e
    case Leaf(lit, text) =>
      HoldsOne(ts, i, Atom(lit, text));
      LeafStep(ts, i, bp, lit, text);
    case Prefix(op, x) =>
      HoldsJoin(ts, i, [Sym(op)], Print(x));
      HoldsOne(ts, i, Sym(op));
      var j := i + 1 + |Print(x)|;
      StopsBelow(ts, j, RightEdge(e), RightEdge(x));
      StopsBelow(ts, j, RightEdge(e), PREFIX_POWER);
      ParseReaches(x, ts, i + 1, PREFIX_POWER);
      HoldsFits(ts, i + 1, Print(x));
      ParseStops(ts, i + 1, PREFIX_POWER, x, j);
      PrefixStep(ts, i, bp, op, x, j);
    case Infix(_, _, _) => InfixReaches(e, ts, i, bp);
    case Cond(_, _, _) => CondReaches(e, ts, i, bp);
    case Subscript(_, _) => SubscriptReaches(e, ts, i, bp);
    case Apply(_, _) => ApplyReaches(e, ts, i, bp);
  }

  lemma {:induction false} InfixReaches(e: Expr, ts: seq<Token>, i: nat, bp: nat)
    requires e.Infix? && Normal(e) && LeftEdge(e) > bp && Holds(ts, i, Print(e))
    requires Stops(ts, i + |Print(e)|, RightEdge(e))
    ensures ParseExpr(ts, i, bp) == Climb(ts, i + |Print(e)|, bp, e)
    decreases e, 1
  {
    hide Holds, Table, ParseExpr, Climb, Led, Args, Stops;
    var Infix(op, l, r) := e;
    SplitInfix(ts, i, Print(l), Sym(op), Print(r));
    var k := i + |Print(l)|;
    var j := k + 1 + |Print(r)|;
    TableFacts(op);
    StopsAtOperator(ts, k, op, RightEdge(l));
    StopsBelow(ts, j, RightEdge(e), RightEdge(r));
    StopsBelow(ts, j, RightEdge(e), Table(op).right);
    ParseReaches(l, ts, i, bp);
    ParseReaches(r, ts, k + 1, Table(op).right);
    ParseStops(ts, k + 1, Table(op).right, r, j);
    InfixStep(ts, k, bp, op, l, r, j);
  }

  lemma {:induction false} CondReaches(e: Expr, ts: seq<Token>, i: nat, bp: nat)
    requires e.Cond? && Normal(e) && LeftEdge(e) > bp && Holds(ts, i, Print(e))
    requires Stops(ts, i + |Print(e)|, RightEdge(e))
    ensures ParseExpr(ts, i, bp) == Climb(ts, i + |Print(e)|, bp, e)
    decreases e, 1
  {
    hide Holds, Table, ParseExpr, Climb, Led, Args, Stops;
    var Cond(test, yes, no) := e;
    var tail := Print(yes) + [Sym(COLON)] + Print(no);
    assert Print(e) == Print(test) + [Sym(CONDOP)] + tail;
    SplitInfix(ts, i, Print(test), Sym(CONDOP), tail);
    var k := i + |Print(test)|;
    var c := k + 1 + |Print(yes)|;
    var j := c + 1 + |Print(no)|;
    TableFacts(CONDOP);
    StopsAtOperator(ts, k, CONDOP, RightEdge(test));
    ParseReaches(test, ts, i, bp);
    BranchesReach(e, ts, k);
    CondStep(ts, k, bp, test, yes, c, no, j);
  }

  lemma {:induction false} BranchesReach(e: Expr, ts: seq<Token>, k: nat)
    requires e.Cond? && Normal(e) && Holds(ts, k + 1, Print(e.yes) + [Sym(COLON)] + Print(e.no))
    requires Stops(ts, k + 1 + |Print(e.yes)| + 1 + |Print(e.no)|, RightEdge(e))
    ensures var c := k + 1 + |Print(e.yes)|;
            ParseExpr(ts, k + 1, 0) == Ok(e.yes, c) && At(ts, c, COLON) &&
            ParseExpr(ts, c + 1, Table(CONDOP).right) == Ok(e.no, c + 1 + |Print(e.no)|)
    decreases e, 0
  {
    hide Holds, Table, ParseExpr, Climb, Led, Args, Stops, Print;
    var yes, no := e.yes, e.no;
    SplitInfix(ts, k + 1, Print(yes), Sym(COLON), Print(no));
    var c := k + 1 + |Print(yes)|;
    var j := c + 1 + |Print(no)|;
    HoldsFits(ts, c + 1, Print(no));
    TableFacts(CONDOP);
    StopsAtOperator(ts, c, COLON, RightEdge(yes));
    StopsAtOperator(ts, c, COLON, 0);
    StopsBelow(ts, j, RightEdge(e), RightEdge(no));
    StopsBelow(ts, j, RightEdge(e), Table(CONDOP).right);
    EdgesPositive(yes);
    ParseReaches(yes, ts, k + 1, 0);
    ParseStops(ts, k + 1, 0, yes, c);
    ParseReaches(no, ts, c + 1, Table(CONDOP).right);
    ParseStops(ts, c + 1, Table(CONDOP).right, no, j);
  }

  lemma {:induction false} SubscriptReaches(e: Expr, ts: seq<Token>, i: nat, bp: nat)
    requires e.Subscript? && Normal(e) && LeftEdge(e) > bp && Holds(ts, i, Print(e))
    ensures ParseExpr(ts, i, bp) == Climb(ts, i + |Print(e)|, bp, e)
    decreases e, 1
  {
    hide Holds, Table, ParseExpr, Climb, Led, Args, Stops;
    var Subscript(base, index) := e;
    var tail := Print(index) + [Sym(RBRACKET)];
    assert Print(e) == Print(base) + [Sym(LBRACKET)] + tail;
    SplitInfix(ts, i, Print(base), Sym(LBRACKET), tail);
    var k := i + |Print(base)|;
    var j := k + 1 + |Print(index)|;
    HoldsJoin(ts, k + 1, Print(index), [Sym(RBRACKET)]);
    HoldsOne(ts, j, Sym(RBRACKET));
    TableFacts(LBRACKET);
    StopsAtOperator(ts, k, LBRACKET, RightEdge(base));
    StopsAtOperator(ts, j, RBRACKET, RightEdge(index));
    StopsAtOperator(ts, j, RBRACKET, 0);
    ParseReaches(base, ts, i, bp);
    EdgesPositive(index);
    ParseReaches(index, ts, k + 1, 0);
    ParseStops(ts, k + 1, 0, index, j);
    SubscriptStep(ts, k, bp, base, index, j);
  }

  lemma {:induction false} ApplyReaches(e: Expr, ts: seq<Token>, i: nat, bp: nat)
    requires e.Apply? && Normal(e) && LeftEdge(e) > bp && Holds(ts, i, Print(e))
    ensures ParseExpr(ts, i, bp) == Climb(ts, i + |Print(e)|, bp, e)
    decreases e, 1
  {
    hide Holds, Table, ParseExpr, Climb, Led, Args, Stops;
    var Apply(base, args) := e;
    var tail := PrintArgs(args) + [Sym(RPAREN)];
    assert Print(e) == Print(base) + [Sym(LPAREN)] + tail;
    SplitInfix(ts, i, Print(base), Sym(LPAREN), tail);
    var k := i + |Print(base)|;
    var j := k + 1 + |PrintArgs(args)|;
    HoldsJoin(ts, k + 1, PrintArgs(args), [Sym(RPAREN)]);
    HoldsOne(ts, j, Sym(RPAREN));
    TableFacts(LPAREN);
    StopsAtOperator(ts, k, LPAREN, RightEdge(base));
    ParseReaches(base, ts, i, bp);
    if args != [] {
      ArgsReach(args, ts, k + 1);
      ArgsStart(args, ts, k + 1);
    }
    ApplyStep(ts, k, bp, base, args, j);
  }

  lemma ArgsStart(args: seq<Expr>, ts: seq<Token>, i: nat)
    requires args != [] && Normal(args[0]) && Holds(ts, i, PrintArgs(args))
    ensures !At(ts, i, RPAREN)
  {
    NoCloserFirst(args[0]);
    assert PrintArgs(args) != [] && PrintArgs(args)[0] == Print(args[0])[0];
    assert ts[i] == ts[i..i + |PrintArgs(args)|][0];
  }

  lemma SplitInfix(ts: seq<Token>, i: nat, p: seq<Token>, t: Token, q: seq<Token>)
    requires Holds(ts, i, p + [t] + q)
    ensures Holds(ts, i, p) && i + |p| < |ts| && ts[i + |p|] == t && Holds(ts, i + |p| + 1, q)
  {
    HoldsJoin(ts, i, p + [t], q);
    HoldsJoin(ts, i, p, [t]);
    HoldsOne(ts, i + |p|, t);
  }

  /** No expression starts with a closing parenthesis. */
  lemma {:induction false} NoCloserFirst(e: Expr)
    requires Normal(e)
    ensures Print(e)[0] != Sym(RPAREN)
  {
    match e
    case Infix(_, l, _) => NoCloserFirst(l);
    case Cond(test, _, _) => NoCloserFirst(test);
    case Subscript(base, _) => NoCloserFirst(base);
    case Apply(base, _) => NoCloserFirst(base);
    case _ =>
  }

  lemma {:induction false} ArgsReach(args: seq<Expr>, ts: seq<Token>, i: nat)
    requires args != [] && (forall a <- args :: Normal(a)) && Holds(ts, i, PrintArgs(args))
    requires At(ts, i + |PrintArgs(args)|, RPAREN)
    ensures Args(ts, i) == OkArgs(args, i + |PrintArgs(args)|)
    decreases args, 0
  {
    hide Holds, Table, ParseExpr, Climb, Led, Args, Stops;
    var a := args[0];
    assert a in args;
    EdgesPositive(a);
    var j := i + |Print(a)|;
    var end := if |args| == 1 then RPAREN else COMMA;
    if |args| > 1 {
      SplitInfix(ts, i, Print(a), Sym(COMMA), PrintArgs(args[1..]));
    }
    StopsAtOperator(ts, j, end, RightEdge(a));
    StopsAtOperator(ts, j, end, 0);
    ParseReaches(a, ts, i, 0);
    ParseStops(ts, i, 0, a, j);
    if |args| > 1 {
      ArgsReach(args[1..], ts, j + 1);
    }
    ArgsStep(ts, i, args, j);
  }

  /** Parsing what a normal tree prints as returns the tree and consumes exactly those tokens,
      whatever follows, as long as it does not bind. */
  lemma PrintThenParse(e: Expr, ts: seq<Token>, i: nat, bp: nat)
    requires Normal(e) && LeftEdge(e) > bp && Holds(ts, i, Print(e))
    requires Stops(ts, i + |Print(e)|, Min(bp, RightEdge(e)))
    ensures ParseExpr(ts, i, bp) == Ok(e, i + |Print(e)|)
  {
    ParseReaches(e, ts, i, bp);
  }

  // ----- parsing, then printing -----

  /** What the parser accepted prints back as the tokens it consumed, is normal for the minimum power
      asked for, and was not cut short. */
  ghost predicate Faithful(ts: seq<Token>, i: nat, bp: int, e: Expr, next: nat) {
    && Normal(e) && LeftEdge(e) > bp
    && next == i + |Print(e)| && Holds(ts, i, Print(e))
    && Stops(ts, next, RightEdge(e))
  }

  lemma {:induction false} ParseIsFaithful(ts: seq<Token>, i: nat, bp: nat)
    requires ParseExpr(ts, i, bp).Ok? && bp <= 160
    ensures var p := ParseExpr(ts, i, bp); Faithful(ts, i, bp, p.e, p.next) && Stops(ts, p.next, bp)
    decreases |ts| - i, 2
  {
    var left := Nud(ts, i);
    NudIsFaithful(ts, i);
    ClimbIsFaithful(ts, i, left.next, bp, left.e);
  }

  lemma {:induction false} NudIsFaithful(ts: seq<Token>, i: nat)
    requires i < |ts| && Nud(ts, i).Ok?
    ensures var p := Nud(ts, i); Faithful(ts, i, 160, p.e, p.next)
    decreases |ts| - i, 1
  {
    HoldsOne(ts, i, ts[i]);
    if ts[i].Sym? {
      ParseIsFaithful(ts, i + 1, PREFIX_POWER);
      var x := ParseExpr(ts, i + 1, PREFIX_POWER).e;
      HoldsJoin(ts, i, [ts[i]], Print(x));
    }
  }

  lemma {:induction false} ClimbIsFaithful(ts: seq<Token>, i: nat, j: nat, bp: nat, left: Expr)
    requires j <= |ts| && Climb(ts, j, bp, left).Ok? && i < j
    requires Faithful(ts, i, bp, left, j)
    ensures var p := Climb(ts, j, bp, left); Faithful(ts, i, bp, p.e, p.next) && Stops(ts, p.next, bp)
    decreases |ts| - j, 2
  {
    if !Stops(ts, j, bp) {
      var more := Led(ts, j, left);
      LedIsFaithful(ts, i, j, bp, left);
      ClimbIsFaithful(ts, i, more.next, bp, more.e);
    }
  }

  lemma {:induction false} LedIsFaithful(ts: seq<Token>, i: nat, j: nat, bp: nat, left: Expr)
    requires j < |ts| && !Stops(ts, j, bp) && Led(ts, j, left).Ok?
    requires Faithful(ts, i, bp, left, j)
    ensures var p := Led(ts, j, left); Faithful(ts, i, bp, p.e, p.next)
    decreases |ts| - j, 1
  {
    hide Holds, Faithful;
    match Table(ts[j].kind).role
    case Call => CallIsFaithful(ts, i, j, bp, left);
    case Index => IndexIsFaithful(ts, i, j, bp, left);
    case BinaryLeft | Assign | Member => InfixIsFaithful(ts, i, j, bp, left);
    case Ternary => TernaryIsFaithful(ts, i, j, bp, left);
    case _ =>
  }

  /** The operator the loop goes on with is one `left` allows. */
  lemma GoesOn(ts: seq<Token>, i: nat, j: nat, bp: nat, left: Expr)
    requires Faithful(ts, i, bp, left, j) && j < |ts| && !Stops(ts, j, bp)
    ensures ts[j].Sym? && bp < Table(ts[j].kind).left <= RightEdge(left)
  {
  }

  lemma {:induction false} IndexIsFaithful(ts: seq<Token>, i: nat, j: nat, bp: nat, left: Expr)
    requires j < |ts| && ts[j] == Sym(LBRACKET) && !Stops(ts, j, bp) && Led(ts, j, left).Ok?
    requires Faithful(ts, i, bp, left, j)
    ensures var p := Led(ts, j, left); Faithful(ts, i, bp, p.e, p.next)
    decreases |ts| - j, 0
  {
    hide Holds, Stops, Faithful, ParseExpr;
    ParseIsFaithful(ts, j + 1, 0);
    var x := ParseExpr(ts, j + 1, 0);
    assert At(ts, x.next, RBRACKET) && Led(ts, j, left) == Ok(Subscript(left, x.e), x.next + 1);
    BracketIsFaithful(ts, i, j, bp, left, x.e, x.next);
  }

  lemma BracketIsFaithful(ts: seq<Token>, i: nat, j: nat, bp: nat, left: Expr, x: Expr, c: nat)
    requires j < |ts| && ts[j] == Sym(LBRACKET) && !Stops(ts, j, bp) && At(ts, c, RBRACKET)
    requires Faithful(ts, i, bp, left, j) && Faithful(ts, j + 1, 0, x, c)
    ensures Faithful(ts, i, bp, Subscript(left, x), c + 1)
  {
    hide Holds, Stops, Table;
    TableFacts(LBRACKET);
    GoesOn(ts, i, j, bp, left);
    HoldsOne(ts, c, Sym(RBRACKET));
    HoldsJoin(ts, j + 1, Print(x), [Sym(RBRACKET)]);
    var e, tail := Subscript(left, x), Print(x) + [Sym(RBRACKET)];
    assert Print(e) == Print(left) + [ts[j]] + tail;
    Closed(ts, c + 1, e);
    Extends(ts, i, j, bp, left, e, tail);
  }

  /** Nothing in the table binds more tightly than a closed tree allows. */
  lemma Closed(ts: seq<Token>, i: nat, e: Expr)
    requires RightEdge(e) == CLOSED
    ensures Stops(ts, i, RightEdge(e))
  {
  }

  lemma {:induction false} InfixIsFaithful(ts: seq<Token>, i: nat, j: nat, bp: nat, left: Expr)
    requires j < |ts| && ts[j].Sym? && IsInfix(ts[j].kind) && !Stops(ts, j, bp) && Led(ts, j, left).Ok?
    requires Faithful(ts, i, bp, left, j)
    ensures var p := Led(ts, j, left); Faithful(ts, i, bp, p.e, p.next)
    decreases |ts| - j, 0
  {
    hide Holds, Stops, Table;
    var k := ts[j].kind;
    TableFacts(k);
    GoesOn(ts, i, j, bp, left);
    ParseIsFaithful(ts, j + 1, Table(k).right);
    var r := ParseExpr(ts, j + 1, Table(k).right);
    assert Led(ts, j, left) == Ok(Infix(k, left, r.e), r.next);
    StopsAtBoth(ts, r.next, Table(k).right, RightEdge(r.e));
    Extends(ts, i, j, bp, left, Infix(k, left, r.e), Print(r.e));
  }

  lemma StopsAtBoth(ts: seq<Token>, i: nat, a: int, b: int)
    requires Stops(ts, i, a) && Stops(ts, i, b)
    ensures Stops(ts, i, Min(a, b))
  {
  }

  lemma {:induction false} CallIsFaithful(ts: seq<Token>, i: nat, j: nat, bp: nat, left: Expr)
    requires j < |ts| && ts[j] == Sym(LPAREN) && !Stops(ts, j, bp) && Led(ts, j, left).Ok?
    requires Faithful(ts, i, bp, left, j)
    ensures var p := Led(ts, j, left); Faithful(ts, i, bp, p.e, p.next)
    decreases |ts| - j, 0
  {
    hide Holds, Stops, Args, Faithful;
    if At(ts, j + 1, RPAREN) {
      EmptyCallIsFaithful(ts, i, j, bp, left);
    } else {
      ArgsAreFaithful(ts, j + 1);
      FullCallIsFaithful(ts, i, j, bp, left);
    }
  }

  lemma EmptyCallIsFaithful(ts: seq<Token>, i: nat, j: nat, bp: nat, left: Expr)
    requires j < |ts| && ts[j] == Sym(LPAREN) && !Stops(ts, j, bp) && At(ts, j + 1, RPAREN)
    requires Faithful(ts, i, bp, left, j)
    ensures Faithful(ts, i, bp, Apply(left, []), j + 2)
  {
    hide Holds, Stops, Table;
    TableFacts(LPAREN);
    GoesOn(ts, i, j, bp, left);
    var tail := PrintArgs([]) + [Sym(RPAREN)];
    assert tail == [Sym(RPAREN)];
    Closed(ts, j + 2, Apply(left, []));
    HoldsOne(ts, j + 1, Sym(RPAREN));
    assert Print(Apply(left, [])) == Print(left) + [ts[j]] + tail;
    Extends(ts, i, j, bp, left, Apply(left, []), tail);
  }

  lemma FullCallIsFaithful(ts: seq<Token>, i: nat, j: nat, bp: nat, left: Expr)
    requires j < |ts| && ts[j] == Sym(LPAREN) && !Stops(ts, j, bp)
    requires Args(ts, j + 1).OkArgs? && At(ts, Args(ts, j + 1).next, RPAREN)
    requires var a := Args(ts, j + 1);
             a.next == j + 1 + |PrintArgs(a.args)| && Holds(ts, j + 1, PrintArgs(a.args)) &&
             forall x <- a.args :: Normal(x)
    requires Faithful(ts, i, bp, left, j)
    ensures var a := Args(ts, j + 1); Faithful(ts, i, bp, Apply(left, a.args), a.next + 1)
  {
    hide Holds, Stops, Args, PrintArgs, Table;
    TableFacts(LPAREN);
    GoesOn(ts, i, j, bp, left);
    var a := Args(ts, j + 1);
    var e, tail := Apply(left, a.args), PrintArgs(a.args) + [Sym(RPAREN)];
    Closed(ts, a.next + 1, e);
    HoldsOne(ts, a.next, Sym(RPAREN));
    HoldsJoin(ts, j + 1, PrintArgs(a.args), [Sym(RPAREN)]);
    assert Print(e) == Print(left) + [ts[j]] + tail;
    Extends(ts, i, j, bp, left, e, tail);
  }

  lemma {:induction false} TernaryIsFaithful(ts: seq<Token>, i: nat, j: nat, bp: nat, left: Expr)
    requires j < |ts| && ts[j] == Sym(CONDOP) && !Stops(ts, j, bp) && Led(ts, j, left).Ok?
    requires Faithful(ts, i, bp, left, j)
    ensures var p := Led(ts, j, left); Faithful(ts, i, bp, p.e, p.next)
    decreases |ts| - j, 0
  {
    hide Holds, Stops, Table, Faithful, ParseExpr;
    TableFacts(CONDOP);
    ParseIsFaithful(ts, j + 1, 0);
    var yes := ParseExpr(ts, j + 1, 0);
    assert Table(ts[j].kind).role == Ternary;
    ParseIsFaithful(ts, yes.next + 1, Table(CONDOP).right);
    var no := ParseExpr(ts, yes.next + 1, Table(CONDOP).right);
    assert Led(ts, j, left) == Ok(Cond(left, yes.e, no.e), no.next);
    ChoiceIsFaithful(ts, i, j, bp, left, yes.e, yes.next, no.e, no.next);
  }

  lemma ChoiceIsFaithful(ts: seq<Token>, i: nat, j: nat, bp: nat, left: Expr, yes: Expr, c: nat, no: Expr, end: nat)
    requires j < |ts| && ts[j] == Sym(CONDOP) && !Stops(ts, j, bp) && At(ts, c, COLON)
    requires Faithful(ts, i, bp, left, j) && Faithful(ts, j + 1, 0, yes, c)
    requires Faithful(ts, c + 1, Table(CONDOP).right, no, end) && Stops(ts, end, Table(CONDOP).right)
    ensures Faithful(ts, i, bp, Cond(left, yes, no), end)
  {
    hide Holds, Stops, Table;
    TableFacts(CONDOP);
    GoesOn(ts, i, j, bp, left);
    StopsAtBoth(ts, end, Table(CONDOP).right, RightEdge(no));
    JoinInfix(ts, j + 1, Print(yes), Sym(COLON), Print(no));
    var tail := Print(yes) + [Sym(COLON)] + Print(no);
    assert Print(Cond(left, yes, no)) == Print(left) + [ts[j]] + tail;
    Extends(ts, i, j, bp, left, Cond(left, yes, no), tail);
  }

  /** `left`, an operator it allows, and a tail make a faithful larger tree. */
  lemma Extends(ts: seq<Token>, i: nat, j: nat, bp: nat, left: Expr, e: Expr, tail: seq<Token>)
    requires Faithful(ts, i, bp, left, j) && j < |ts| && !Stops(ts, j, bp)
    requires Holds(ts, j + 1, tail) && Stops(ts, j + 1 + |tail|, RightEdge(e))
    requires Normal(e) && LeftEdge(e) == Min(Table(ts[j].kind).left, LeftEdge(left))
    requires Print(e) == Print(left) + [ts[j]] + tail
    ensures Faithful(ts, i, bp, e, j + 1 + |tail|)
  {
    hide Holds, Table, Normal, Stops, Print, LeftEdge, RightEdge;
    GoesOn(ts, i, j, bp, left);
    JoinInfix(ts, i, Print(left), ts[j], tail);
  }

  lemma JoinInfix(ts: seq<Token>, i: nat, p: seq<Token>, t: Token, q: seq<Token>)
    requires Holds(ts, i, p) && i + |p| < |ts| && ts[i + |p|] == t && Holds(ts, i + |p| + 1, q)
    ensures Holds(ts, i, p + [t] + q)
  {
    HoldsOne(ts, i + |p|, t);
    HoldsJoin(ts, i, p, [t]);
    HoldsJoin(ts, i, p + [t], q);
  }

  lemma PrintArgsOne(a: Expr)
    ensures PrintArgs([a]) == Print(a)
  {
  }

  lemma PrintArgsCons(a: Expr, more: seq<Expr>)
    requires more != []
    ensures PrintArgs([a] + more) == Print(a) + [Sym(COMMA)] + PrintArgs(more)
  {
    assert ([a] + more)[1..] == more;
  }

  lemma {:induction false} ArgsAreFaithful(ts: seq<Token>, i: nat)
    requires Args(ts, i).OkArgs?
    ensures var p := Args(ts, i);
            p.next == i + |PrintArgs(p.args)| && Holds(ts, i, PrintArgs(p.args)) && forall a <- p.args :: Normal(a)
    decreases |ts| - i, 3
  {
    hide Holds, Stops, Table, Print, PrintArgs;
    ParseIsFaithful(ts, i, 0);
    var a := ParseExpr(ts, i, 0);
    PrintArgsOne(a.e);
    if At(ts, a.next, COMMA) {
      ArgsAreFaithful(ts, a.next + 1);
      var more := Args(ts, a.next + 1);
      PrintArgsCons(a.e, more.args);
      JoinInfix(ts, i, Print(a.e), Sym(COMMA), PrintArgs(more.args));
    }
  }

  // ----- both together -----

  /** Exactly the printed normal trees are accepted, and each token sequence by one tree only. */
  lemma AcceptedIffNormal(ts: seq<Token>, e: Expr)
    ensures ParseExpr(ts, 0, 0) == Ok(e, |ts|) <==> Normal(e) && Print(e) == ts
  {
    hide ParseExpr, Normal, Print;
    if ParseExpr(ts, 0, 0) == Ok(e, |ts|) {
      ParseIsFaithful(ts, 0, 0);
      assert ts[0..|ts|] == ts;
    }
    if Normal(e) && Print(e) == ts {
      EdgesPositive(e);
      assert ts[0..|ts|] == ts;
      PrintThenParse(e, ts, 0, 0);
    }
  }

  /** Two normal trees that print alike are the same tree. */
  lemma PrintIsInjective(a: Expr, b: Expr)
    requires Normal(a) && Normal(b) && Print(a) == Print(b)
    ensures a == b
  {
    AcceptedIffNormal(Print(a), a);
    AcceptedIffNormal(Print(b), b);
  }

  /** Whatever the parser accepts from the front of a token sequence prints as that front, and the
      loop stopped there because nothing that follows binds. */
  lemma ParseThenPrint(ts: seq<Token>, e: Expr, next: nat)
    requires ParseExpr(ts, 0, 0) == Ok(e, next)
    ensures next <= |ts| && ts[..next] == Print(e) && Normal(e) && Stops(ts, next, 0)
  {
    ParseIsFaithful(ts, 0, 0);
    assert ts[0..next] == ts[..next];
  }
}
