/**
  How operators group, written out without the table of binding powers: the classes of binary
  operators from `*` down to `||`, the conditional and the assignments below them, prefix operators
  above them and postfix operators above those.  Exactly the trees grouped this way are parsed.
 */
module PrattGrouping {
  import opened Pratt
  import opened PrattProof

  const POSTFIX := 14
  const UNARY := 13
  const CHOICE := 2

  /** The class of a binary operator, the tightest 12; 0 for what is no binary operator. */
  function Class(k: Kind): int {
    match k
    case TIMES | DIVIDE | MOD => 12
    case PLUS | MINUS => 11
    case LSHIFT | RSHIFT => 10
    case LT | LE | GT | GE => 9
    case EQ | NE => 8
    case AND | AMP => 7
    case XOR => 6
    case PIPE => 5
    case LAND => 4
    case OR | LOR => 3
    case _ => 0
  }

  predicate IsAssign(k: Kind) {
    k in {EQUALS, PLUSEQUAL, MINUSEQUAL, TIMESEQUAL, DIVEQUAL, MODEQUAL, LSHIFTEQUAL, RSHIFTEQUAL, ANDEQUAL,
          XOREQUAL, OREQUAL}
  }

  predicate IsMember(k: Kind) {
    k in {PERIOD, ARROW}
  }

  /** How tightly the outermost operator of a tree binds. */
  function Rank(e: Expr): int {
    match e
    case Leaf(_, _) => POSTFIX
    case Subscript(_, _) => POSTFIX
    case Apply(_, _) => POSTFIX
    case Prefix(_, _) => UNARY
    case Infix(op, _, _) => if IsMember(op) then POSTFIX else Class(op)
    case Cond(_, _, _) => CHOICE
  }

  /** The same of what an operator to the right of the tree meets: after `a.` it may be a prefix operator. */
  function OpenRank(e: Expr): int {
    if e.Infix? && IsMember(e.op) && e.r.Prefix? then UNARY else Rank(e)
  }

  /** Every operator binds its operands as the classes demand. */
  predicate Grouped(e: Expr) {
    match e
    case Leaf(_, _) => true
    case Prefix(op, x) => IsPrefix(op) && Grouped(x) && Rank(x) >= UNARY
    case Infix(op, l, r) =>
      Grouped(l) && Grouped(r) &&
      if IsMember(op) then OpenRank(l) == POSTFIX && (r.Leaf? || r.Prefix?)
      else if IsAssign(op) then OpenRank(l) >= CHOICE
      else Class(op) > 0 && OpenRank(l) >= Class(op) && Rank(r) > Class(op)
    case Cond(test, yes, no) =>
      Grouped(test) && Grouped(yes) && Grouped(no) && OpenRank(test) > CHOICE && Rank(no) >= CHOICE
    case Subscript(base, index) => Grouped(base) && Grouped(index) && OpenRank(base) == POSTFIX
    case Apply(base, args) => Grouped(base) && OpenRank(base) == POSTFIX && forall a <- args :: Grouped(a)
  }

  // ----- the table says the same -----

  lemma InfixPowers(k: Kind)
    ensures IsInfix(k) <==> Class(k) > 0 || IsAssign(k) || IsMember(k)
    ensures Class(k) > 0 ==> Table(k).left == Table(k).right == 10 * Class(k) && !IsAssign(k) && !IsMember(k)
    ensures IsAssign(k) ==> Table(k).left == 10 && Table(k).right == 9 && Class(k) == 0 && !IsMember(k)
    ensures IsMember(k) ==> Table(k).left == Table(k).right == 160
    ensures Class(k) == 0 || 3 <= Class(k) <= 12
  {
  }

  /** The edges of a normal tree are the powers of its outermost operator. */
  function LeftPower(e: Expr): int {
    if e.Leaf? || e.Prefix? then CLOSED
    else if Rank(e) == POSTFIX then 160
    else if Rank(e) == 0 then 10
    else 10 * Rank(e)
  }

  function RightPower(e: Expr): int {
    if e.Prefix? || OpenRank(e) == UNARY then 130
    else if Rank(e) == POSTFIX then (if e.Infix? then 160 else CLOSED)
    else if Rank(e) == 0 then 9
    else if Rank(e) == CHOICE then 19
    else 10 * Rank(e)
  }

  lemma {:induction false} NormalIffGrouped(e: Expr)
    ensures Normal(e) <==> Grouped(e)
    ensures Normal(e) ==> LeftEdge(e) == LeftPower(e) && RightEdge(e) == RightPower(e)
  {
    hide Table, IsInfix, Class, IsAssign, IsMember;
    TablePowers();
    match e
    case Leaf(_, _) =>
    case Prefix(_, x) => NormalIffGrouped(x); Ranks(x);
    case Infix(op, l, r) =>
      NormalIffGrouped(l);
      NormalIffGrouped(r);
      InfixEdges(op, l, r);
    case Cond(test, yes, no) =>
      NormalIffGrouped(test);
      NormalIffGrouped(yes);
      NormalIffGrouped(no);
      Ranks(test);
      Ranks(no);
    case Subscript(base, index) =>
      NormalIffGrouped(base);
      NormalIffGrouped(index);
      Ranks(base);
    case Apply(base, args) =>
      NormalIffGrouped(base);
      Ranks(base);
      forall a | a in args ensures Normal(a) <==> Grouped(a) {
        NormalIffGrouped(a);
      }
  }

  lemma InfixEdges(op: Kind, l: Expr, r: Expr)
    requires Normal(l) <==> Grouped(l)
    requires Normal(l) ==> LeftEdge(l) == LeftPower(l) && RightEdge(l) == RightPower(l)
    requires Normal(r) <==> Grouped(r)
    requires Normal(r) ==> LeftEdge(r) == LeftPower(r) && RightEdge(r) == RightPower(r)
    ensures var e := Infix(op, l, r); Normal(e) <==> Grouped(e)
    ensures var e := Infix(op, l, r); Normal(e) ==> LeftEdge(e) == LeftPower(e) && RightEdge(e) == RightPower(e)
  {
    hide Table, IsInfix, Class, IsAssign, IsMember;
    var e := Infix(op, l, r);
    InfixPowers(op);
    Ranks(l);
    Ranks(r);
    if !Normal(l) || !Normal(r) {
      assert !Normal(e) && !Grouped(e);
    } else if IsMember(op) {
      assert LeftPower(r) > 160 <==> r.Leaf? || r.Prefix?;
      assert RightPower(l) >= 160 <==> OpenRank(l) == POSTFIX;
    } else if IsAssign(op) {
      assert RightPower(l) >= 10 <==> OpenRank(l) >= CHOICE;
    } else if Class(op) > 0 {
      assert LeftPower(r) > 10 * Class(op) <==> Rank(r) > Class(op);
      assert RightPower(l) >= 10 * Class(op) <==> OpenRank(l) >= Class(op);
    }
  }

  lemma TablePowers()
    ensures Table(CONDOP).left == 20 && Table(CONDOP).right == 19
    ensures Table(LPAREN).left == 160 && Table(LBRACKET).left == 160
  {
  }

  lemma Ranks(e: Expr)
    ensures Rank(e) in {0, POSTFIX, UNARY, CHOICE} || (e.Infix? && Rank(e) == Class(e.op) && 3 <= Rank(e) <= 12)
    ensures Rank(e) == 0 ==> e.Infix?
    ensures Rank(e) == UNARY <==> e.Prefix?
    ensures Rank(e) == CHOICE <==> e.Cond?
  {
  }

  /** Exactly the printed grouped trees are accepted, and each token sequence by one tree only. */
  lemma AcceptedIffGrouped(ts: seq<Token>, e: Expr)
    ensures ParseExpr(ts, 0, 0) == Ok(e, |ts|) <==> Grouped(e) && Print(e) == ts
  {
    NormalIffGrouped(e);
    AcceptedIffNormal(ts, e);
  }

  // ----- what that means for neighbouring operators -----

  /** An operand without binary operators: postfix operators, and prefix operators before them. */
  predicate Operand(e: Expr) {
    Grouped(e) && Rank(e) >= UNARY
  }

  /** An operand without prefix operators in front. */
  predicate Primary(e: Expr) {
    Grouped(e) && OpenRank(e) == POSTFIX
  }

  /** The whole of `ts` is read as `e`. */
  ghost predicate Reads(ts: seq<Token>, e: Expr) {
    ParseExpr(ts, 0, 0) == Ok(e, |ts|)
  }

  /** The tokens of two operands around an operator, and those of a conditional. */
  function Chain(l: seq<Token>, j: Kind, r: seq<Token>): seq<Token> {
    l + [Sym(j)] + r
  }

  function Choice(test: seq<Token>, yes: seq<Token>, no: seq<Token>): seq<Token> {
    Chain(test, CONDOP, Chain(yes, COLON, no))
  }

  lemma ChainsAssociate(a: seq<Token>, j: Kind, b: seq<Token>, k: Kind, c: seq<Token>)
    ensures Chain(Chain(a, j, b), k, c) == Chain(a, j, Chain(b, k, c))
  {
    assert a + [Sym(j)] + b + [Sym(k)] + c == a + [Sym(j)] + (b + [Sym(k)] + c);
  }

  lemma InfixPrints(k: Kind, a: Expr, b: Expr)
    ensures Print(Infix(k, a, b)) == Chain(Print(a), k, Print(b))
  {
  }

  lemma ChoicePrints(a: Expr, b: Expr, c: Expr)
    ensures Print(Cond(a, b, c)) == Choice(Print(a), Print(b), Print(c))
  {
    var x, y, z := Print(a), Print(b), Print(c);
    assert x + [Sym(CONDOP)] + y + [Sym(COLON)] + z == x + [Sym(CONDOP)] + (y + [Sym(COLON)] + z);
  }

  lemma InfixGroups(k: Kind, a: Expr, b: Expr)
    requires Grouped(a) && Grouped(b) && (Class(k) > 0 || IsAssign(k))
    requires OpenRank(a) >= if IsAssign(k) then CHOICE else Class(k)
    requires IsAssign(k) || Rank(b) > Class(k)
    ensures var e := Infix(k, a, b); Grouped(e) && Rank(e) == OpenRank(e) == Class(k)
  {
    InfixPowers(k);
  }

  lemma OperandRanks(e: Expr)
    requires Operand(e)
    ensures OpenRank(e) >= UNARY
  {
  }

  /** `a j b k c`: the operator of the tighter class takes `b`; of equal classes the left one does. */
  lemma BinariesGroup(j: Kind, k: Kind, a: Expr, b: Expr, c: Expr)
    requires Class(j) > 0 && Class(k) > 0 && Operand(a) && Operand(b) && Operand(c)
    ensures Reads(Chain(Chain(Print(a), j, Print(b)), k, Print(c)),
                  if Class(j) >= Class(k) then Infix(k, Infix(j, a, b), c) else Infix(j, a, Infix(k, b, c)))
  {
    if Class(j) >= Class(k) {
      LeftFirst(j, k, a, b, c);
    } else {
      RightFirst(j, k, a, b, c);
    }
  }

  lemma LeftFirst(j: Kind, k: Kind, a: Expr, b: Expr, c: Expr)
    requires Operand(a) && Operand(b) && Operand(c)
    requires Class(j) > 0 && (IsAssign(k) || 0 < Class(k) <= Class(j))
    ensures Reads(Chain(Chain(Print(a), j, Print(b)), k, Print(c)), Infix(k, Infix(j, a, b), c))
  {
    hide Print, Chain, Rank, OpenRank, Class, ParseExpr;
    InfixPowers(j);
    InfixPowers(k);
    OperandRanks(a);
    InfixGroups(j, a, b);
    InfixGroups(k, Infix(j, a, b), c);
    InfixPrints(j, a, b);
    InfixPrints(k, Infix(j, a, b), c);
    AcceptedIffGrouped(Print(Infix(k, Infix(j, a, b), c)), Infix(k, Infix(j, a, b), c));
  }

  lemma RightFirst(j: Kind, k: Kind, a: Expr, b: Expr, c: Expr)
    requires Operand(a) && Operand(b) && Operand(c) && (Class(k) > 0 || IsAssign(k))
    requires IsAssign(j) || 0 < Class(j) < Class(k)
    ensures Reads(Chain(Chain(Print(a), j, Print(b)), k, Print(c)), Infix(j, a, Infix(k, b, c)))
  {
    hide Print, Chain, Rank, OpenRank, Class, ParseExpr;
    InfixPowers(j);
    InfixPowers(k);
    OperandRanks(a);
    OperandRanks(b);
    InfixGroups(k, b, c);
    InfixGroups(j, a, Infix(k, b, c));
    InfixPrints(k, b, c);
    InfixPrints(j, a, Infix(k, b, c));
    ChainsAssociate(Print(a), j, Print(b), k, Print(c));
    AcceptedIffGrouped(Print(Infix(j, a, Infix(k, b, c))), Infix(j, a, Infix(k, b, c)));
  }

  /** Assignments group to the right and bind less tightly than every binary operator. */
  lemma AssignmentsGroup(j: Kind, k: Kind, a: Expr, b: Expr, c: Expr)
    requires Operand(a) && Operand(b) && Operand(c) && IsAssign(j) && (IsAssign(k) || Class(k) > 0)
    ensures Reads(Chain(Chain(Print(a), j, Print(b)), k, Print(c)), Infix(j, a, Infix(k, b, c)))
    ensures Class(k) > 0 ==> Reads(Chain(Chain(Print(a), k, Print(b)), j, Print(c)), Infix(j, Infix(k, a, b), c))
  {
    hide Print, Chain, Grouped, ParseExpr;
    RightFirst(j, k, a, b, c);
    if Class(k) > 0 {
      LeftFirst(k, j, a, b, c);
    }
  }

  /** The conditional groups to the right; between `?` and `:` any expression stands. */
  lemma ConditionalsGroup(a: Expr, b: Expr, c: Expr, d: Expr, e: Expr)
    requires Operand(a) && Grouped(b) && Operand(c) && Grouped(d) && Operand(e)
    ensures Reads(Choice(Print(a), Print(b), Choice(Print(c), Print(d), Print(e))), Cond(a, b, Cond(c, d, e)))
  {
    hide Print, Choice, ParseExpr;
    OperandRanks(a);
    OperandRanks(c);
    ChoicePrints(c, d, e);
    ChoicePrints(a, b, Cond(c, d, e));
    AcceptedIffGrouped(Print(Cond(a, b, Cond(c, d, e))), Cond(a, b, Cond(c, d, e)));
  }

  /** A binary operator before `?` belongs to the condition, an assignment operator takes the whole conditional. */
  lemma BeforeConditional(k: Kind, a: Expr, b: Expr, c: Expr, d: Expr)
    requires Operand(a) && Operand(b) && Grouped(c) && Operand(d) && (Class(k) > 0 || IsAssign(k))
    ensures Reads(Chain(Print(a), k, Choice(Print(b), Print(c), Print(d))),
                  if IsAssign(k) then Infix(k, a, Cond(b, c, d)) else Cond(Infix(k, a, b), c, d))
  {
    hide Print, Chain, Class, IsAssign, ParseExpr;
    InfixPowers(k);
    OperandRanks(a);
    OperandRanks(b);
    if IsAssign(k) {
      ChoicePrints(b, c, d);
      InfixPrints(k, a, Cond(b, c, d));
      InfixGroups(k, a, Cond(b, c, d));
      AcceptedIffGrouped(Print(Infix(k, a, Cond(b, c, d))), Infix(k, a, Cond(b, c, d)));
    } else {
      InfixGroups(k, a, b);
      InfixPrints(k, a, b);
      ChoicePrints(Infix(k, a, b), c, d);
      ChainsAssociate(Print(a), k, Print(b), CONDOP, Chain(Print(c), COLON, Print(d)));
      AcceptedIffGrouped(Print(Cond(Infix(k, a, b), c, d)), Cond(Infix(k, a, b), c, d));
    }
  }

  /** After `:` a binary operator belongs to the second branch; an assignment operator assigns to the conditional. */
  lemma AfterConditional(k: Kind, a: Expr, b: Expr, c: Expr, d: Expr)
    requires Operand(a) && Grouped(b) && Operand(c) && Operand(d) && (Class(k) > 0 || IsAssign(k))
    ensures Reads(Chain(Choice(Print(a), Print(b), Print(c)), k, Print(d)),
                  if IsAssign(k) then Infix(k, Cond(a, b, c), d) else Cond(a, b, Infix(k, c, d)))
  {
    hide Print, Chain, Class, IsAssign, ParseExpr;
    InfixPowers(k);
    OperandRanks(a);
    OperandRanks(c);
    if IsAssign(k) {
      ChoicePrints(a, b, c);
      InfixPrints(k, Cond(a, b, c), d);
      InfixGroups(k, Cond(a, b, c), d);
      AcceptedIffGrouped(Print(Infix(k, Cond(a, b, c), d)), Infix(k, Cond(a, b, c), d));
    } else {
      InfixGroups(k, c, d);
      InfixPrints(k, c, d);
      ChoicePrints(a, b, Infix(k, c, d));
      ChainsAssociate(Print(b), COLON, Print(c), k, Print(d));
      ChainsAssociate(Print(a), CONDOP, Chain(Print(b), COLON, Print(c)), k, Print(d));
      AcceptedIffGrouped(Print(Cond(a, b, Infix(k, c, d))), Cond(a, b, Infix(k, c, d)));
    }
  }

  /** Prefix operators bind more tightly than binary ones, on either side. */
  lemma PrefixBindsTighter(op: Kind, k: Kind, a: Expr, b: Expr)
    requires IsPrefix(op) && Class(k) > 0 && Operand(a) && Operand(b)
    ensures Reads(Chain([Sym(op)] + Print(a), k, Print(b)), Infix(k, Prefix(op, a), b))
    ensures Reads(Chain(Print(a), k, [Sym(op)] + Print(b)), Infix(k, a, Prefix(op, b)))
  {
    hide Chain, Class, ParseExpr;
    InfixPowers(k);
    OperandRanks(a);
    var l, r := Prefix(op, a), Prefix(op, b);
    InfixGroups(k, l, b);
    InfixGroups(k, a, r);
    InfixPrints(k, l, b);
    InfixPrints(k, a, r);
    AcceptedIffGrouped(Print(Infix(k, l, b)), Infix(k, l, b));
    AcceptedIffGrouped(Print(Infix(k, a, r)), Infix(k, a, r));
  }

  lemma PrefixReads(op: Kind, a: Expr)
    requires IsPrefix(op) && Operand(a)
    ensures Reads([Sym(op)] + Print(a), Prefix(op, a))
  {
    AcceptedIffGrouped([Sym(op)] + Print(a), Prefix(op, a));
  }

  lemma PostfixGroups(m: Kind, a: Expr, x: Expr, name: Expr)
    requires IsMember(m) && Primary(a) && Grouped(x) && name.Leaf?
    ensures Primary(Subscript(a, x)) && Primary(Apply(a, [x])) && Primary(Infix(m, a, name))
  {
  }

  /** Postfix operators bind more tightly than prefix ones; in brackets and parentheses any expression stands. */
  lemma PostfixBindsTightest(op: Kind, m: Kind, a: Expr, x: Expr, name: Expr)
    requires IsPrefix(op) && IsMember(m) && Primary(a) && Grouped(x) && name.Leaf?
    ensures Reads([Sym(op)] + (Print(a) + [Sym(LBRACKET)] + Print(x) + [Sym(RBRACKET)]), Prefix(op, Subscript(a, x)))
    ensures Reads([Sym(op)] + (Print(a) + [Sym(LPAREN)] + Print(x) + [Sym(RPAREN)]), Prefix(op, Apply(a, [x])))
    ensures Reads([Sym(op)] + Chain(Print(a), m, Print(name)), Prefix(op, Infix(m, a, name)))
  {
    hide Chain, ParseExpr, Grouped;
    PrintArgsOne(x);
    PostfixGroups(m, a, x, name);
    PrefixReads(op, Subscript(a, x));
    PrefixReads(op, Apply(a, [x]));
    InfixPrints(m, a, name);
    PrefixReads(op, Infix(m, a, name));
  }
}
