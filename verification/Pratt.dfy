/**
  The expression parser: a cursor over tokens driven by a table of binding powers.  The functions
  give the tree and the cursor it stops at; class CParser computes them with a cursor field.
  Grouping parentheses, casts, tuples, `case` and initialisers are not part of this model: a token
  that would start one is an unhandled prefix here.
 */
module Pratt {

  datatype Kind =
    | LPAREN | RPAREN | LBRACKET | RBRACKET | PERIOD | ARROW | PLUSPLUS | MINUSMINUS | COMMA
    | TIMES | DIVIDE | MOD | PLUS | MINUS | LSHIFT | RSHIFT | LT | LE | GT | GE | EQ | NE
    | AND | AMP | XOR | PIPE | LAND | OR | LOR | CONDOP | COLON
    | EQUALS | PLUSEQUAL | MINUSEQUAL | TIMESEQUAL | DIVEQUAL | MODEQUAL | LSHIFTEQUAL | RSHIFTEQUAL
    | ANDEQUAL | XOREQUAL | OREQUAL | CASE
    | LNOT | TILDE | INCREMENT | DECREMENT | SIZEOF | SEMI | LBRACE | RBRACE

  datatype Literal = ID | INT_CONST | FLOAT_CONST | STRING_LITERAL | CHAR_CONST
  datatype Token = Atom(lit: Literal, text: string) | Sym(kind: Kind)

  datatype Role =
    | Call | Index | Member | Inc | Dec | Comma | BinaryLeft | Ternary | TernaryColon | Assign | CaseMark | Nothing
  datatype Power = Power(left: int, right: int, role: Role)

  /** The binding powers. */
  function Table(k: Kind): Power {
    match k
    case LPAREN => Power(160, 159, Call)
    case LBRACKET => Power(160, 159, Index)
    case PERIOD | ARROW => Power(160, 160, Member)
    case PLUSPLUS => Power(160, 0, Inc)
    case MINUSMINUS => Power(160, 0, Dec)
    case COMMA => Power(130, 0, Comma)
    case TIMES | DIVIDE | MOD => Power(120, 120, BinaryLeft)
    case PLUS | MINUS => Power(110, 110, BinaryLeft)
    case LSHIFT | RSHIFT => Power(100, 100, BinaryLeft)
    case LT | LE | GT | GE => Power(90, 90, BinaryLeft)
    case EQ | NE => Power(80, 80, BinaryLeft)
    case AND | AMP => Power(70, 70, BinaryLeft)
    case XOR => Power(60, 60, BinaryLeft)
    case PIPE => Power(50, 50, BinaryLeft)
    case LAND => Power(40, 40, BinaryLeft)
    case OR | LOR => Power(30, 30, BinaryLeft)
    case CONDOP => Power(20, 19, Ternary)
    case COLON => Power(19, 0, TernaryColon)
    case EQUALS | PLUSEQUAL | MINUSEQUAL | TIMESEQUAL | DIVEQUAL | MODEQUAL | LSHIFTEQUAL | RSHIFTEQUAL
      | ANDEQUAL | XOREQUAL | OREQUAL => Power(10, 9, Assign)
    case CASE => Power(0, -1, CaseMark)
    case _ => Power(-1, -1, Nothing)
  }

  const PREFIX_POWER := 130

  predicate IsPrefix(k: Kind) {
    k in {PLUS, MINUS, LNOT, TILDE, TIMES, INCREMENT, DECREMENT, SIZEOF, AND}
  }

  /** Operators with one operand on each side: binary, assignment and member access. */
  predicate IsInfix(k: Kind) {
    Table(k).role in {BinaryLeft, Assign, Member}
  }

  datatype Expr =
    | Leaf(lit: Literal, text: string)
    | Prefix(op: Kind, e: Expr)
    | Infix(op: Kind, l: Expr, r: Expr)
    | Cond(test: Expr, yes: Expr, no: Expr)
    | Subscript(base: Expr, index: Expr)
    | Apply(base: Expr, args: seq<Expr>)

  datatype Error = OutOfTokens | Mismatch | Unhandled
  datatype Parsed = Ok(e: Expr, next: nat) | Err(error: Error)
  datatype ParsedArgs = OkArgs(args: seq<Expr>, next: nat) | ErrArgs(error: Error)

  /** The source's `has_next`: at least two tokens are left. */
  predicate HasNext(ts: seq<Token>, i: nat) {
    i + 1 < |ts|
  }

  predicate At(ts: seq<Token>, i: nat, k: Kind) {
    i < |ts| && ts[i] == Sym(k)
  }

  function ParseExpr(ts: seq<Token>, i: nat, bp: nat): (p: Parsed)
    ensures p.Ok? ==> i < p.next <= |ts|
    decreases |ts| - i, 2
  {
    if i >= |ts| then Err(OutOfTokens) else
    var left := Nud(ts, i);
    if left.Err? then left else Climb(ts, left.next, bp, left.e)
  }

  /** The expression a token starts on its own. */
  function Nud(ts: seq<Token>, i: nat): (p: Parsed)
    requires i < |ts|
    ensures p.Ok? ==> i < p.next <= |ts|
    decreases |ts| - i, 1
  {
    match ts[i]
    case Atom(lit, text) => Ok(Leaf(lit, text), i + 1)
    case Sym(k) =>
      if IsPrefix(k) || k == AMP then
        var right := ParseExpr(ts, i + 1, PREFIX_POWER);
        if right.Err? then right
        else if k == AMP then Err(Unhandled)
        else Ok(Prefix(k, right.e), right.next)
      else Err(Unhandled)
  }

  /** The loop of the source stops before token `i`. */
  predicate Stops(ts: seq<Token>, i: nat, bp: int) {
    !HasNext(ts, i) || ts[i].Atom? ||
    var p := Table(ts[i].kind);
    p.role in {Comma, TernaryColon, Nothing} || p.left <= bp
  }

  function Climb(ts: seq<Token>, i: nat, bp: nat, left: Expr): (p: Parsed)
    requires i <= |ts|
    ensures p.Ok? ==> i <= p.next <= |ts|
    decreases |ts| - i, 1
  {
    if Stops(ts, i, bp) then Ok(left, i) else
    var more := Led(ts, i, left);
    if more.Err? then more else Climb(ts, more.next, bp, more.e)
  }

  /** Extends `left` with the operator at `i`. */
  function Led(ts: seq<Token>, i: nat, left: Expr): (p: Parsed)
    requires i < |ts| && ts[i].Sym?
    ensures p.Ok? ==> i < p.next <= |ts|
    decreases |ts| - i, 0
  {
    var k := ts[i].kind;
    match Table(k).role
    case Call =>
      if At(ts, i + 1, RPAREN) then Ok(Apply(left, []), i + 2) else
      var a := Args(ts, i + 1);
      if a.ErrArgs? then Err(a.error)
      else if At(ts, a.next, RPAREN) then Ok(Apply(left, a.args), a.next + 1) else Err(Mismatch)
    case Index =>
      var x := ParseExpr(ts, i + 1, 0);
      if x.Err? then x
      else if At(ts, x.next, RBRACKET) then Ok(Subscript(left, x.e), x.next + 1) else Err(Mismatch)
    case BinaryLeft | Assign | Member =>
      var right := ParseExpr(ts, i + 1, Table(k).right);
      if right.Err? then right else Ok(Infix(k, left, right.e), right.next)
    case Ternary =>
      var yes := ParseExpr(ts, i + 1, 0);
      if yes.Err? then yes
      else if !At(ts, yes.next, COLON) then Err(Mismatch) else
      var no := ParseExpr(ts, yes.next + 1, Table(k).right);
      if no.Err? then no else Ok(Cond(left, yes.e, no.e), no.next)
    case _ => Err(Unhandled)
  }

  function Args(ts: seq<Token>, i: nat): (p: ParsedArgs)
    ensures p.OkArgs? ==> i < p.next <= |ts| && p.args != []
    decreases |ts| - i, 3
  {
    var a := ParseExpr(ts, i, 0);
    if a.Err? then ErrArgs(a.error)
    else if !At(ts, a.next, COMMA) then OkArgs([a.e], a.next) else
    var more := Args(ts, a.next + 1);
    if more.ErrArgs? then more else OkArgs([a.e] + more.args, more.next)
  }

  // ----- the parser with its cursor -----

  datatype Result = Success(e: Expr) | Failure(error: Error)

  class CParser {
    const tokens: seq<Token>
    var i: nat

    constructor (tokens: seq<Token>)
      ensures this.tokens == tokens && i == 0
    {
      this.tokens, i := tokens, 0;
    }

    ghost predicate Agrees(p: Parsed, r: Result)
      reads this
    {
      match p
      case Ok(e, next) => r == Success(e) && i == next
      case Err(error) => r == Failure(error)
    }

    method ParseExpression(bp: nat) returns (r: Result)
      modifies this`i
      ensures Agrees(ParseExpr(tokens, old(i), bp), r)
      decreases |tokens| - i, 2
    {
      hide Nud, Led, Table;
      if i >= |tokens| {
        return Failure(OutOfTokens);
      }
      i := i + 1;
      r := PrefixOrOperand();
      while r.Success? && HasNext(tokens, i)
        invariant r.Success? ==> old(i) < i <= |tokens|
        invariant r.Success? ==> ParseExpr(tokens, old(i), bp) == Climb(tokens, i, bp, r.e)
        invariant r.Failure? ==> ParseExpr(tokens, old(i), bp) == Err(r.error)
        decreases r.Success?, |tokens| - i
      {
        var look := tokens[i];
        if look.Atom? || Table(look.kind).role in {Comma, TernaryColon, Nothing} || Table(look.kind).left <= bp {
          break;
        }
        i := i + 1;
        r := Extend(r.e);
      }
    }

    /** Reads what the token just taken starts. */
    method PrefixOrOperand() returns (r: Result)
      requires 0 < i <= |tokens|
      modifies this`i
      ensures Agrees(Nud(tokens, old(i) - 1), r)
      decreases |tokens| - i, 3
    {
      var tok := tokens[i - 1];
      if tok.Atom? {
        return Success(Leaf(tok.lit, tok.text));
      }
      if !IsPrefix(tok.kind) && tok.kind != AMP {
        return Failure(Unhandled);
      }
      var right := ParseExpression(PREFIX_POWER);
      if right.Failure? {
        return right;
      }
      r := if tok.kind == AMP then Failure(Unhandled) else Success(Prefix(tok.kind, right.e));
    }

    method Expect(k: Kind) returns (ok: bool)
      modifies this`i
      ensures ok == At(tokens, old(i), k) && i == if ok then old(i) + 1 else old(i)
    {
      ok := i < |tokens| && tokens[i] == Sym(k);
      if ok {
        i := i + 1;
      }
    }

    /** Extends `left` with the operator just taken. */
    method Extend(left: Expr) returns (r: Result)
      requires 0 < i <= |tokens| && tokens[i - 1].Sym?
      modifies this`i
      ensures Agrees(Led(tokens, old(i) - 1, left), r)
      decreases |tokens| - i, 4
    {
      hide ParseExpr, Args;
      var k := tokens[i - 1].kind;
      match Table(k).role
      case Call =>
        var args: seq<Expr> := [];
        if !(i < |tokens| && tokens[i] == Sym(RPAREN)) {
          var failed, error;
          args, failed, error := Arguments();
          if failed {
            return Failure(error);
          }
        }
        var closed := Expect(RPAREN);
        r := if closed then Success(Apply(left, args)) else Failure(Mismatch);
      case Index =>
        var x := ParseExpression(0);
        if x.Failure? {
          return x;
        }
        var closed := Expect(RBRACKET);
        r := if closed then Success(Subscript(left, x.e)) else Failure(Mismatch);
      case BinaryLeft | Assign | Member =>
        var right := ParseExpression(Table(k).right);
        r := if right.Failure? then right else Success(Infix(k, left, right.e));
      case Ternary =>
        var yes := ParseExpression(0);
        if yes.Failure? {
          return yes;
        }
        var colon := Expect(COLON);
        if !colon {
          return Failure(Mismatch);
        }
        var no := ParseExpression(Table(k).right);
        r := if no.Failure? then no else Success(Cond(left, yes.e, no.e));
      case _ =>
        r := Failure(Unhandled);
    }

    /** One argument or more, separated by commas. */
    method Arguments() returns (args: seq<Expr>, failed: bool, error: Error)
      requires i <= |tokens|
      modifies this`i
      ensures if failed then Args(tokens, old(i)) == ErrArgs(error) else Args(tokens, old(i)) == OkArgs(args, i)
      decreases |tokens| - i, 3
    {
      hide ParseExpr, Args, Prepend;
      args, failed, error := [], false, OutOfTokens;
      ghost var whole := Args(tokens, i);
      PrependNothing(whole);
      while true
        invariant old(i) <= i <= |tokens|
        invariant args == [] ==> i == old(i)
        invariant whole == Prepend(args, Args(tokens, i))
        decreases |tokens| - i
      {
        PrependStep(tokens, i, args);
        var a := ParseExpression(0);
        if a.Failure? {
          return args, true, a.error;
        }
        args := args + [a.e];
        if !(i < |tokens| && tokens[i] == Sym(COMMA)) {
          return;
        }
        i := i + 1;
      }
    }
  }

  function Prepend(args: seq<Expr>, p: ParsedArgs): ParsedArgs {
    if p.OkArgs? then OkArgs(args + p.args, p.next) else p
  }

  lemma PrependNothing(p: ParsedArgs)
    ensures Prepend([], p) == p
  {
    if p.OkArgs? {
      assert [] + p.args == p.args;
    }
  }

  lemma PrependStep(ts: seq<Token>, i: nat, args: seq<Expr>)
    ensures var a, whole := ParseExpr(ts, i, 0), Prepend(args, Args(ts, i));
            if a.Err? then whole == ErrArgs(a.error)
            else if At(ts, a.next, COMMA) then whole == Prepend(args + [a.e], Args(ts, a.next + 1))
            else whole == OkArgs(args + [a.e], a.next)
  {
    hide ParseExpr;
    var a := ParseExpr(ts, i, 0);
    if a.Ok? && At(ts, a.next, COMMA) {
      var more := Args(ts, a.next + 1);
      if more.OkArgs? {
        assert args + ([a.e] + more.args) == args + [a.e] + more.args;
      }
    }
  }
}
