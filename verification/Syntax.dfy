/** Tokens, operator precedence, and printing programs with only the parentheses they need. */
module Syntax {
  import opened Basics
  import opened X86
  import opened Cupid

  datatype Token =
    | TNum(v: Word)
    | TIdent(s: string)
    | TBin(op: BinOp)                  // also unary - (Sub), dereference (Mul), address-of (BitAnd)
    | TAsg(aop: Option<BinOp>)         // = and op=
    | TBang | TTilde
    | TInc(up: bool)                   // ++ and --
    | LParen | RParen | LBrace | RBrace | LBrack | RBrack
    | Semi | Comma | Question | Colon
    | KInt | KIf | KElse | KWhile | KFor | KBreak | KContinue | KReturn
    | Other                            // any token of the constructs that are not modelled

  function Prec(op: BinOp): (n: nat)
    ensures 1 <= n <= 10
  {
    match op
    case LogOr => 1
    case LogAnd => 2
    case BitOr => 3
    case BitXor => 4
    case BitAnd => 5
    case Eq | Ne => 6
    case Lt | Gt | Le | Ge => 7
    case ShL | ShR => 8
    case Add | Sub => 9
    case Mul | Div | Mod => 10
  }

  // ----- printing expressions -----

  /** Whether `e` must be parenthesised at level `k`: 0 is a whole expression, 1 to 10 an
      operand that binds at least that tightly, 11 the operand of a unary operator. */
  predicate NeedsParens(e: Expr, k: nat)
  {
    match e
    case Bin(op, _, _) => Prec(op) < k
    case Cond(_, _, _) => k > 0
    case _ => false
  }

  function UnToken(op: UnOp): Token
  {
    match op case Minus => TBin(Sub) case BitNot => TTilde case LogNot => TBang
  }

  function Bare(e: Expr): seq<Token>
    decreases e, 0
  {
    match e
    case Num(n) => [TNum(n)]
    case Var(x) => [TIdent(x)]
    case Un(op, e1) => [UnToken(op)] + Print(e1, 11)
    case Bin(op, l, r) => Print(l, Prec(op)) + ([TBin(op)] + Print(r, Prec(op) + 1))
    case Cond(c, t, f) => Print(c, 1) + ([Question] + (Print(t, 0) + ([Colon] + Print(f, 0))))
    case Call(f, args) => [TIdent(f), LParen] + PrintArgs(args)
    case Bump(x, up, prefix) => if prefix then [TInc(up), TIdent(x)] else [TIdent(x), TInc(up)]
  }

  function Print(e: Expr, k: nat): seq<Token>
    decreases e, 1
  {
    if NeedsParens(e, k) then [LParen] + (Bare(e) + [RParen]) else Bare(e)
  }

  /** The arguments and the closing parenthesis. */
  function PrintArgs(es: Exprs): seq<Token>
    decreases es, 1
  {
    match es case ENil => [RParen] case ECons(e, tail) => Print(e, 0) + PrintMore(tail)
  }

  function PrintMore(es: Exprs): seq<Token>
    decreases es, 0
  {
    match es case ENil => [RParen] case ECons(e, tail) => [Comma] + (Print(e, 0) + PrintMore(tail))
  }

  // ----- printing statements -----

  function PrintS(s: Stmt): seq<Token>
    decreases s, 1
  {
    match s
    case Decl(x, None) => [KInt, TIdent(x), Semi]
    case Decl(x, Some(e)) => [KInt, TIdent(x), TAsg(None)] + (Print(e, 0) + [Semi])
    case DeclArray(x, n) => [KInt, TIdent(x), LBrack, TNum(Wrap(n)), RBrack, Semi]
    case Assign(_, _, _) => Unended(s) + [Semi]
    case BumpStmt(_, _) => Unended(s) + [Semi]
    case ExprStmt(e) => Print(e, 0) + [Semi]
    case If(c, t) => [KIf, LParen] + (Print(c, 0) + ([RParen] + PrintS(t)))
    case IfElse(c, t, f) => [KIf, LParen] + (Print(c, 0) + ([RParen] + (PrintS(t) + ([KElse] + PrintS(f)))))
    case While(c, body) => [KWhile, LParen] + (Print(c, 0) + ([RParen] + PrintS(body)))
    case For(start, cond, step, body) =>
      [KFor, LParen] + (PrintS(start)
        + ((if cond.None? then [Semi] else Print(cond.value, 0) + [Semi])
           + (Unended(step) + ([RParen] + PrintS(body)))))
    case Break => [KBreak, Semi]
    case Continue => [KContinue, Semi]
    case Return(None) => [KReturn, Semi]
    case Return(Some(e)) => [KReturn] + (Print(e, 0) + [Semi])
    case Block(ss) => [LBrace] + PrintSs(ss)
    case Empty => [Semi]
  }

  /** An assignment, ++ or -- without its semicolon. */
  function Unended(s: Stmt): seq<Token>
    decreases s, 0
  {
    match s
    case Assign(x, op, e) => [TIdent(x), TAsg(op)] + Print(e, 0)
    case BumpStmt(x, up) => [TIdent(x), TInc(up)]
    case _ => []
  }

  /** The statements of a block and its closing brace. */
  function PrintSs(ss: Stmts): seq<Token>
    decreases ss, 1
  {
    match ss case SNil => [RBrace] case SCons(s, tail) => PrintS(s) + PrintSs(tail)
  }

  function PrintParams(ps: seq<string>): seq<Token>
  {
    if ps == [] then [RParen] else [KInt, TIdent(ps[0])] + PrintMoreParams(ps[1..])
  }

  function PrintMoreParams(ps: seq<string>): seq<Token>
  {
    if ps == [] then [RParen] else [Comma, KInt, TIdent(ps[0])] + PrintMoreParams(ps[1..])
  }

  function PrintF(f: Func): seq<Token>
  {
    [KInt, TIdent(f.name), LParen] + (PrintParams(f.params) + ([LBrace] + PrintSs(f.body)))
  }

  function PrintP(p: Program): seq<Token>
  {
    if p == [] then [] else PrintF(p[0]) + PrintP(p[1..])
  }
}
