/** The modelled part of the CupidC language and what its programs mean. */
module Cupid {
  import opened Basics
  import opened X86

  datatype UnOp = Minus | BitNot | LogNot

  datatype BinOp =
    | Add | Sub | Mul | Div | Mod | Eq | Ne | Lt | Gt | Le | Ge
    | BitAnd | BitOr | BitXor | ShL | ShR | LogAnd | LogOr

  datatype Expr =
    | Num(n: Word)
    | Var(x: string)
    | Un(uop: UnOp, e: Expr)
    | Bin(op: BinOp, l: Expr, r: Expr)
    | Cond(c: Expr, t: Expr, f: Expr)
    | Call(fn: string, args: Exprs)
    | Bump(x: string, up: bool, prefix: bool)        // ++x, --x, x++, x--

  datatype Exprs = ENil | ECons(head: Expr, tail: Exprs)

  datatype Stmt =
    | Decl(x: string, init: Option<Expr>)            // int x; or int x = e;
    | DeclArray(x: string, count: nat)               // int x[count];
    | Assign(x: string, aop: Option<BinOp>, e: Expr) // x = e; or x op= e;
    | BumpStmt(x: string, up: bool)                  // x++; or x--;
    | ExprStmt(e: Expr)
    | If(c: Expr, t: Stmt)
    | IfElse(c: Expr, t: Stmt, f: Stmt)
    | While(c: Expr, body: Stmt)
    | For(start: Stmt, cond: Option<Expr>, step: Stmt, body: Stmt)
    | Break
    | Continue
    | Return(result: Option<Expr>)
    | Block(ss: Stmts)
    | Empty

  datatype Stmts = SNil | SCons(head: Stmt, tail: Stmts)

  datatype Func = Func(name: string, params: seq<string>, body: Stmts)

  type Program = seq<Func>

  function Count(es: Exprs): nat { match es case ENil => 0 case ECons(_, t) => 1 + Count(t) }

  // ----- scopes -----

  /** A declared name; arrays are not scalars. */
  datatype Name = Name(name: string, scalar: bool)

  /** The innermost declaration of `x`, or -1. */
  function Lookup(names: seq<Name>, x: string): (i: int)
    ensures -1 <= i < |names|
    ensures i >= 0 ==> names[i].name == x
  {
    if names == [] then -1
    else if names[|names| - 1].name == x then |names| - 1
    else Lookup(names[..|names| - 1], x)
  }

  /** The names in scope after a statement. Only a block closes a scope: a declaration
      that is the bare body of an if or a loop stays in scope after it. */
  function Names(s: Stmt, names: seq<Name>): (r: seq<Name>)
    ensures names <= r
  {
    match s
    case Decl(x, _) => names + [Name(x, true)]
    case DeclArray(x, _) => names + [Name(x, false)]
    case If(_, t) => Names(t, names)
    case IfElse(_, t, f) => Names(f, Names(t, names))
    case While(_, body) => Names(body, names)
    case For(start, _, step, body) => Names(body, Names(step, Names(start, names)))
    case _ => names
  }

  function ParamNames(params: seq<string>): (r: seq<Name>)
    ensures |r| == |params|
  {
    seq(|params|, i requires 0 <= i < |params| => Name(params[i], true))
  }

  // ----- meaning -----

  /** Values of the initialised variables, by position of their declaration among the names in scope. */
  type Store = map<nat, Word>

  function Keep(st: Store, n: nat): Store { map i | i in st && i < n :: st[i] }

  function UnVal(op: UnOp, v: Word): Word
  {
    match op
    case Minus => Wrap(0 - v)
    case BitNot => W - 1 - v
    case LogNot => Bool(v == 0)
  }

  predicate Traps(op: BinOp, a: Word, b: Word)
  {
    (op == Div || op == Mod) && (b == 0 || (Signed(a) == -H && Signed(b) == -1))
  }

  /** 32-bit arithmetic; && and || take both operands as they are. */
  function BinVal(op: BinOp, a: Word, b: Word): Word
    requires !Traps(op, a, b)
  {
    match op
    case Add => Wrap(a + b)
    case Sub => Wrap(a - b)
    case Mul => Wrap(a * b)
    case Div => Wrap(TruncDiv(Signed(a), Signed(b)))
    case Mod => Wrap(TruncRem(Signed(a), Signed(b)))
    case Eq => Bool(a == b)
    case Ne => Bool(a != b)
    case Lt => Bool(Signed(a) < Signed(b))
    case Gt => Bool(Signed(a) > Signed(b))
    case Le => Bool(Signed(a) <= Signed(b))
    case Ge => Bool(Signed(a) >= Signed(b))
    case BitAnd => Logic32(And, a, b)
    case BitOr => Logic32(Or, a, b)
    case BitXor => Logic32(Xor, a, b)
    case ShL => ShiftLeft(a, b)
    case ShR => ShiftArith(a, b)
    case LogAnd => Bool(a != 0 && b != 0)
    case LogOr => Bool(a != 0 || b != 0)
  }

  /** `Stuck`: a division trap, an uninitialised or unknown variable, a call with too few
      arguments or of an unknown function, or the use of a missing return value. */
  datatype Result<+T> = Done(value: T, st: Store) | Stuck | Timeout

  datatype Outcome =
    | Next(st: Store)
    | Broke(st: Store)
    | Continued(st: Store)
    | Returned(v: Option<Word>)
    | Bad
    | Late

  function Fail<T>(r: Result<T>): Outcome { if r.Timeout? then Late else Bad }

  /** Calls and loop iterations consume fuel; every operand is evaluated, left to right. */
  function Eval(p: Program, e: Expr, names: seq<Name>, st: Store, fuel: nat): Result<Word>
    decreases fuel, e, 0
  {
    match e
    case Num(n) => Done(n, st)
    case Var(x) =>
      var i := Lookup(names, x);
      if i in st then Done(st[i], st) else Stuck
    case Un(op, e1) =>
      (match Eval(p, e1, names, st, fuel)
       case Done(v, st1) => Done(UnVal(op, v), st1)
       case r => r)
    case Bin(op, l, r) =>
      (match Eval(p, l, names, st, fuel)
       case Done(a, st1) =>
         (match Eval(p, r, names, st1, fuel)
          case Done(b, st2) => if Traps(op, a, b) then Stuck else Done(BinVal(op, a, b), st2)
          case r => r)
       case r => r)
    case Cond(c, t, f) =>
      (match Eval(p, c, names, st, fuel)
       case Done(v, st1) => Eval(p, if v != 0 then t else f, names, st1, fuel)
       case r => r)
    case Call(f, args) =>
      (match EvalArgs(p, args, names, st, fuel)
       case Done(vs, st1) =>
         if fuel == 0 then Timeout
         else (match Invoke(p, f, vs, fuel - 1)
               case Returned(Some(v)) => Done(v, st1)
               case Late => Timeout
               case _ => Stuck)
       case Stuck => Stuck
       case Timeout => Timeout)
    case Bump(x, up, prefix) =>
      var i := Lookup(names, x);
      if i in st then
        var v := Bumped(st[i], up);
        Done(if prefix then v else st[i], st[i := v])
      else Stuck
  }

  function Bumped(v: Word, up: bool): Word { if up then Wrap(v + 1) else Wrap(v - 1) }

  function EvalArgs(p: Program, es: Exprs, names: seq<Name>, st: Store, fuel: nat): (r: Result<seq<Word>>)
    ensures r.Done? ==> |r.value| == Count(es)
    decreases fuel, es, 0
  {
    match es
    case ENil => Done([], st)
    case ECons(e, tail) =>
      match Eval(p, e, names, st, fuel)
      case Done(v, st1) =>
        (match EvalArgs(p, tail, names, st1, fuel)
         case Done(vs, st2) => Done([v] + vs, st2)
         case r => r)
      case Stuck => Stuck
      case Timeout => Timeout
  }

  function Find(p: Program, f: string): (r: Option<Func>)
    ensures r.Some? ==> r.value in p && r.value.name == f
  {
    if p == [] then None else if p[0].name == f then Some(p[0]) else Find(p[1..], f)
  }

  /** A call: `Returned` with the value, or Bad or Late. Falling off the end returns 0. */
  function Invoke(p: Program, f: string, vs: seq<Word>, fuel: nat): Outcome
    decreases fuel
  {
    match Find(p, f)
    case None => Bad
    case Some(d) =>
      if |vs| < |d.params| then Bad
      else
        match RunAll(p, d.body, ParamNames(d.params), map i: nat | i < |d.params| :: vs[i], fuel)
        case Next(_) => Returned(Some(0))
        case Returned(v) => Returned(v)
        case Late => Late
        case _ => Bad
  }

  function Run(p: Program, s: Stmt, names: seq<Name>, st: Store, fuel: nat): Outcome
    decreases fuel, s, 2
  {
    match s
    case Decl(x, None) => Next(st[|names| := 0])
    case Decl(x, Some(e)) =>
      (match Eval(p, e, names + [Name(x, true)], st, fuel)
       case Done(v, st1) => Next(st1[|names| := v])
       case r => Fail(r))
    case DeclArray(_, _) => Next(st)
    case Assign(x, op, e) =>
      (match Eval(p, e, names, st, fuel)
       case Done(v, st1) =>
         var i := Lookup(names, x);
         if i < 0 || !names[i].scalar then Bad
         else if op.None? then Next(st1[i := v])
         else if i !in st1 || Traps(op.value, st1[i], v) then Bad
         else Next(st1[i := BinVal(op.value, st1[i], v)])
       case r => Fail(r))
    case BumpStmt(x, up) =>
      var i := Lookup(names, x);
      if i in st then Next(st[i := Bumped(st[i], up)]) else Bad
    case ExprStmt(e) =>
      (match Eval(p, e, names, st, fuel)
       case Done(_, st1) => Next(st1)
       case r => Fail(r))
    case If(c, t) =>
      (match Eval(p, c, names, st, fuel)
       case Done(v, st1) => if v != 0 then Run(p, t, names, st1, fuel) else Next(st1)
       case r => Fail(r))
    case IfElse(c, t, f) =>
      (match Eval(p, c, names, st, fuel)
       case Done(v, st1) =>
         if v != 0 then Run(p, t, names, st1, fuel) else Run(p, f, Names(t, names), st1, fuel)
       case r => Fail(r))
    case While(c, body) =>
      (match Eval(p, c, names, st, fuel)
       case Done(v, st1) =>
         if v == 0 then Next(st1) else Again(p, s, names, Run(p, body, names, st1, fuel), fuel)
       case r => Fail(r))
    case For(start, cond, step, body) =>
      (match Run(p, start, names, st, fuel)
       case Next(st1) => Loop(p, s, Names(start, names), st1, fuel)
       case Late => Late
       case _ => Bad)
    case Break => Broke(st)
    case Continue => Continued(st)
    case Return(None) => Returned(None)
    case Return(Some(e)) =>
      (match Eval(p, e, names, st, fuel)
       case Done(v, _) => Returned(Some(v))
       case r => Fail(r))
    case Block(ss) => Leave(RunAll(p, ss, names, st, fuel), |names|)
    case Empty => Next(st)
  }

  /** Closing a scope drops the variables declared in it. */
  function Leave(o: Outcome, n: nat): Outcome
  {
    match o
    case Next(st) => Next(Keep(st, n))
    case Broke(st) => Broke(Keep(st, n))
    case Continued(st) => Continued(Keep(st, n))
    case _ => o
  }

  /** What a while loop does after its body ended with `o`. */
  function Again(p: Program, s: Stmt, names: seq<Name>, o: Outcome, fuel: nat): Outcome
    requires s.While?
    decreases fuel, s, 1
  {
    match o
    case Next(st) => if fuel == 0 then Late else Run(p, s, names, Keep(st, |names|), fuel - 1)
    case Continued(st) => if fuel == 0 then Late else Run(p, s, names, Keep(st, |names|), fuel - 1)
    case Broke(st) => Next(Keep(st, |names|))
    case _ => o
  }

  /** A for loop from the test of its condition on. */
  function Loop(p: Program, s: Stmt, names: seq<Name>, st: Store, fuel: nat): Outcome
    requires s.For?
    decreases fuel, s, 1
  {
    match (match s.cond case None => Done(1, st) case Some(c) => Eval(p, c, names, st, fuel))
    case Done(v, st1) =>
      if v == 0 then Next(st1)
      else
        (match Run(p, s.body, names, st1, fuel)
         case Next(st2) => Advance(p, s, names, Keep(st2, |names|), fuel)
         case Continued(st2) => Advance(p, s, names, Keep(st2, |names|), fuel)
         case Broke(st2) => Next(Keep(st2, |names|))
         case o => o)
    case r => Fail(r)
  }

  /** The step of a for loop and everything after it. */
  function Advance(p: Program, s: Stmt, names: seq<Name>, st: Store, fuel: nat): Outcome
    requires s.For?
    decreases fuel, s, 0
  {
    match Run(p, s.step, names, st, fuel)
    case Next(st1) => if fuel == 0 then Late else Loop(p, s, names, Keep(st1, |names|), fuel - 1)
    case Late => Late
    case _ => Bad
  }

  function RunAll(p: Program, ss: Stmts, names: seq<Name>, st: Store, fuel: nat): Outcome
    decreases fuel, ss, 2
  {
    match ss
    case SNil => Next(st)
    case SCons(s, tail) =>
      match Run(p, s, names, st, fuel)
      case Next(st1) => RunAll(p, tail, Names(s, names), st1, fuel)
      case o => o
  }
}
