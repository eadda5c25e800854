/** What compiled code leaves alone, and when the stack suffices: the theorems about expressions and
    statements with the smallest set of bytes and the smallest stack. */
module Effects {
  import opened Basics
  import opened X86
  import opened Machine
  import opened Cupid
  import opened Codegen
  import opened Frames
  import opened ExprCorrect
  import opened StmtCorrect

  // ----- expressions -----

  predicate CallFree(e: Expr)
  {
    match e
    case Num(_) => true
    case Var(_) => true
    case Un(_, e1) => CallFree(e1)
    case Bin(_, l, r) => CallFree(l) && CallFree(r)
    case Cond(c, t, f) => CallFree(c) && CallFree(t) && CallFree(f)
    case Call(_, _) => false
    case Bump(_, _, _) => true
  }

  /** Without calls, evaluation spends no fuel. */
  lemma {:induction false} CallFreeEval(p: Program, e: Expr, names: seq<Name>, st: Store, fuel: nat)
    requires CallFree(e)
    ensures Eval(p, e, names, st, fuel) == Eval(p, e, names, st, 0)
  {
    match e
    case Un(_, e1) => CallFreeEval(p, e1, names, st, fuel);
    case Bin(_, l, r) =>
      CallFreeEval(p, l, names, st, fuel);
      var r1 := Eval(p, l, names, st, 0);
      if r1.Done? { CallFreeEval(p, r, names, r1.st, fuel); }
    case Cond(c, t, f) =>
      CallFreeEval(p, c, names, st, fuel);
      var r1 := Eval(p, c, names, st, 0);
      if r1.Done? { CallFreeEval(p, if r1.value != 0 then t else f, names, r1.st, fuel); }
    case _ =>
  }

  lemma ExactE(x: Ctx, e: Expr, c: Cpu, st: Store, fuel: nat)
    requires ReadyE(x, e, c, st, fuel)
    ensures ReadyE(x.(open := WritesE(e, x.env)), e, c, st, fuel)
  {
    hide At, CodeE, CallsOk, Laid, Agrees, Eval, WfE, WritesE, Framed;
    CallsCtx(x, x.(open := WritesE(e, x.env)), fuel);
  }

  lemma CallsNone(x: Ctx, fuel: nat)
    requires CallsOk(x, fuel)
    ensures CallsOk(x, 0)
  {
    hide CallOk;
  }

  /** A call-free expression with enough stack runs exactly to the end of its code: its value is in eax, stack and
      frame pointer are restored, and at or above the stack pointer only the variables it bumps have changed. */
  lemma CallFreeRuns(x: Ctx, e: Expr, c: Cpu, st: Store, fuel: nat) returns (d: Cpu)
    requires ReadyE(x, e, c, st, fuel) && CallFree(e) && c.limit + NeedE(e) <= c.esp
    ensures Goes(x.code, Live(c), Live(d)) && d.pc == c.pc + SizeE(e)
    ensures var r := Eval(x.p, e, x.env.names, st, fuel); d.eax == r.value && Agrees(x.env, r.st, c.ebp, d.mem)
    ensures Stays(WritesE(e, x.env), c, d)
  {
    hide At, CodeE, CallsOk, Laid, Agrees, Eval, WfE, WritesE, Framed, Kept, SizeE, CallFree, NeedE, Goes;
    ExactE(x, e, c, st, fuel);
    CallFreeEval(x.p, e, x.env.names, st, fuel);
    var y := x.(open := WritesE(e, x.env));
    CallsNone(y, fuel);
    var t := ExprRuns(y, e, c, st, 0);
    d := t.cpu;
  }

  // ----- statements -----

  /** A byte of a scalar variable in scope. */
  ghost predicate ScalarByte(env: Env, o: int)
  {
    exists i :: 0 <= i < |env.names| && i < |env.slots| && env.names[i].scalar && Covers(env.slots[i], o)
  }

  /** Offsets that a statement started in `env` may write: scalars in scope, and what lies below them. */
  ghost predicate Scalars(env: Env, w: Offsets) { forall o :: o in w ==> o < env.lo || ScalarByte(env, o) }

  /** Everything declared after `env` lies below it. */
  ghost predicate Below(env: Env, env1: Env)
  {
    && |env.slots| == |env.names| <= |env1.names| == |env1.slots| && env.names <= env1.names && env.slots <= env1.slots
    && env1.lo <= env.lo
    && forall i :: |env.slots| <= i < |env1.slots| ==> env1.slots[i].off + env1.slots[i].size <= env.lo
  }

  lemma BelowTrans(a: Env, b: Env, c: Env)
    requires Below(a, b) && Below(b, c)
    ensures Below(a, c)
  {
    assert a.names <= c.names && a.slots <= c.slots by { assert a.slots == b.slots[..|a.slots|]; }
    forall i | |a.slots| <= i < |c.slots|
      ensures c.slots[i].off + c.slots[i].size <= a.lo
    {
      if i < |b.slots| { assert c.slots[i] == b.slots[i]; }
    }
  }

  lemma {:induction false} ScopeBelow(s: Stmt, env: Env)
    requires |env.names| == |env.slots|
    ensures Below(env, Scope(s, env))
  {
    hide Below;
    match s
    case Decl(x, _) => DeclareBelow(env, Name(x, true), 4);
    case DeclArray(x, n) => DeclareBelow(env, Name(x, false), Align4(4 * n));
    case If(_, t) => ScopeBelow(t, env);
    case IfElse(_, t, f) =>
      ScopeBelow(t, env);
      BelowLengths(env, Scope(t, env));
      ScopeBelow(f, Scope(t, env));
      BelowTrans(env, Scope(t, env), Scope(s, env));
    case While(_, body) => ScopeBelow(body, env);
    case For(start, _, step, body) =>
      var env1 := Scope(start, env);
      var env2 := Scope(step, env1);
      ScopeBelow(start, env);
      BelowLengths(env, env1);
      ScopeBelow(step, env1);
      BelowLengths(env1, env2);
      ScopeBelow(body, env2);
      BelowTrans(env, env1, env2);
      BelowTrans(env, env2, Scope(s, env));
    case _ => SameBelow(env, Scope(s, env));
  }

  lemma ThenBelow(s: Stmt, t: Stmt, env: Env)
    requires |env.names| == |env.slots|
    ensures Below(env, Scope(s, env)) && Below(env, Scope(t, Scope(s, env)))
  {
    hide Below;
    ScopeBelow(s, env);
    BelowLengths(env, Scope(s, env));
    ScopeBelow(t, Scope(s, env));
    BelowTrans(env, Scope(s, env), Scope(t, Scope(s, env)));
  }

  lemma BelowLengths(a: Env, b: Env)
    requires Below(a, b)
    ensures |b.names| == |b.slots|
  {
  }

  lemma SameBelow(a: Env, b: Env)
    requires |a.names| == |a.slots| && b.names == a.names && b.slots == a.slots && b.lo == a.lo
    ensures Below(a, b)
  {
  }

  lemma DeclareBelow(env: Env, name: Name, size: nat)
    requires |env.names| == |env.slots|
    ensures Below(env, Declare(env, name, size))
  {
  }

  /** What is written in an inner scope is a scalar of the outer one or lies below it. */
  lemma ScalarsOuter(env: Env, env1: Env, w: Offsets)
    requires Below(env, env1) && Scalars(env1, w)
    ensures Scalars(env, w)
  {
    forall o | o in w
      ensures o < env.lo || ScalarByte(env, o)
    {
      if o >= env1.lo {
        var i :| 0 <= i < |env1.names| && i < |env1.slots| && env1.names[i].scalar && Covers(env1.slots[i], o);
        if i < |env.names| {
          assert env.names[i] == env1.names[i] && env.slots[i] == env1.slots[i];
        }
      }
    }
  }

  lemma ScalarsOf(env: Env, x: string)
    ensures Scalars(env, BytesOf(env, x))
  {
  }

  lemma {:induction false} ScalarsE(e: Expr, env: Env)
    ensures Scalars(env, WritesE(e, env))
  {
    hide ScalarByte;
    match e
    case Un(_, e1) => ScalarsE(e1, env);
    case Bin(_, l, r) => ScalarsE(l, env); ScalarsE(r, env);
    case Cond(c, t, f) => ScalarsE(c, env); ScalarsE(t, env); ScalarsE(f, env);
    case Call(_, args) => ScalarsArgs(args, env);
    case Bump(x, _, _) => ScalarsOf(env, x);
    case _ =>
  }

  lemma {:induction false} ScalarsArgs(es: Exprs, env: Env)
    ensures Scalars(env, WritesArgs(es, env))
  {
    hide ScalarByte;
    match es
    case ENil =>
    case ECons(e, tail) => ScalarsE(e, env); ScalarsArgs(tail, env);
  }

  lemma ScalarsO(e: Option<Expr>, env: Env)
    ensures Scalars(env, WritesO(e, env))
  {
    hide ScalarByte;
    if e.Some? { ScalarsE(e.value, env); }
  }

  lemma ScalarsBoth(env: Env, a: Offsets, b: Offsets)
    requires Scalars(env, a) && Scalars(env, b)
    ensures Scalars(env, a + b)
  {
    hide ScalarByte;
  }

  lemma ScalarsNone(env: Env)
    ensures Scalars(env, iset{})
  {
  }

  lemma NewScalar(env: Env)
    ensures Scalars(env, Bytes(Slot(env.lo - 4, 4)))
  {
    hide ScalarByte;
  }

  /** At or above where the locals of `env` end, a statement writes only scalars declared in `env`. */
  lemma {:induction false} ScalarsS(s: Stmt, env: Env)
    requires |env.names| == |env.slots|
    ensures Scalars(env, WritesS(s, env))
    decreases s, 1
  {
    hide Scalars, Below, Scope;
    match s
    case Decl(x, init) =>
      ScopeBelow(s, env);
      ScalarsO(init, Scope(s, env));
      ScalarsOuter(env, Scope(s, env), WritesO(init, Scope(s, env)));
      NewScalar(env);
      ScalarsBoth(env, WritesO(init, Scope(s, env)), Bytes(Slot(env.lo - 4, 4)));
    case Assign(x, _, e) => ScalarsE(e, env); ScalarsOf(env, x); ScalarsBoth(env, WritesE(e, env), BytesOf(env, x));
    case BumpStmt(x, _) => ScalarsOf(env, x);
    case ExprStmt(e) => ScalarsE(e, env);
    case If(c, t) => ScalarsE(c, env); ScalarsS(t, env); ScalarsBoth(env, WritesE(c, env), WritesS(t, env));
    case IfElse(c, t, f) =>
      ScalarsE(c, env);
      ScalarsS(t, env);
      ScalarsInner(t, f, env);
      ScalarsBoth(env, WritesE(c, env), WritesS(t, env));
      ScalarsBoth(env, WritesE(c, env) + WritesS(t, env), WritesS(f, Scope(t, env)));
    case While(c, body) => ScalarsE(c, env); ScalarsS(body, env); ScalarsBoth(env, WritesE(c, env), WritesS(body, env));
    case For(_, _, _, _) => ScalarsFor(s, env);
    case Return(result) => ScalarsO(result, env);
    case Block(ss) => ScalarsSs(ss, env);
    case _ => ScalarsNone(env);
  }

  lemma {:induction false} ScalarsInner(s: Stmt, t: Stmt, env: Env)
    requires |env.names| == |env.slots|
    ensures Scalars(env, WritesS(t, Scope(s, env)))
    decreases t, 2
  {
    hide Scalars, Below, Scope, WritesS;
    ScopeBelow(s, env);
    BelowLengths(env, Scope(s, env));
    ScalarsS(t, Scope(s, env));
    ScalarsOuter(env, Scope(s, env), WritesS(t, Scope(s, env)));
  }

  lemma {:induction false} ScalarsFor(s: Stmt, env: Env)
    requires s.For? && |env.names| == |env.slots|
    ensures Scalars(env, WritesS(s, env))
    decreases s, 0
  {
    hide Scalars, Below, Scope, WritesO;
    var env1 := Scope(s.start, env);
    var env2 := Scope(s.step, env1);
    var a, b, c, d := WritesS(s.start, env), WritesO(s.cond, env1), WritesS(s.step, env1), WritesS(s.body, env2);
    ThenBelow(s.start, s.step, env);
    BelowLengths(env, env1);
    BelowLengths(env, env2);
    ScalarsS(s.start, env);
    ScalarsO(s.cond, env1);
    ScalarsOuter(env, env1, b);
    ScalarsInner(s.start, s.step, env);
    ScalarsS(s.body, env2);
    ScalarsOuter(env, env2, d);
    ScalarsBoth(env, a, b);
    ScalarsBoth(env, a + b, c);
    ScalarsBoth(env, a + b + c, d);
  }

  lemma {:induction false} ScalarsSs(ss: Stmts, env: Env)
    requires |env.names| == |env.slots|
    ensures Scalars(env, WritesSs(ss, env))
    decreases ss, 1
  {
    hide Scalars, Below, Scope, WritesS;
    match ss
    case SNil => ScalarsNone(env);
    case SCons(s, tail) =>
      var env1 := Scope(s, env);
      ScopeBelow(s, env);
      BelowLengths(env, env1);
      ScalarsS(s, env);
      ScalarsSs(tail, env1);
      ScalarsOuter(env, env1, WritesSs(tail, env1));
      ScalarsBoth(env, WritesS(s, env), WritesSs(tail, env1));
  }

  lemma ExactS(x: Ctx, s: Stmt, q: Exits, c: Cpu, st: Store, fuel: nat)
    requires ReadyS(x, s, q, c, st, fuel)
    ensures ReadyS(x.(open := WritesS(s, x.env)), s, q, c, st, fuel)
  {
    hide At, CodeS, CallsOk, Laid, Agrees, Run, WfS, WritesS, Framed, Scope;
    CallsCtx(x, x.(open := WritesS(s, x.env)), fuel);
  }

  /** Where in the frame a statement that stays in it may have written. */
  ghost predicate OnlyScalars(env: Env, c: Cpu, m: Mem)
  {
    forall a :: c.esp <= a && c.ebp + env.lo <= a && m(a) != c.mem(a) ==> ScalarByte(env, a - c.ebp)
  }

  /** With enough stack the code of a statement ends where the source statement does, with the same values of the
      variables, the stack balanced, and of the memory of the enclosing scopes only scalars changed. */
  lemma StmtRunsExactly(x: Ctx, s: Stmt, q: Exits, c: Cpu, st: Store, fuel: nat) returns (d: Cpu)
    requires ReadyS(x, s, q, c, st, fuel) && c.limit + (NeedS(s) + Deep(x.p, fuel)) <= c.esp
    ensures Goes(x.code, Live(c), Live(d))
    ensures var o := Run(x.p, s, x.env.names, st, fuel);
      && Finished(WritesS(s, x.env), Scope(s, x.env), q, c, Live(d), c.pc + SizeS(s), o, 0)
      && OnlyScalars(x.env, c, d.mem)
  {
    hide At, CodeS, CallsOk, Agrees, Run, WfS, WritesS, Framed, Scope, Goes, NeedS, Deep, Load32, SizeS, ScalarByte;
    ExactS(x, s, q, c, st, fuel);
    var y := x.(open := WritesS(s, x.env));
    var t := StmtRuns(y, s, q, c, st, fuel);
    d := t.cpu;
    ScalarsS(s, x.env);
  }
}
