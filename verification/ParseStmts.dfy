/** Parsing a printed statement emits the code of that statement. */
module ParseStmts {
  import opened Basics
  import opened X86
  import opened Machine
  import opened Cupid
  import opened Codegen
  import opened Syntax
  import opened Parser
  import opened ParseExprs

  // ----- what a statement adds to the compiler state -----

  /** Symbols and call sites a statement may add. */
  function Marks(s: Stmt): nat
  {
    match s
    case Decl(_, None) => 1
    case Decl(_, Some(e)) => 1 + Calls(e)
    case DeclArray(_, _) => 1
    case Assign(_, _, e) => Calls(e)
    case ExprStmt(e) => Calls(e)
    case If(c, t) => Calls(c) + Marks(t)
    case IfElse(c, t, f) => Calls(c) + Marks(t) + Marks(f)
    case While(c, body) => Calls(c) + Marks(body)
    case For(start, cond, step, body) =>
      Marks(start) + (if cond.None? then 0 else Calls(cond.value)) + Marks(step) + Marks(body)
    case Return(Some(e)) => Calls(e)
    case Block(ss) => MarksAll(ss)
    case _ => 0
  }

  function MarksAll(ss: Stmts): nat
  {
    match ss case SNil => 0 case SCons(s, tail) => Marks(s) + MarksAll(tail)
  }

  /** Nesting of loops. */
  function Depth(s: Stmt): nat
  {
    match s
    case If(_, t) => Depth(t)
    case IfElse(_, t, f) => Max(Depth(t), Depth(f))
    case While(_, body) => 1 + Depth(body)
    case For(_, _, _, body) => 1 + Depth(body)
    case Block(ss) => DepthAll(ss)
    case _ => 0
  }

  function DepthAll(ss: Stmts): nat
  {
    match ss case SNil => 0 case SCons(s, tail) => Max(Depth(s), DepthAll(tail))
  }

  function Max(a: nat, b: nat): nat { if a < b then b else a }

  /** The displacements of breaks that leave the enclosing loop. */
  function Breaks(s: Stmt, pos: nat): seq<nat>
  {
    match s
    case Break => [pos + 1]
    case If(c, t) => Breaks(t, pos + SizeE(c) + 9)
    case IfElse(c, t, f) => Breaks(t, pos + SizeE(c) + 9) + Breaks(f, pos + SizeE(c) + 9 + SizeS(t) + 5)
    case Block(ss) => BreaksAll(ss, pos)
    case _ => []
  }

  function BreaksAll(ss: Stmts, pos: nat): seq<nat>
  {
    match ss case SNil => [] case SCons(s, tail) => Breaks(s, pos) + BreaksAll(tail, pos + SizeS(s))
  }

  function SitesS(s: Stmt, pos: nat, known: Entries): seq<Patch>
  {
    match s
    case Decl(_, Some(e)) => SitesE(e, pos, known)
    case Assign(_, _, e) => SitesE(e, pos, known)
    case ExprStmt(e) => SitesE(e, pos, known)
    case If(c, t) => SitesE(c, pos, known) + SitesS(t, pos + SizeE(c) + 9, known)
    case IfElse(c, t, f) =>
      SitesE(c, pos, known) + SitesS(t, pos + SizeE(c) + 9, known) + SitesS(f, pos + SizeE(c) + 9 + SizeS(t) + 5, known)
    case While(c, body) => SitesE(c, pos, known) + SitesS(body, pos + SizeE(c) + 9, known)
    case For(start, cond, step, body) =>
      var test := pos + SizeS(start);
      var inc := test + SizeTest(cond) + 5;
      SitesS(start, pos, known) + (if cond.None? then [] else SitesE(cond.value, test, known))
      + SitesS(step, inc, known) + SitesS(body, inc + SizeS(step) + 5, known)
    case Return(Some(e)) => SitesE(e, pos, known)
    case Block(ss) => SitesAll(ss, pos, known)
    case _ => []
  }

  function SitesAll(ss: Stmts, pos: nat, known: Entries): seq<Patch>
  {
    match ss case SNil => [] case SCons(s, tail) => SitesS(s, pos, known) + SitesAll(tail, pos + SizeS(s), known)
  }

  function SymsS(s: Stmt, env: Env, syms: seq<Sym>): seq<Sym>
  {
    match s
    case Decl(x, None) => syms + [Sym(x, Variable(env.lo - 4, true))]
    case Decl(x, Some(e)) => SymsE(e, syms + [Sym(x, Variable(env.lo - 4, true))])
    case DeclArray(x, n) => syms + [Sym(x, Variable(env.lo - Align4(4 * n), false))]
    case Assign(_, _, e) => SymsE(e, syms)
    case ExprStmt(e) => SymsE(e, syms)
    case If(c, t) => SymsS(t, env, SymsE(c, syms))
    case IfElse(c, t, f) => SymsS(f, Codegen.Scope(t, env), SymsS(t, env, SymsE(c, syms)))
    case While(c, body) => SymsS(body, env, SymsE(c, syms))
    case For(start, cond, step, body) =>
      var env1 := Codegen.Scope(start, env);
      var syms1 := SymsS(start, env, syms);
      var syms2 := if cond.None? then syms1 else SymsE(cond.value, syms1);
      SymsS(body, Codegen.Scope(step, env1), SymsS(step, env1, syms2))
    case Return(Some(e)) => SymsE(e, syms)
    case _ => syms
  }

  function SymsAll(ss: Stmts, env: Env, syms: seq<Sym>): seq<Sym>
  {
    match ss case SNil => syms case SCons(s, tail) => SymsAll(tail, Codegen.Scope(s, env), SymsS(s, env, syms))
  }

  // ----- which statements print and parse back -----

  predicate IsAssignOp(op: Option<BinOp>)
  {
    op.None? || op.value in {Add, Sub, Mul, Div, BitAnd, BitOr, BitXor, ShL, ShR}
  }

  /** The statement could be followed by an else that would belong to it. */
  predicate EndsOpen(s: Stmt)
  {
    match s
    case If(_, _) => true
    case IfElse(_, _, f) => EndsOpen(f)
    case While(_, body) => EndsOpen(body)
    case For(_, _, _, body) => EndsOpen(body)
    case _ => false
  }

  /** An expression statement that starts with a name is a call or a variable. */
  predicate StartsPlain(e: Expr) { e.Call? || e.Var? || !FirstIsName(e) }

  predicate FirstIsName(e: Expr)
  {
    match e
    case Var(_) | Call(_, _) => true
    case Bin(op, l, _) => !NeedsParens(l, Prec(op)) && FirstIsName(l)
    case Cond(c, _, _) => !NeedsParens(c, 1) && FirstIsName(c)
    case Bump(_, _, prefix) => !prefix
    case _ => false
  }

  /** Names resolve, every break and continue is inside a loop, every else is unambiguous,
      and no loop holds more breaks than the table has room for. */
  predicate ResolvedS(s: Stmt, env: Env, fns: set<string>, inLoop: bool)
  {
    match s
    case Decl(x, init) => (init.Some? ==> Resolved(init.value, Codegen.Scope(s, env), fns))
    case DeclArray(x, n) => n < MAX_ARRAY
    case Assign(x, op, e) => InScope(env, x) && Resolved(e, env, fns) && IsAssignOp(op)
    case BumpStmt(x, _) => InScope(env, x)
    case ExprStmt(e) => Resolved(e, env, fns) && StartsPlain(e)
    case If(c, t) => Resolved(c, env, fns) && ResolvedS(t, env, fns, inLoop)
    case IfElse(c, t, f) =>
      && Resolved(c, env, fns) && ResolvedS(t, env, fns, inLoop) && !EndsOpen(t)
      && ResolvedS(f, Codegen.Scope(t, env), fns, inLoop)
    case While(c, body) => Resolved(c, env, fns) && ResolvedS(body, env, fns, true) && |Breaks(body, 0)| <= MAX_BREAKS
    case For(start, cond, step, body) =>
      var env1 := Codegen.Scope(start, env);
      && (start.Empty? || start.Decl? || start.Assign?) && (step.Empty? || step.Assign? || step.BumpStmt?)
      && ResolvedS(start, env, fns, inLoop) && (cond.Some? ==> Resolved(cond.value, env1, fns))
      && ResolvedS(step, env1, fns, true) && ResolvedS(body, env1, fns, true) && |Breaks(body, 0)| <= MAX_BREAKS
    case Break => inLoop
    case Continue => inLoop
    case Return(result) => result.Some? ==> Resolved(result.value, env, fns)
    case Block(ss) => ResolvedAll(ss, env, fns, inLoop)
    case Empty => true
  }

  predicate ResolvedAll(ss: Stmts, env: Env, fns: set<string>, inLoop: bool)
  {
    match ss
    case SNil => true
    case SCons(s, tail) => ResolvedS(s, env, fns, inLoop) && ResolvedAll(tail, Codegen.Scope(s, env), fns, inLoop)
  }

  // ----- the state after a statement -----

  function TopCont(s: PState): int { if s.loops == [] then 0 else s.loops[|s.loops| - 1].cont }

  /** The loops with more breaks in the innermost one. */
  function MoreBreaks(loops: seq<OpenLoop>, sites: seq<nat>): seq<OpenLoop>
  {
    if loops == [] then []
    else
      var d := |loops| - 1;
      loops[d := loops[d].(breaks := loops[d].breaks + sites)]
  }

  function AfterS(s: PState, st: Stmt, z: View, rest: seq<Token>): PState
  {
    var pos := |s.code|;
    PState(rest, s.code + CodeS(st, z.env, pos, Exits(None, TopCont(s)), z.known), s.status, SymsS(st, z.env, s.syms),
           Codegen.Scope(st, z.env).lo, Codegen.Scope(st, z.env).deepest,
           MoreBreaks(s.loops, Breaks(st, pos)), s.patches + SitesS(st, pos, z.known))
  }

  function AfterAll(s: PState, ss: Stmts, z: View, rest: seq<Token>): PState
  {
    var pos := |s.code|;
    PState(rest, s.code + CodeSs(ss, z.env, pos, Exits(None, TopCont(s)), z.known), s.status,
           SymsAll(ss, z.env, s.syms),
           ScopeAll(ss, z.env).lo, ScopeAll(ss, z.env).deepest,
           MoreBreaks(s.loops, BreaksAll(ss, pos)), s.patches + SitesAll(ss, pos, z.known))
  }

  /** Room for `size` bytes, `marks` symbols and patches, `depth` loops and `breaks` breaks. */
  ghost predicate ReadyS(s: PState, z: View, size: nat, marks: nat, depth: nat, breaks: nat)
  {
    && Ready(s, z, size, marks) && s.lo == z.env.lo && s.deepest == z.env.deepest
    && |s.loops| + depth <= MAX_LOOPS
    && (s.loops != [] ==> |s.loops[|s.loops| - 1].breaks| + breaks <= MAX_BREAKS)
  }

  // ----- scopes -----

  lemma LookupLast(names: seq<Name>, n: Name, x: string)
    ensures Lookup(names + [n], x) == if x == n.name then |names| else Lookup(names, x)
  {
    assert (names + [n])[..|names|] == names;
  }

  lemma DeclareStands(syms: seq<Sym>, z: View, n: Name, size: nat)
    requires Stands(syms, z.env, z.known, z.fns)
    ensures Stands(syms + [Sym(n.name, Variable(z.env.lo - size, n.scalar))], Declare(z.env, n, size), z.known, z.fns)
  {
    hide FindSym, Lookup;
    var sym := Sym(n.name, Variable(z.env.lo - size, n.scalar));
    var env1 := Declare(z.env, n, size);
    forall x
      ensures FindSym(syms + [sym], x) == if x == n.name then Some(sym.kind) else FindSym(syms, x)
    {
      FindLast(syms, n.name, x, sym.kind);
    }
    forall x | InScope(env1, x) || x !in z.fns
      ensures FindSym(syms + [sym], x) == VarKind(env1, x)
    {
      LookupLast(z.env.names, n, x);
      LookupRange(z.env.names, x);
      if x != n.name { assert FindSym(syms, x) == VarKind(z.env, x); }
    }
    forall f | f in z.fns && !InScope(env1, f)
      ensures FuncKind(FindSym(syms + [sym], f), z.known, f)
    {
      LookupLast(z.env.names, n, f);
      assert !InScope(z.env, f);
    }
  }

  lemma LookupRange(names: seq<Name>, x: string)
    ensures -1 <= Lookup(names, x) < |names|
  {
  }

  lemma {:induction false} SymsEGrow(e: Expr, syms: seq<Sym>)
    ensures syms <= SymsE(e, syms)
  {
    match e
    case Un(_, e1) => SymsEGrow(e1, syms);
    case Bin(_, l, r) => SymsEGrow(l, syms); SymsEGrow(r, SymsE(l, syms));
    case Cond(c, t, f) => SymsEGrow(c, syms); SymsEGrow(t, SymsE(c, syms)); SymsEGrow(f, SymsE(t, SymsE(c, syms)));
    case Call(_, args) => SymsArgsGrow(args, syms);
    case _ =>
  }

  lemma {:induction false} SymsArgsGrow(es: Exprs, syms: seq<Sym>)
    ensures syms <= SymsArgs(es, syms)
  {
    match es
    case ENil =>
    case ECons(e, tail) => SymsEGrow(e, syms); SymsArgsGrow(tail, SymsE(e, syms));
  }

  function Grown(z: View, st: Stmt): View { z.(env := Codegen.Scope(st, z.env)) }

  /** An expression evaluated in scope `z` keeps what the symbol table stands for. */
  lemma ExprSyms(e: Expr, syms: seq<Sym>, z: View)
    requires Stands(syms, z.env, z.known, z.fns) && Resolved(e, z.env, z.fns)
    ensures Stands(SymsE(e, syms), z.env, z.known, z.fns) && |SymsE(e, syms)| <= |syms| + Calls(e)
    ensures syms <= SymsE(e, syms)
  {
    hide Stands;
    SymsStand(e, syms, z);
    SymsEGrow(e, syms);
  }

  lemma {:induction false} SymsSStand(st: Stmt, syms: seq<Sym>, z: View, inLoop: bool)
    requires Stands(syms, z.env, z.known, z.fns) && ResolvedS(st, z.env, z.fns, inLoop)
    ensures var r := SymsS(st, z.env, syms);
      Stands(r, Codegen.Scope(st, z.env), z.known, z.fns) && |r| <= |syms| + Marks(st) && syms <= r
    decreases st, 1
  {
    hide Stands, SymsE, Resolved, Calls, Lookup, Declare;
    match st
    case Decl(x, init) =>
      DeclareStands(syms, z, Name(x, true), 4);
      if init.Some? { ExprSyms(init.value, syms + [Sym(x, Variable(z.env.lo - 4, true))], Grown(z, st)); }
    case DeclArray(x, n) => DeclareStands(syms, z, Name(x, false), Align4(4 * n));
    case Assign(_, _, e) => ExprSyms(e, syms, z);
    case ExprStmt(e) => ExprSyms(e, syms, z);
    case If(c, t) =>
      ExprSyms(c, syms, z);
      SymsSStand(t, SymsE(c, syms), z, inLoop);
    case IfElse(c, t, f) =>
      ExprSyms(c, syms, z);
      SymsSStand(t, SymsE(c, syms), z, inLoop);
      SymsSStand(f, SymsS(t, z.env, SymsE(c, syms)), Grown(z, t), inLoop);
    case While(c, body) =>
      ExprSyms(c, syms, z);
      SymsSStand(body, SymsE(c, syms), z, true);
    case For(_, _, _, _) => ForSymsStand(st, syms, z, inLoop);
    case Return(result) => if result.Some? { ExprSyms(result.value, syms, z); }
    case Block(ss) => BlockStands(st, syms, z);
    case _ =>
  }

  lemma BlockStands(st: Stmt, syms: seq<Sym>, z: View)
    requires st.Block? && Stands(syms, z.env, z.known, z.fns)
    ensures Stands(syms, Codegen.Scope(st, z.env), z.known, z.fns)
  {
  }

  lemma {:induction false} ForSymsStand(st: Stmt, syms: seq<Sym>, z: View, inLoop: bool)
    requires st.For? && Stands(syms, z.env, z.known, z.fns) && ResolvedS(st, z.env, z.fns, inLoop)
    ensures var r := SymsS(st, z.env, syms);
      Stands(r, Codegen.Scope(st, z.env), z.known, z.fns) && |r| <= |syms| + Marks(st) && syms <= r
    decreases st, 0
  {
    hide Stands, SymsE, Resolved, Calls, Lookup, Declare;
    var For(start, cond, step, body) := st;
    var z1 := Grown(z, start);
    var syms1 := SymsS(start, z.env, syms);
    SymsSStand(start, syms, z, inLoop);
    if cond.Some? { ExprSyms(cond.value, syms1, z1); }
    var syms2 := if cond.None? then syms1 else SymsE(cond.value, syms1);
    assert Codegen.Scope(step, z1.env) == z1.env;
    SymsSStand(step, syms2, z1, true);
    SymsSStand(body, SymsS(step, z1.env, syms2), z1, true);
  }

  lemma {:induction false} SymsAllStand(ss: Stmts, syms: seq<Sym>, z: View, inLoop: bool)
    requires Stands(syms, z.env, z.known, z.fns) && ResolvedAll(ss, z.env, z.fns, inLoop)
    ensures var r := SymsAll(ss, z.env, syms);
      Stands(r, ScopeAll(ss, z.env), z.known, z.fns) && |r| <= |syms| + MarksAll(ss) && syms <= r
  {
    hide Stands, SymsS, ResolvedS, Marks;
    match ss
    case SNil =>
    case SCons(s, tail) =>
      SymsSStand(s, syms, z, inLoop);
      SymsAllStand(tail, SymsS(s, z.env, syms), Grown(z, s), inLoop);
  }

  lemma {:induction false} SitesSBound(st: Stmt, pos: nat, known: Entries)
    ensures |SitesS(st, pos, known)| <= Marks(st)
  {
    hide SitesE, SizeE, SizeS, Calls;
    match st
    case Decl(_, init) => if init.Some? { SitesBound(init.value, pos, known); }
    case Assign(_, _, e) => SitesBound(e, pos, known);
    case ExprStmt(e) => SitesBound(e, pos, known);
    case If(c, t) => SitesBound(c, pos, known); SitesSBound(t, pos + SizeE(c) + 9, known);
    case IfElse(c, t, f) =>
      SitesBound(c, pos, known);
      SitesSBound(t, pos + SizeE(c) + 9, known);
      SitesSBound(f, pos + SizeE(c) + 9 + SizeS(t) + 5, known);
    case While(c, body) => SitesBound(c, pos, known); SitesSBound(body, pos + SizeE(c) + 9, known);
    case For(start, cond, step, body) =>
      var test := pos + SizeS(start);
      var inc := test + SizeTest(cond) + 5;
      SitesSBound(start, pos, known);
      if cond.Some? { SitesBound(cond.value, test, known); }
      SitesSBound(step, inc, known);
      SitesSBound(body, inc + SizeS(step) + 5, known);
    case Return(result) => if result.Some? { SitesBound(result.value, pos, known); }
    case Block(ss) => SitesAllBound(ss, pos, known);
    case _ =>
  }

  lemma {:induction false} SitesAllBound(ss: Stmts, pos: nat, known: Entries)
    ensures |SitesAll(ss, pos, known)| <= MarksAll(ss)
  {
    hide SitesS, SizeS, Marks;
    match ss
    case SNil =>
    case SCons(s, tail) => SitesSBound(s, pos, known); SitesAllBound(tail, pos + SizeS(s), known);
  }

  /** After a statement there is room for those that follow. */
  lemma ReadyAfterS(s: PState, st: Stmt, z: View, inLoop: bool, rest: seq<Token>, size: nat, marks: nat, depth: nat,
      breaks: nat)
    requires ReadyS(s, z, SizeS(st) + size, Marks(st) + marks, depth, |Breaks(st, |s.code|)| + breaks)
    requires ResolvedS(st, z.env, z.fns, inLoop)
    ensures ReadyS(AfterS(s, st, z, rest), Grown(z, st), size, marks, depth, breaks)
  {
    hide Stands, CodeS, SitesS, SymsS, SizeS, Marks, Breaks, ResolvedS, Codegen.Scope;
    SymsSStand(st, s.syms, z, inLoop);
    SitesSBound(st, |s.code|, z.known);
  }

  // ----- round trip: simple statements -----

  ghost predicate SetsS(s: PState, st: Stmt, z: View, inLoop: bool, rest: seq<Token>)
  {
    && s.toks == PrintS(st) + rest
    && ReadyS(s, z, SizeS(st), Marks(st), Depth(st), |Breaks(st, |s.code|)|)
    && ResolvedS(st, z.env, z.fns, inLoop) && (inLoop ==> s.loops != [])
    && (EndsOpen(st) ==> rest == [] || rest[0] != KElse)
  }

  /** A statement without breaks leaves the open loops as they are. */
  lemma NoBreaks(loops: seq<OpenLoop>)
    ensures MoreBreaks(loops, []) == loops
  {
    if loops != [] {
      var d := |loops| - 1;
      assert loops[d].breaks + [] == loops[d].breaks;
    }
  }

  lemma ReadyE(s: PState, z: View, size: nat, marks: nat, depth: nat, breaks: nat)
    requires ReadyS(s, z, size, marks, depth, breaks)
    ensures Ready(s, z, size, marks) && s.status.Ok?
  {
  }

  lemma DeclareView(s: PState, z: View, x: string, size: nat, marks: nat, depth: nat, breaks: nat) returns (s1: PState)
    requires ReadyS(s, z, size, marks + 1, depth, breaks)
    ensures s1 == AddSym(Alloc(s, 4), x, Variable(s.lo - 4, true))
    ensures s1
         == s.(lo := s.lo - 4, deepest := Min(s.deepest, s.lo - 4), syms := s.syms + [Sym(x, Variable(s.lo - 4, true))])
    ensures Ready(s1, z.(env := Declare(z.env, Name(x, true), 4)), size, marks)
  {
    hide Stands;
    DeclareStands(s.syms, z, Name(x, true), 4);
    s1 := AddSym(Alloc(s, 4), x, Variable(s.lo - 4, true));
  }

  lemma StmtIsDecl(s: PState, x: string)
    requires s.status.Ok? && |s.toks| >= 2 && s.toks[0] == KInt && s.toks[1] == TIdent(x)
    ensures ParseStmt(s) == ParseDecl(Shift(s)) && Peek(Shift(s)) == Some(TIdent(x))
  {
    hide ParseDecl, ParseExpr, ParseIf, ParseWhile, ParseFor, ParseBlock, Emit, ParseBreak, ParseContinue, Expect,
         Asm, ParseIdentStmt, ParseReturn;
  }

  lemma DeclAfter(s: PState, st: Stmt, z: View, rest: seq<Token>)
    requires st.Decl? && s.lo == z.env.lo && s.deepest == z.env.deepest
    ensures var env1 := Declare(z.env, Name(st.x, true), 4); var store := Enc(StoreBp(Eax, Wrap(s.lo - 4)));
      var syms1 := s.syms + [Sym(st.x, Variable(s.lo - 4, true))];
      AfterS(s, st, z, rest) == s.(toks := rest, lo := s.lo - 4, deepest := Min(s.deepest, s.lo - 4),
        code := s.code + ((if st.init.None? then Enc(MovImm(0)) else CodeE(st.init.value, env1, |s.code|,
          z.known)) + store),
        syms := if st.init.None? then syms1 else SymsE(st.init.value, syms1),
        patches := s.patches + if st.init.None? then [] else SitesE(st.init.value, |s.code|, z.known))
    ensures SizeS(st) == if st.init.None? then 11 else SizeE(st.init.value) + 6
    ensures Marks(st) == if st.init.None? then 1 else 1 + Calls(st.init.value)
  {
    hide Enc, CodeE, SizeE, SitesE, SymsE, Calls;
    NoBreaks(s.loops);
    DeclFields(z.env, Name(st.x, true), 4);
  }

  lemma DeclParses(s: PState, st: Stmt, z: View, inLoop: bool, rest: seq<Token>)
    requires st.Decl? && SetsS(s, st, z, inLoop, rest)
    ensures ParseStmt(s) == AfterS(s, st, z, rest)
  {
    hide Stands, Enc, ParseExpr, ParseStmt, AfterS, CodeE, SizeE, SizeS, Marks, SitesE, SymsE, Calls, Resolved,
         Print, Declare, AddSym, Alloc, EndsOpen, Depth, Breaks;
    DeclAfter(s, st, z, rest);
    StmtIsDecl(s, st.x);
    if st.init.None? {
      DeclZero(s, st, z, rest);
    } else {
      DeclValue(s, st, z, rest);
    }
  }

  lemma DeclTokens(st: Stmt, rest: seq<Token>)
    requires st.Decl?
    ensures var a := if st.init.None? then [Semi] + rest
                     else [TAsg(None)] + (Print(st.init.value, 0) + ([Semi] + rest));
      var t := PrintS(st) + rest; t == [KInt, TIdent(st.x)] + a && t[1..] == [TIdent(st.x)] + a && t[1..][1..] == a
    ensures ([Semi] + rest)[1..] == rest && |PrintS(st) + rest| >= 3
    ensures var b := PrintS(st) + rest;
      if st.init.None? then b[1..][1] == Semi
      else
        && b[1..][1] == TAsg(None) && b[1..][1..][0] == TAsg(None)
        && b[1..][1..][1..] == Print(st.init.value, 0) + ([Semi] + rest)
  {
    hide Print;
    var a := if st.init.None? then [Semi] + rest else [TAsg(None)] + (Print(st.init.value, 0) + ([Semi] + rest));
    assert PrintS(st) + rest == [KInt, TIdent(st.x)] + a;
    assert ([KInt, TIdent(st.x)] + a)[1..] == [TIdent(st.x)] + a;
  }

  lemma DeclIs(s: PState, x: string)
    requires |s.toks| >= 2 && s.toks[0] == TIdent(x) && s.toks[1] != LBrack
    ensures var s1 := Shift(s); var s2 := AddSym(Alloc(s1, 4), x, Variable(s1.lo - 4, true));
      var store := Enc(StoreBp(Eax, Wrap(s1.lo - 4)));
      ParseDecl(s)
        == Expect(if Sees(s2, TAsg(None)) then Emit(ParseExpr(Shift(s2), 1), store)
                  else Emit(s2, Enc(MovImm(0)) + store), Semi)
  {
    hide Enc, Wrap, Emit, ParseExpr, Expect, Alloc, AddSym;
  }

  lemma DeclZero(s: PState, st: Stmt, z: View, rest: seq<Token>)
    requires st.Decl? && st.init.None? && s.toks == PrintS(st) + rest && ReadyS(s, z, 11, 1, 0, 0)
    ensures ParseDecl(Shift(s)) == AfterS(s, st, z, rest)
  {
    hide *;
    DeclNoInit(s, st, z, rest);
    DeclZeroed(Shift(s), st.x, rest, z);
    DeclAfterZero(s, st, z, rest);
  }

  lemma DeclNoInit(s: PState, st: Stmt, z: View, rest: seq<Token>)
    requires st.Decl? && st.init.None? && s.toks == PrintS(st) + rest && ReadyS(s, z, 11, 1, 0, 0)
    ensures Shift(s) == s.(toks := [TIdent(st.x)] + ([Semi] + rest)) && ReadyS(Shift(s), z, 11, 1, 0, 0)
    ensures s.lo == z.env.lo && s.deepest == z.env.deepest
  {
    hide Stands, PrintS;
    DeclTokens(st, rest);
  }

  /** A variable without an initial value is set to zero. */
  lemma DeclZeroed(s: PState, x: string, rest: seq<Token>, z: View)
    requires s.toks == [TIdent(x)] + ([Semi] + rest) && ReadyS(s, z, 11, 1, 0, 0)
    ensures ParseDecl(s)
         == s.(toks := rest, lo := s.lo - 4, deepest := Min(s.deepest, s.lo - 4),
               code := s.code + (Enc(MovImm(0)) + Enc(StoreBp(Eax, Wrap(s.lo - 4)))),
               syms := s.syms + [Sym(x, Variable(s.lo - 4, true))])
  {
    hide Stands, Enc, Declare, AddSym, Alloc, Emit, Wrap, ParseDecl;
    assert s.toks[1..] == [Semi] + rest && ([Semi] + rest)[1..] == rest;
    DeclIs(s, x);
    var store := Enc(StoreBp(Eax, Wrap(s.lo - 4)));
    var s1 := DeclareView(Shift(s), z, x, 11, 0, 0, 0);
    EmitFits(s1, Enc(MovImm(0)) + store);
  }

  lemma DeclAfterZero(s: PState, st: Stmt, z: View, rest: seq<Token>)
    requires st.Decl? && st.init.None? && s.lo == z.env.lo && s.deepest == z.env.deepest
    ensures AfterS(s, st, z, rest)
         == s.(toks := rest, lo := s.lo - 4, deepest := Min(s.deepest, s.lo - 4),
               code := s.code + (Enc(MovImm(0)) + Enc(StoreBp(Eax, Wrap(s.lo - 4)))),
               syms := s.syms + [Sym(st.x, Variable(s.lo - 4, true))])
  {
    hide Enc, AfterS, Wrap, Declare;
    DeclAfter(s, st, z, rest);
    assert s.patches + [] == s.patches;
  }

  /** The variable is declared before its initial value is read. */
  lemma DeclStart(s: PState, st: Stmt, z: View, rest: seq<Token>) returns (t: PState)
    requires st.Decl? && st.init.Some? && s.toks == PrintS(st) + rest
    requires ReadyS(s, z, SizeE(st.init.value) + 6, 1 + Calls(st.init.value), 0, 0)
    ensures t
         == s.(toks := Print(st.init.value, 0) + ([Semi] + rest), lo := s.lo - 4, deepest := Min(s.deepest, s.lo - 4),
                    syms := s.syms + [Sym(st.x, Variable(s.lo - 4, true))])
    ensures Ready(t, z.(env := Declare(z.env, Name(st.x, true), 4)), SizeE(st.init.value) + 6, Calls(st.init.value))
    ensures ParseDecl(Shift(s)) == Expect(Emit(ParseExpr(t, 1), Enc(StoreBp(Eax, Wrap(s.lo - 4)))), Semi)
  {
    hide *;
    var tail := Print(st.init.value, 0) + ([Semi] + rest);
    DeclShift(s, st, z, rest, SizeE(st.init.value) + 6, 1 + Calls(st.init.value));
    t := DeclBegins(Shift(s), st.x, tail, z, SizeE(st.init.value) + 6, Calls(st.init.value));
  }

  lemma DeclShift(s: PState, st: Stmt, z: View, rest: seq<Token>, size: nat, marks: nat)
    requires st.Decl? && st.init.Some? && s.toks == PrintS(st) + rest && ReadyS(s, z, size, marks, 0, 0)
    ensures var tail := Print(st.init.value, 0) + ([Semi] + rest);
      Shift(s) == s.(toks := [TIdent(st.x)] + ([TAsg(None)] + tail)) && ReadyS(Shift(s), z, size, marks, 0, 0)
  {
    hide Stands, Print, PrintS;
    DeclTokens(st, rest);
  }

  lemma DeclBegins(s: PState, x: string, tail: seq<Token>, z: View, size: nat, marks: nat) returns (t: PState)
    requires s.toks == [TIdent(x)] + ([TAsg(None)] + tail) && ReadyS(s, z, size, marks + 1, 0, 0)
    ensures t
         == s.(toks := tail, lo := s.lo - 4, deepest := Min(s.deepest, s.lo - 4),
               syms := s.syms + [Sym(x, Variable(s.lo - 4, true))])
    ensures Ready(t, z.(env := Declare(z.env, Name(x, true), 4)), size, marks)
    ensures ParseDecl(s) == Expect(Emit(ParseExpr(t, 1), Enc(StoreBp(Eax, Wrap(s.lo - 4)))), Semi)
  {
    hide Stands, Enc, ParseExpr, ParseDecl, Declare, AddSym, Alloc, Emit, Wrap, Expect;
    assert s.toks[1..] == [TAsg(None)] + tail && ([TAsg(None)] + tail)[1..] == tail;
    DeclIs(s, x);
    var s1 := DeclareView(Shift(s), z, x, size, marks, 0, 0);
    t := Shift(s1);
  }

  lemma DeclValue(s: PState, st: Stmt, z: View, rest: seq<Token>)
    requires st.Decl? && st.init.Some? && s.toks == PrintS(st) + rest
    requires ReadyS(s, z, SizeE(st.init.value) + 6, 1 + Calls(st.init.value), 0, 0)
    requires Resolved(st.init.value, Declare(z.env, Name(st.x, true), 4), z.fns)
    ensures ParseDecl(Shift(s)) == AfterS(s, st, z, rest)
  {
    hide Stands, Enc, ParseExpr, ParseDecl, AfterS, CodeE, SizeE, SitesE, SymsE, Calls, Resolved, Print, PrintS,
         Declare, Emit, Wrap, Expect;
    var z1 := z.(env := Declare(z.env, Name(st.x, true), 4));
    var t := DeclStart(s, st, z, rest);
    FullParses(t, st.init.value, z1, [Semi] + rest);
    DeclStores(t, st.init.value, z1, rest, Enc(StoreBp(Eax, Wrap(s.lo - 4))));
    DeclAfter(s, st, z, rest);
  }

  lemma DeclStores(s: PState, e: Expr, z: View, rest: seq<Token>, store: seq<Byte>)
    requires |s.code| + SizeE(e) + |store| <= MAX_CODE
    ensures Expect(Emit(After(s, e, z, [Semi] + rest), store), Semi)
         == After(s, e, z, rest).(code := s.code + (CodeE(e, z.env, |s.code|, z.known) + store))
  {
    hide Emit, CodeE, SizeE, SitesE, SymsE;
    assert ([Semi] + rest)[1..] == rest;
    EmitFits(After(s, e, z, [Semi] + rest), store);
    Cat(s.code, CodeE(e, z.env, |s.code|, z.known), store);
  }

  lemma DeclFields(env: Env, n: Name, size: nat)
    ensures Declare(env, n, size).lo == env.lo - size
    ensures Declare(env, n, size).deepest == Min(env.deepest, env.lo - size)
  {
  }

  lemma ArrayAfter(s: PState, st: Stmt, z: View, rest: seq<Token>)
    requires st.DeclArray? && s.lo == z.env.lo && s.deepest == z.env.deepest
    ensures var n := Align4(4 * st.count);
      AfterS(s, st, z, rest) == s.(toks := rest, lo := s.lo - n, deepest := Min(s.deepest, s.lo - n),
        syms := s.syms + [Sym(st.x, Variable(s.lo - n, false))])
  {
    NoBreaks(s.loops);
    DeclFields(z.env, Name(st.x, false), Align4(4 * st.count));
    assert s.patches + [] == s.patches && s.code + [] == s.code;
  }

  lemma ArrayPrint(st: Stmt, rest: seq<Token>)
    requires st.DeclArray?
    ensures var t := [KInt, TIdent(st.x), LBrack, TNum(Wrap(st.count)), RBrack, Semi] + rest;
      PrintS(st) + rest == t && t[1..][1..] == [LBrack, TNum(Wrap(st.count)), RBrack, Semi] + rest
      && t[1..][1..][1..] == [TNum(Wrap(st.count)), RBrack, Semi] + rest
  {
  }

  lemma ArrayTail(s: PState, x: string, v: Word, rest: seq<Token>)
    requires s.toks == [TNum(v), RBrack, Semi] + rest && v < MAX_ARRAY && |s.syms| < MAX_SYMBOLS
    ensures var n := Align4(4 * v);
      ParseArrayDecl(s, x) == Alloc(s, n).(toks := rest, syms := s.syms + [Sym(x, Variable(s.lo - n, false))])
  {
    hide Align4;
    assert Shift(s).toks == [RBrack, Semi] + rest;
    assert Shift(Shift(s)).toks == [Semi] + rest && ([Semi] + rest)[1..] == rest;
  }

  lemma ArrayParses(s: PState, st: Stmt, z: View, inLoop: bool, rest: seq<Token>)
    requires st.DeclArray? && SetsS(s, st, z, inLoop, rest)
    ensures ParseStmt(s) == AfterS(s, st, z, rest)
  {
    hide Stands, AfterS, ParseStmt, EndsOpen, Depth, Breaks, SizeS, Align4, ParseExpr, Emit, PrintS, ParseArrayDecl,
         AddSym;
    ArrayPrint(st, rest);
    StmtIsDecl(s, st.x);
    ArrayTail(Shift(Shift(Shift(s))), st.x, Wrap(st.count), rest);
    ArrayAfter(s, st, z, rest);
  }

  lemma AssignAfter(s: PState, st: Stmt, z: View, rest: seq<Token>)
    requires st.Assign? && s.lo == z.env.lo && s.deepest == z.env.deepest
    ensures var value := CodeE(st.e, z.env, |s.code|, z.known); var store := Enc(StoreBp(Eax, OffsetOf(z.env, st.x)));
      AfterS(s, st, z, rest)
        == s.(toks := rest, syms := SymsE(st.e, s.syms), patches := s.patches + SitesE(st.e, |s.code|, z.known),
        code := s.code + if st.aop.None? then value + store else value + Update(z.env, st.x, st.aop.value) + store)
  {
    hide Enc, CodeE, SizeE, SitesE, SymsE, Calls, OffsetOf, Update;
    NoBreaks(s.loops);
  }

  /** An assignment up to, not including, its semicolon or parenthesis. */
  lemma AssignParses(s: PState, st: Stmt, z: View, rest: seq<Token>)
    requires st.Assign? && Ends(rest) && s.toks == [TAsg(st.aop)] + (Print(st.e, 0) + rest)
    requires ReadyS(s, z, SizeS(st), Marks(st), 0, 0)
    requires InScope(z.env, st.x) && Resolved(st.e, z.env, z.fns)
    ensures ParseAssign(s, st.x, st.aop) == AfterS(s, st, z, rest)
  {
    hide Enc, ParseExpr, CodeE, SizeE, SizeS, Marks, SitesE, SymsE, Calls, Resolved, Print, FindSym, Lookup,
         UpdateAt, Update, AfterS, BinTail, Stands, Asm, Emit, Wrap, OffsetOf;
    var off := z.env.slots[Lookup(z.env.names, st.x)].off by { LookupRange(z.env.names, st.x); StandsLengths(s.syms,
      z); }
    VarFound(s.syms, z, st.x, off);
    assert Shift(s).toks == Print(st.e, 0) + rest;
    AssignSizes(st);
    FullParses(Shift(s), st.e, z, rest);
    AssignAfter(s, st, z, rest);
    AssignEmits(s, st, z, rest, off);
  }

  lemma AssignEmits(s: PState, st: Stmt, z: View, rest: seq<Token>, off: int)
    requires st.Assign? && OffsetOf(z.env, st.x) == Wrap(off) && |s.code| + SizeS(st) <= MAX_CODE
    ensures var value := CodeE(st.e, z.env, |s.code|, z.known); var store := Enc(StoreBp(Eax, Wrap(off)));
      var s1 := After(s, st.e, z, rest);
      Emit(s1, (if st.aop.None? then [] else UpdateAt(off, st.aop.value)) + store)
      == s1.(code := s.code + if st.aop.None? then value + store else value + Update(z.env, st.x, st.aop.value) + store)
  {
    hide Enc, CodeE, SizeE, SizeS, SitesE, SymsE, UpdateAt, Update, BinTail, Asm, Emit, Wrap, OffsetOf;
    AssignSizes(st);
    var s1 := After(s, st.e, z, rest);
    var store := Enc(StoreBp(Eax, Wrap(off)));
    var value := CodeE(st.e, z.env, |s.code|, z.known);
    if st.aop.None? {
      EmitFits(s1, [] + store);
      Cat(s.code, value, [] + store);
      assert [] + store == store;
    } else {
      var update := UpdateAt(off, st.aop.value);
      UpdateIs(z.env, st.x, st.aop.value, off);
      EmitFits(s1, update + store);
      Cat(s.code, value, update + store);
      Cat(value, update, store);
    }
  }

  lemma Cat(a: seq<Byte>, b: seq<Byte>, c: seq<Byte>)
    ensures a + b + c == a + (b + c)
  {
  }

  lemma StandsLengths(syms: seq<Sym>, z: View)
    requires Stands(syms, z.env, z.known, z.fns)
    ensures |z.env.slots| == |z.env.names|
  {
  }

  /** A declared variable is found in the symbol table with its own offset. */
  lemma VarFound(syms: seq<Sym>, z: View, x: string, off: int)
    requires Stands(syms, z.env, z.known, z.fns)
    requires 0 <= Lookup(z.env.names, x) < |z.env.slots| && off == z.env.slots[Lookup(z.env.names, x)].off
    ensures var k := FindSym(syms, x); k.Some? && k.value.Variable? && k.value.off == off
    ensures OffsetOf(z.env, x) == Wrap(off)
  {
    hide FindSym;
    assert FindSym(syms, x) == VarKind(z.env, x);
  }

  lemma AssignSizes(st: Stmt)
    requires st.Assign?
    ensures SizeS(st) == SizeE(st.e) + (if st.aop.None? then 0 else 10 + Len(BinTail(st.aop.value))) + 6
    ensures Marks(st) == Calls(st.e)
  {
  }

  lemma UpdateIs(env: Env, x: string, op: BinOp, off: int)
    requires OffsetOf(env, x) == Wrap(off)
    ensures UpdateAt(off, op) == Update(env, x, op) && |UpdateAt(off, op)| == 10 + Len(BinTail(op))
  {
  }

  lemma BumpIs(s: PState, st: Stmt, z: View, rest: seq<Token>)
    requires st.BumpStmt? && s.toks == rest && ReadyS(s, z, SizeS(st), Marks(st), 0, 0)
    requires InScope(z.env, st.x)
    ensures EmitBump(s, st.x, st.up) == AfterS(s, st, z, rest)
  {
    hide Enc, Asm, FindSym, Lookup;
    NoBreaks(s.loops);
    var off := z.env.slots[Lookup(z.env.names, st.x)].off;
    LookupRange(z.env.names, st.x);
    assert FindSym(s.syms, st.x) == VarKind(z.env, st.x);
    LenBumping(z.env, st.x, st.up);
    assert Bumping(z.env, st.x, st.up) == BumpAt(off, st.up);
    EmitFits(s, Asm(BumpAt(off, st.up)));
    assert s.patches + [] == s.patches;
  }

  lemma AfterSRest(s: PState, st: Stmt, z: View, rest: seq<Token>, rest1: seq<Token>)
    ensures AfterS(s, st, z, rest).(toks := rest1) == AfterS(s, st, z, rest1) && AfterS(s, st, z, rest).toks == rest
    ensures AfterS(Shift(s), st, z, rest) == AfterS(s, st, z, rest)
    ensures AfterS(Shift(Shift(s)), st, z, rest) == AfterS(s, st, z, rest)
  {
    hide CodeS, SizeS, SitesS, SymsS, Breaks, Codegen.Scope;
  }

  lemma StmtIsNamed(s: PState, x: string)
    requires s.status.Ok? && Peek(s) == Some(TIdent(x))
    ensures ParseStmt(s) == ParseIdentStmt(Shift(s), x)
  {
    hide ParseExpr, ParseDecl, ParseIf, ParseWhile, ParseFor, ParseBlock, ParseIdentStmt, Emit, ParseBreak,
         ParseContinue, ParseType, Expect, Asm, ParseReturn;
  }

  lemma IdentPrint(st: Stmt, rest: seq<Token>)
    requires st.Assign? || st.BumpStmt?
    ensures var a := if st.Assign? then [TAsg(st.aop)] + (Print(st.e, 0) + ([Semi] + rest))
                     else [TInc(st.up)] + ([Semi] + rest);
      && PrintS(st) + rest == [TIdent(st.x)] + a && (PrintS(st) + rest)[1..] == a
      && a[0] == (if st.Assign? then TAsg(st.aop) else TInc(st.up))
    ensures ([TInc(true)] + ([Semi] + rest))[1..] == [Semi] + rest && ([Semi] + rest)[1..] == rest
  {
    hide Print;
    var a := if st.Assign? then [TAsg(st.aop)] + (Print(st.e,
      0) + ([Semi] + rest)) else [TInc(st.up)] + ([Semi] + rest);
    assert PrintS(st) + rest == [TIdent(st.x)] + a;
  }

  lemma AssignStmtParses(s: PState, st: Stmt, z: View, inLoop: bool, rest: seq<Token>)
    requires st.Assign? && SetsS(s, st, z, inLoop, rest)
    ensures ParseStmt(s) == AfterS(s, st, z, rest)
  {
    hide Stands, AfterS, SizeS, Breaks, Marks, Resolved, Print, PrintS, ParseStmt, ParseAssign, EmitBump, Lookup,
         ParseIdent, Depth, EndsOpen;
    IdentPrint(st, rest);
    StmtIsNamed(s, st.x);
    AssignParses(Shift(s), st, z, [Semi] + rest);
    AfterSRest(s, st, z, [Semi] + rest, rest);
  }

  lemma BumpStmtParses(s: PState, st: Stmt, z: View, inLoop: bool, rest: seq<Token>)
    requires st.BumpStmt? && SetsS(s, st, z, inLoop, rest)
    ensures ParseStmt(s) == AfterS(s, st, z, rest)
  {
    hide Stands, AfterS, SizeS, Breaks, Marks, Resolved, Print, PrintS, ParseStmt, ParseAssign, EmitBump, Lookup,
         ParseIdent, Depth, EndsOpen;
    IdentPrint(st, rest);
    StmtIsNamed(s, st.x);
    assert Shift(Shift(s)).toks == [Semi] + rest;
    BumpIs(Shift(Shift(s)), st, z, [Semi] + rest);
    AfterSRest(s, st, z, [Semi] + rest, rest);
  }

  lemma ExprAfter(s: PState, st: Stmt, z: View, rest: seq<Token>)
    requires st.ExprStmt? && s.lo == z.env.lo && s.deepest == z.env.deepest
    ensures AfterS(s, st, z, rest) == After(s, st.e, z, rest)
  {
    hide CodeE, SitesE, SymsE;
    NoBreaks(s.loops);
  }

  lemma {:induction false} FirstKind(e: Expr, k: nat)
    ensures Print(e, k) != []
    ensures var t := Print(e, k)[0];
      t.TNum? || t.TBang? || t.TTilde? || t == TBin(Sub) || t.TInc? || t.LParen? || t.TIdent?
    ensures Print(e, k)[0].TIdent? <==> !NeedsParens(e, k) && FirstIsName(e)
    decreases e, if NeedsParens(e, k) then 1 else 0
  {
    if !NeedsParens(e, k) {
      match e
      case Bin(op, l, _) => FirstKind(l, Prec(op));
      case Cond(c, _, _) => FirstKind(c, 1);
      case _ =>
    }
  }

  /** A statement that starts with neither a name nor a keyword is an expression. */
  lemma StmtIsExpr(s: PState)
    requires s.status.Ok? && s.toks != []
    requires var t := s.toks[0]; t.TNum? || t.TBang? || t.TTilde? || t == TBin(Sub) || t.TInc? || t.LParen?
    ensures ParseStmt(s) == Expect(ParseExpr(s, 1), Semi)
  {
    hide ParseExpr, ParseDecl, ParseIf, ParseWhile, ParseFor, ParseBlock, Emit, ParseBreak, ParseContinue, ParseType,
         Expect, Asm, ParseIdentStmt, ParseReturn;
  }

  lemma StmtIsIdent(s: PState, x: string)
    requires s.status.Ok? && Peek(s) == Some(TIdent(x)) && (Sees(Shift(s), LParen) || Sees(Shift(s), Semi))
    ensures ParseStmt(s) == Expect(ParseIdent(Shift(s), x), Semi)
  {
    hide ParseExpr, ParseDecl, ParseIf, ParseWhile, ParseFor, ParseBlock, ParseIdent, Emit, ParseBreak,
         ParseContinue, ParseType, Expect, ParseReturn;
  }

  lemma ExprStmtParses(s: PState, st: Stmt, z: View, inLoop: bool, rest: seq<Token>)
    requires st.ExprStmt? && SetsS(s, st, z, inLoop, rest)
    ensures ParseStmt(s) == AfterS(s, st, z, rest)
  {
    hide Stands, AfterS, After, ParseStmt, ParseExpr, ParseIdent, Print, SizeE, Calls, Resolved, FirstIsName;
    var e, rest1 := st.e, [Semi] + rest;
    assert s.toks == Print(e, 0) + rest1;
    assert rest1[1..] == rest;
    ExprAfter(s, st, z, rest);
    AfterHas(s, e, z, rest1);
    AfterRest(s, e, z, rest1, rest);
    if e.Call? {
      SamePrint(e);
      CallIdent(s, e, z, rest1);
      StmtIsIdent(s, e.fn);
    } else if e.Var? {
      SamePrint(e);
      VarIdent(s, e, z, rest1);
      StmtIsIdent(s, e.x);
    } else {
      FirstKind(e, 0);
      FullParses(s, e, z, rest1);
      StmtIsExpr(s);
    }
  }

  lemma SamePrint(e: Expr)
    requires e.Call? || e.Var?
    ensures Print(e, 0) == Print(e, 11)
  {
  }

  lemma AfterRest(s: PState, e: Expr, z: View, rest: seq<Token>, rest1: seq<Token>)
    ensures After(s, e, z, rest).(toks := rest1) == After(s, e, z, rest1)
  {
  }

  lemma ReturnAfter(s: PState, st: Stmt, z: View, rest: seq<Token>)
    requires st.Return? && s.lo == z.env.lo && s.deepest == z.env.deepest
    ensures AfterS(s, st, z, rest) == if st.result.None? then s.(toks := rest, code := s.code + Asm(Epilogue))
      else After(s, st.result.value, z, rest).(
             code := s.code + CodeE(st.result.value, z.env, |s.code|, z.known) + Asm(Epilogue))
    ensures SizeS(st) == (if st.result.None? then 0 else SizeE(st.result.value)) + 4
    ensures Marks(st) == if st.result.None? then 0 else Calls(st.result.value)
  {
    hide CodeE, SitesE, SymsE, Asm, SizeE, Calls;
    NoBreaks(s.loops);
    if st.result.None? {
      assert [] + Asm(Epilogue) == Asm(Epilogue) && s.patches + [] == s.patches;
    } else {
      Cat(s.code, CodeE(st.result.value, z.env, |s.code|, z.known), Asm(Epilogue));
    }
  }

  lemma StmtIsReturn(s: PState)
    requires s.status.Ok? && Sees(s, KReturn)
    ensures ParseStmt(s) == ParseReturn(Shift(s))
  {
    hide ParseExpr, ParseDecl, ParseIf, ParseWhile, ParseFor, ParseBlock, Emit, ParseBreak, ParseContinue, ParseType,
         Expect, Asm, ParseIdentStmt, ParseReturn;
  }

  lemma ReturnPrint(st: Stmt, rest: seq<Token>)
    requires st.Return?
    ensures var a := if st.result.None? then [Semi] + rest else Print(st.result.value, 0) + ([Semi] + rest);
      PrintS(st) + rest == [KReturn] + a && (PrintS(st) + rest)[1..] == a && ([Semi] + rest)[1..] == rest
  {
    hide Print;
    var a := if st.result.None? then [Semi] + rest else Print(st.result.value, 0) + ([Semi] + rest);
    assert PrintS(st) + rest == [KReturn] + a;
  }

  lemma ReturnNothing(s: PState, rest: seq<Token>)
    requires s.toks == [Semi] + rest && |s.code| + 4 <= MAX_CODE
    ensures ParseReturn(s) == s.(toks := rest, code := s.code + Asm(Epilogue))
  {
    hide Asm, Emit, ParseExpr;
    LenEpilogue();
    assert s.toks[1..] == rest;
    EmitFits(Shift(s), Asm(Epilogue));
  }

  lemma ReturnValue(s: PState, e: Expr, z: View, rest: seq<Token>)
    requires s.toks == Print(e, 0) + ([Semi] + rest) && Ready(s, z, SizeE(e) + 4, Calls(e)) && Resolved(e, z.env, z.fns)
    ensures ParseReturn(s) == After(s, e, z, rest).(code := s.code + CodeE(e, z.env, |s.code|, z.known) + Asm(Epilogue))
  {
    hide Asm, Emit, ParseExpr, Stands, CodeE, SizeE, SitesE, SymsE, Calls, Resolved, Print;
    LenEpilogue();
    FirstKind(e, 0);
    FullParses(s, e, z, [Semi] + rest);
    assert ([Semi] + rest)[1..] == rest;
    EmitFits(After(s, e, z, rest), Asm(Epilogue));
  }

  lemma ReturnParses(s: PState, st: Stmt, z: View, inLoop: bool, rest: seq<Token>)
    requires st.Return? && SetsS(s, st, z, inLoop, rest)
    ensures ParseStmt(s) == AfterS(s, st, z, rest)
  {
    hide Stands, AfterS, ParseStmt, ParseReturn, Print, PrintS, CodeE, SizeE, SizeS, Marks, Calls, SitesE, SymsE,
         Resolved, Asm, Breaks, Depth, EndsOpen;
    ReturnAfter(s, st, z, rest);
    ReturnPrint(st, rest);
    StmtIsReturn(s);
    match st.result
    case None => ReturnNothing(Shift(s), rest);
    case Some(e) =>
      ReturnValue(Shift(s), e, z, rest);
      AfterToken(s, e, z, rest);
  }

  lemma StmtIsBreak(s: PState)
    requires s.status.Ok? && Sees(s, KBreak)
    ensures ParseStmt(s) == ParseBreak(Shift(s))
  {
    hide ParseExpr, ParseDecl, ParseIf, ParseWhile, ParseFor, ParseBlock, ParseBreak, ParseContinue, ParseType, Emit,
         Expect, Asm, ParseIdentStmt, ParseReturn;
  }

  lemma StmtIsContinue(s: PState)
    requires s.status.Ok? && Sees(s, KContinue)
    ensures ParseStmt(s) == ParseContinue(Shift(s))
  {
    hide ParseExpr, ParseDecl, ParseIf, ParseWhile, ParseFor, ParseBlock, ParseBreak, ParseContinue, ParseType, Emit,
         Expect, Asm, ParseIdentStmt, ParseReturn;
  }

  lemma StmtIsEmpty(s: PState)
    requires s.status.Ok? && Sees(s, Semi)
    ensures ParseStmt(s) == Shift(s)
  {
    hide ParseExpr, ParseDecl, ParseIf, ParseWhile, ParseFor, ParseBlock, ParseBreak, ParseContinue, ParseType, Emit,
         Expect, Asm, ParseIdentStmt, ParseReturn;
  }

  lemma EmptyParses(s: PState, st: Stmt, z: View, inLoop: bool, rest: seq<Token>)
    requires st.Empty? && SetsS(s, st, z, inLoop, rest)
    ensures ParseStmt(s) == AfterS(s, st, z, rest)
  {
    hide Stands, ParseStmt, AfterS;
    StmtIsEmpty(s);
    assert s.toks == [Semi] + rest && s.toks[1..] == rest;
    EmptyAfter(s, st, z, rest);
  }

  lemma JumpPrint(st: Stmt, rest: seq<Token>)
    requires st.Break? || st.Continue?
    ensures var t := PrintS(st) + rest;
      t != [] && t[0] == (if st.Break? then KBreak else KContinue) && t[1..] == [Semi] + rest
    ensures ([Semi] + rest)[1..] == rest
  {
  }

  lemma ContinueParses(s: PState, st: Stmt, z: View, inLoop: bool, rest: seq<Token>)
    requires st.Continue? && SetsS(s, st, z, inLoop, rest)
    ensures ParseStmt(s) == AfterS(s, st, z, rest)
  {
    hide Stands, ParseStmt, Enc, Emit, Rel, PrintS;
    JumpPrint(st, rest);
    StmtIsContinue(s);
    assert s.patches + [] == s.patches;
    EmitFits(Shift(s), Enc(Jmp(Rel(|s.code| + 5, TopCont(s)))));
    NoBreaks(s.loops);
  }

  lemma BreakParses(s: PState, st: Stmt, z: View, inLoop: bool, rest: seq<Token>)
    requires st.Break? && SetsS(s, st, z, inLoop, rest)
    ensures ParseStmt(s) == AfterS(s, st, z, rest)
  {
    hide Stands, ParseStmt, Enc, Emit, PrintS;
    JumpPrint(st, rest);
    StmtIsBreak(s);
    assert s.patches + [] == s.patches;
    EmitFits(Shift(s), Enc(Jmp(0)));
  }

  // ----- patching breaks -----

  function SetJumps(code: seq<Byte>, sites: seq<nat>, target: int): (r: seq<Byte>)
    ensures |r| == |code|
    decreases sites
  {
    if sites == [] then code else SetJumps(Patched(code, sites[0], target - (sites[0] + 4)), sites[1..], target)
  }

  lemma {:induction false} PatchJumpsIs(s: PState, sites: seq<nat>)
    ensures PatchJumps(s, sites) == s.(code := SetJumps(s.code, sites, |s.code|))
    decreases sites
  {
    hide Patched;
    if sites != [] { PatchJumpsIs(PatchJump(s, sites[0]), sites[1..]); }
  }

  lemma {:induction false} SetJumpsTwice(code: seq<Byte>, a: seq<nat>, b: seq<nat>, target: int)
    ensures SetJumps(code, a + b, target) == SetJumps(SetJumps(code, a, target), b, target)
    decreases a
  {
    hide Patched;
    if a == [] {
      assert a + b == b;
    } else {
      assert (a + b)[1..] == a[1..] + b;
      SetJumpsTwice(Patched(code, a[0], target - (a[0] + 4)), a[1..], b, target);
    }
  }

  /** The parts of a for header do not depend on the exits of the loop around it. */
  lemma HeaderCode(st: Stmt, env: Env, pos: nat, q: Exits, r: Exits, known: Entries)
    requires st.Empty? || st.Decl? || st.Assign? || st.BumpStmt?
    ensures CodeS(st, env, pos, q, known) == CodeS(st, env, pos, r, known)
  {
  }

  lemma LoopCode(st: Stmt, env: Env, pos: nat, q: Exits, r: Exits, known: Entries, fns: set<string>, inLoop: bool)
    requires ResolvedS(st, env, fns, inLoop) && !st.Break? && !st.Continue? && !st.If? && !st.IfElse? && !st.Block?
    ensures CodeS(st, env, pos, q, known) == CodeS(st, env, pos, r, known)
  {
    hide Resolved, Storing, Update, CodeE, SizeE, Returning, WhileCode, ForCode, Enc, IfCode, IfElseCode, BumpCode,
         OffsetOf, Asm, Breaks, BinTail;
    if st.For? {
      HeaderCode(st.start, env, pos, q, r, known);
      HeaderCode(st.step, Codegen.Scope(st.start, env), pos + SizeS(st.start) + SizeTest(st.cond) + 5, q, r, known);
      assert CodeS(st, env, pos, q, known) == CodeFor(st, env, pos, q, known);
      assert CodeS(st, env, pos, r, known) == CodeFor(st, env, pos, r, known);
    }
  }

  /** Patching the breaks of `st` gives the code of `st` with the target filled in, and changes nothing around it. */
  lemma {:induction false} FillBreaks(pre: seq<Byte>, st: Stmt, env: Env, cont: int, z: View, post: seq<Byte>,
      target: int, inLoop: bool)
    requires ResolvedS(st, env, z.fns, inLoop)
    ensures SetJumps(pre + CodeS(st, env, |pre|, Exits(None, cont), z.known) + post, Breaks(st, |pre|), target)
         == pre + CodeS(st, env, |pre|, Exits(Some(target), cont), z.known) + post
    decreases st, 1
  {
    hide CodeS, ResolvedS;
    if st.Break? || st.Continue? {
      FillJump(pre, st, env, cont, z, post, target);
    } else if st.If? {
      FillIf(pre, st, env, cont, z, post, target, inLoop);
    } else if st.IfElse? {
      FillIfElse(pre, st, env, cont, z, post, target, inLoop);
    } else if st.Block? {
      BlockCode(st, env, |pre|, Exits(None, cont), z.known);
      BlockCode(st, env, |pre|, Exits(Some(target), cont), z.known);
      BlockResolved(st, env, z.fns, inLoop);
      FillAll(pre, st.ss, env, cont, z, post, target, inLoop);
    } else {
      LoopCode(st, env, |pre|, Exits(None, cont), Exits(Some(target), cont), z.known, z.fns, inLoop);
    }
  }

  lemma BlockCode(st: Stmt, env: Env, pos: nat, q: Exits, known: Entries)
    requires st.Block?
    ensures CodeS(st, env, pos, q, known) == CodeSs(st.ss, env, pos, q, known)
  {
  }

  lemma BlockResolved(st: Stmt, env: Env, fns: set<string>, inLoop: bool)
    requires st.Block? && ResolvedS(st, env, fns, inLoop)
    ensures ResolvedAll(st.ss, env, fns, inLoop)
  {
  }

  lemma FillJump(pre: seq<Byte>, st: Stmt, env: Env, cont: int, z: View, post: seq<Byte>, target: int)
    requires st.Break? || st.Continue?
    ensures SetJumps(pre + CodeS(st, env, |pre|, Exits(None, cont), z.known) + post, Breaks(st, |pre|), target)
         == pre + CodeS(st, env, |pre|, Exits(Some(target), cont), z.known) + post
  {
    hide Enc, Patched;
    if st.Break? {
      SetJmp(pre, post, target - (|pre| + 5));
      assert Breaks(st, |pre|)[1..] == [];
    }
  }

  lemma IfIs(st: Stmt, env: Env, pos: nat, q: Exits, known: Entries)
    requires st.If?
    ensures var pt := pos + SizeE(st.c) + 9; var ct := CodeS(st.t, env, pt, q, known);
      CodeS(st, env, pos, q, known) == CodeE(st.c, env, pos, known) + Test(SizeS(st.t)) + ct && |Test(SizeS(st.t))| == 9
  {
    hide CodeE, SizeE, Enc, ForCode, Storing, Returning, BumpCode, Update, OffsetOf, Asm, WhileCode, IfElseCode;
  }

  lemma {:induction false} FillIf(pre: seq<Byte>, st: Stmt, env: Env, cont: int, z: View, post: seq<Byte>,
      target: int, inLoop: bool)
    requires st.If? && ResolvedS(st, env, z.fns, inLoop)
    ensures SetJumps(pre + CodeS(st, env, |pre|, Exits(None, cont), z.known) + post, Breaks(st, |pre|), target)
         == pre + CodeS(st, env, |pre|, Exits(Some(target), cont), z.known) + post
    decreases st, 0
  {
    hide CodeS, CodeE, SizeE, SizeS, Test, SetJumps, Resolved;
    var q, r := Exits(None, cont), Exits(Some(target), cont);
    IfIs(st, env, |pre|, q, z.known);
    IfIs(st, env, |pre|, r, z.known);
    var head := CodeE(st.c, env, |pre|, z.known) + Test(SizeS(st.t));
    FillBreaks(pre + head, st.t, env, cont, z, post, target, inLoop);
    Cat(pre, head, CodeS(st.t, env, |pre + head|, q, z.known));
    Cat(pre, head, CodeS(st.t, env, |pre + head|, r, z.known));
  }

  lemma IfElseIs(st: Stmt, env: Env, pos: nat, q: Exits, known: Entries)
    requires st.IfElse?
    ensures var pt := pos + SizeE(st.c) + 9; var pf := pt + SizeS(st.t) + 5;
      CodeS(st, env, pos, q, known) == CodeE(st.c, env, pos, known) + Test(SizeS(st.t) + 5)
        + (CodeS(st.t, env, pt, q, known) + Enc(Jmp(Wrap(SizeS(st.f))))
           + CodeS(st.f, Codegen.Scope(st.t, env), pf, q, known))
      && |Test(SizeS(st.t) + 5)| == 9
  {
    hide CodeE, SizeE, Enc, Codegen.Scope, ForCode, Storing, Returning, BumpCode, Update, OffsetOf, Asm, WhileCode,
         IfCode;
  }

  lemma {:induction false} FillIfElse(pre: seq<Byte>, st: Stmt, env: Env, cont: int, z: View, post: seq<Byte>,
      target: int, inLoop: bool)
    requires st.IfElse? && ResolvedS(st, env, z.fns, inLoop)
    ensures SetJumps(pre + CodeS(st, env, |pre|, Exits(None, cont), z.known) + post, Breaks(st, |pre|), target)
         == pre + CodeS(st, env, |pre|, Exits(Some(target), cont), z.known) + post
    decreases st, 0
  {
    hide CodeS, CodeE, SizeE, SizeS, Test, SetJumps, Resolved, Enc, Wrap, Codegen.Scope, EndsOpen;
    var q, r := Exits(None, cont), Exits(Some(target), cont);
    IfElseIs(st, env, |pre|, q, z.known);
    IfElseIs(st, env, |pre|, r, z.known);
    var head := CodeE(st.c, env, |pre|, z.known) + Test(SizeS(st.t) + 5);
    var jump, pt := Enc(Jmp(Wrap(SizeS(st.f)))), |pre| + |head|;
    var pf := pt + SizeS(st.t) + 5;
    var t0, t1 := CodeS(st.t, env, pt, q, z.known), CodeS(st.t, env, pt, r, z.known);
    var env1 := Codegen.Scope(st.t, env);
    var f0, f1 := CodeS(st.f, env1, pf, q, z.known), CodeS(st.f, env1, pf, r, z.known);
    FillBreaks(pre + head, st.t, env, cont, z, jump + f0 + post, target, inLoop);
    FillBreaks(pre + head + t1 + jump, st.f, env1, cont, z, post, target, inLoop);
    SetJumpsTwice(pre + (head + (t0 + jump + f0)) + post, Breaks(st.t, pt), Breaks(st.f, pf), target);
    Regroup(pre, head, t0, jump, f0, post);
    Regroup(pre, head, t1, jump, f0, post);
    Regroup(pre, head, t1, jump, f1, post);
  }

  lemma Regroup(pre: seq<Byte>, head: seq<Byte>, t: seq<Byte>, jump: seq<Byte>, f: seq<Byte>, post: seq<Byte>)
    ensures pre + (head + (t + jump + f)) + post == (pre + head) + t + (jump + f + post)
    ensures pre + (head + (t + jump + f)) + post == (pre + head + t + jump) + f + post
  {
  }

  lemma {:induction false} FillAll(pre: seq<Byte>, ss: Stmts, env: Env, cont: int, z: View, post: seq<Byte>,
      target: int, inLoop: bool)
    requires ResolvedAll(ss, env, z.fns, inLoop)
    ensures SetJumps(pre + CodeSs(ss, env, |pre|, Exits(None, cont), z.known) + post, BreaksAll(ss, |pre|), target)
         == pre + CodeSs(ss, env, |pre|, Exits(Some(target), cont), z.known) + post
    decreases ss, 0
  {
    hide CodeS, SizeS, ResolvedS, Codegen.Scope, Breaks, Patched;
    match ss
    case SNil =>
    case SCons(s, tail) =>
      var q, r := Exits(None, cont), Exits(Some(target), cont);
      var p1, env1 := |pre| + SizeS(s), Codegen.Scope(s, env);
      var s0, s1 := CodeS(s, env, |pre|, q, z.known), CodeS(s, env, |pre|, r, z.known);
      var t0, t1 := CodeSs(tail, env1, p1, q, z.known), CodeSs(tail, env1, p1, r, z.known);
      FillBreaks(pre, s, env, cont, z, t0 + post, target, inLoop);
      FillAll(pre + s1, tail, env1, cont, z, post, target, inLoop);
      SetJumpsTwice(pre + (s0 + t0) + post, Breaks(s, |pre|), BreaksAll(tail, p1), target);
      Regroup2(pre, s0, t0, post);
      Regroup2(pre, s1, t0, post);
      Regroup2(pre, s1, t1, post);
  }

  lemma Regroup2(pre: seq<Byte>, s: seq<Byte>, t: seq<Byte>, post: seq<Byte>)
    ensures pre + (s + t) + post == pre + s + (t + post) == (pre + s) + t + post
  {
  }

  lemma {:induction false} BreaksNone(st: Stmt, env: Env, fns: set<string>, pos: nat)
    requires ResolvedS(st, env, fns, false)
    ensures Breaks(st, pos) == []
  {
    hide Resolved, SizeE, SizeS;
    match st
    case If(c, t) => BreaksNone(t, env, fns, pos + SizeE(c) + 9);
    case IfElse(c, t, f) =>
      BreaksNone(t, env, fns, pos + SizeE(c) + 9);
      BreaksNone(f, Codegen.Scope(t, env), fns, pos + SizeE(c) + 9 + SizeS(t) + 5);
    case Block(ss) => BreaksAllNone(ss, env, fns, pos);
    case _ =>
  }

  lemma {:induction false} BreaksAllNone(ss: Stmts, env: Env, fns: set<string>, pos: nat)
    requires ResolvedAll(ss, env, fns, false)
    ensures BreaksAll(ss, pos) == []
  {
    hide ResolvedS, Breaks, SizeS;
    match ss
    case SNil =>
    case SCons(s, tail) =>
      BreaksNone(s, env, fns, pos);
      BreaksAllNone(tail, Codegen.Scope(s, env), fns, pos + SizeS(s));
  }

  lemma {:induction false} BreaksCount(st: Stmt, p: nat, q: nat)
    ensures |Breaks(st, p)| == |Breaks(st, q)|
  {
    hide SizeE, SizeS;
    match st
    case If(c, t) => BreaksCount(t, p + SizeE(c) + 9, q + SizeE(c) + 9);
    case IfElse(c, t, f) =>
      BreaksCount(t, p + SizeE(c) + 9, q + SizeE(c) + 9);
      BreaksCount(f, p + SizeE(c) + 9 + SizeS(t) + 5, q + SizeE(c) + 9 + SizeS(t) + 5);
    case Block(ss) => BreaksAllCount(ss, p, q);
    case _ =>
  }

  lemma {:induction false} BreaksAllCount(ss: Stmts, p: nat, q: nat)
    ensures |BreaksAll(ss, p)| == |BreaksAll(ss, q)|
  {
    hide Breaks, SizeS;
    match ss
    case SNil =>
    case SCons(s, tail) => BreaksCount(s, p, q); BreaksAllCount(tail, p + SizeS(s), q + SizeS(s));
  }

  // ----- round trip: compound statements -----

  lemma TestPatched(a: seq<Byte>, b: seq<Byte>, v: int)
    ensures Patched(a + Test(0) + b, |a| + 5, v) == a + Test(v) + b && |Test(0)| == |Test(v)| == 9
  {
    hide Enc, Patched;
    var cmp := Enc(CmpImm(Eax, 0));
    SetJcc(a + cmp, b, v);
    Cat(a, cmp, Enc(Jcc(E, 0)));
    Cat(a, cmp, Enc(Jcc(E, Wrap(v))));
  }

  /** The state after a parenthesised condition and its test. */
  function Tested(s: PState, c: Expr, z: View, rest: seq<Token>): PState
  {
    After(s, c, z, rest).(code := s.code + CodeE(c, z.env, |s.code|, z.known) + Test(0))
  }

  lemma ConditionParses(s: PState, c: Expr, z: View, rest: seq<Token>)
    requires s.toks == [LParen] + (Print(c, 0) + ([RParen] + rest))
    requires Ready(s, z, SizeE(c) + 9, Calls(c)) && Resolved(c, z.env, z.fns)
    ensures ParseCondition(s) == (Tested(s, c, z, rest), |s.code| + SizeE(c) + 5)
  {
    hide Stands, Enc, ParseExpr, CodeE, SizeE, SitesE, SymsE, Calls, Resolved, Print, Emit;
    var rest1 := [RParen] + rest;
    assert Shift(s).toks == Print(c, 0) + rest1;
    assert rest1[1..] == rest;
    FullParses(Shift(s), c, z, rest1);
    EmitFits(After(s, c, z, rest), Enc(CmpImm(Eax, 0)) + Enc(Jcc(E, 0)));
  }

  /** After the condition there is room for the rest of the statement. */
  lemma ReadyTested(s: PState, c: Expr, z: View, rest: seq<Token>, size: nat, marks: nat, depth: nat, breaks: nat)
    requires ReadyS(s, z, SizeE(c) + 9 + size, Calls(c) + marks, depth, breaks) && Resolved(c, z.env, z.fns)
    ensures ReadyS(Tested(s, c, z, rest), z, size, marks, depth, breaks)
    ensures |Tested(s, c, z, rest).code| == |s.code| + SizeE(c) + 9
  {
    hide Stands, CodeE, SizeE, SitesE, SymsE, Calls, Resolved, Test;
    TestPatched([], [], 0);
    ReadyAfter(s, c, z, rest, 9 + size, marks);
  }

  lemma StmtIsIf(s: PState)
    requires s.status.Ok? && Sees(s, KIf)
    ensures ParseStmt(s) == ParseIf(Shift(s))
  {
    hide ParseExpr, ParseDecl, ParseIf, ParseWhile, ParseFor, ParseBlock, Emit, ParseBreak, ParseContinue, ParseType,
         Expect, Asm, ParseIdentStmt, ParseReturn;
  }

  lemma IfAfter(s: PState, st: Stmt, z: View, rest: seq<Token>, s1: PState)
    requires st.If? && s.lo == z.env.lo && s.deepest == z.env.deepest && s1 == Tested(s, st.c, z, s1.toks)
    ensures PatchJump(AfterS(s1, st.t, z, rest), |s.code| + SizeE(st.c) + 5) == AfterS(s, st, z, rest)
  {
    hide CodeS, CodeE, SizeE, SizeS, SitesE, SymsE, Test, Patched;
    var q := Exits(None, TopCont(s));
    IfIs(st, z.env, |s.code|, q, z.known);
    var ce := CodeE(st.c, z.env, |s.code|, z.known);
    TestPatched(s.code + ce, CodeS(st.t, z.env, |s1.code|, q, z.known), SizeS(st.t));
    IfRegroup(s.code, ce, Test(SizeS(st.t)), CodeS(st.t, z.env, |s1.code|, q, z.known));
    CatPatches(s.patches, SitesE(st.c, |s.code|, z.known), SitesS(st.t, |s1.code|, z.known));
  }

  lemma IfRegroup(k: seq<Byte>, c: seq<Byte>, test: seq<Byte>, t: seq<Byte>)
    ensures k + c + test + t == k + (c + test + t)
  {
  }

  lemma CatPatches(a: seq<Patch>, b: seq<Patch>, c: seq<Patch>)
    ensures a + b + c == a + (b + c)
  {
  }

  /** The condition is parsed and the branch is next. */
  lemma IfThen(s: PState, st: Stmt, z: View, inLoop: bool, rest: seq<Token>) returns (s1: PState)
    requires st.If? && SetsS(s, st, z, inLoop, rest)
    ensures Sees(s, KIf) && s1 == Tested(Shift(s), st.c, z, PrintS(st.t) + rest) && SetsS(s1, st.t, z, inLoop, rest)
    ensures ParseCondition(Shift(s)) == (s1, |s.code| + SizeE(st.c) + 5) && (rest == [] || rest[0] != KElse)
  {
    hide Stands, ParseStmt, ParseCondition, Tested, SizeE, SizeS, Marks, Depth, Calls, Print, PrintS, Breaks,
         EndsOpen, Codegen.Scope, ResolvedS;
    TestedResolved(st, z, inLoop);
    var s0 := Shift(s);
    var rest1 := PrintS(st.t) + rest;
    assert s0.toks == [LParen] + (Print(st.c, 0) + ([RParen] + rest1)) && Sees(s, KIf) by { IfPrint(st, rest); }
    IfUnfolds(st, z.env, |s.code|);
    ConditionParses(s0, st.c, z, rest1);
    s1 := Tested(s0, st.c, z, rest1);
    ReadyTested(s0, st.c, z, rest1, SizeS(st.t), Marks(st.t), Depth(st.t), |Breaks(st.t, |s.code| + SizeE(st.c) + 9)|);
    TestedHas(s0, st.c, z, rest1);
  }

  lemma {:induction false} IfParses(s: PState, st: Stmt, z: View, inLoop: bool, rest: seq<Token>)
    requires st.If? && SetsS(s, st, z, inLoop, rest)
    ensures ParseStmt(s) == AfterS(s, st, z, rest)
    decreases st, 0
  {
    hide Ready, ParseStmt, ParseCondition, AfterS, Tested, PatchJump, SizeE, SizeS, Marks, Depth, PrintS, ResolvedS,
         Breaks, EndsOpen, Codegen.Scope;
    var s1 := IfThen(s, st, z, inLoop, rest);
    SetsSHas(s, st, z, inLoop, rest);
    StmtIsIf(s);
    StmtParses(s1, st.t, z, inLoop, rest);
    AfterSHas(s1, st.t, z, rest);
    IfAfter(Shift(s), st, z, rest, s1);
    AfterSRest(s, st, z, rest, rest);
  }

  lemma IfPrint(st: Stmt, rest: seq<Token>)
    requires st.If?
    ensures PrintS(st) + rest == [KIf, LParen] + (Print(st.c, 0) + ([RParen] + (PrintS(st.t) + rest)))
    ensures (PrintS(st) + rest)[1..] == [LParen] + (Print(st.c, 0) + ([RParen] + (PrintS(st.t) + rest)))
  {
    hide Print;
    var a := [LParen] + (Print(st.c, 0) + ([RParen] + (PrintS(st.t) + rest)));
    assert PrintS(st) + rest == [KIf] + a;
  }

  lemma IfUnfolds(st: Stmt, env: Env, pos: nat)
    requires st.If?
    ensures Breaks(st, pos) == Breaks(st.t, pos + SizeE(st.c) + 9) && SizeS(st) == SizeE(st.c) + 9 + SizeS(st.t)
    ensures Marks(st) == Calls(st.c) + Marks(st.t) && Depth(st) == Depth(st.t) && EndsOpen(st)
  {
    hide SizeE, Calls;
  }

  lemma TestedHas(s: PState, c: Expr, z: View, rest: seq<Token>)
    ensures Tested(s, c, z, rest).toks == rest && Tested(s, c, z, rest).loops == s.loops
    ensures Tested(s, c, z, rest).lo == s.lo
      && Tested(s, c, z, rest).deepest == s.deepest && Tested(s, c, z, rest).status == s.status
  {
  }

  lemma AfterSHas(s: PState, st: Stmt, z: View, rest: seq<Token>)
    ensures var r := AfterS(s, st, z, rest);
      r.toks == rest && |r.code| == |s.code| + SizeS(st) && |r.loops| == |s.loops| && r.status == s.status
      && r.lo == Codegen.Scope(st, z.env).lo && r.deepest == Codegen.Scope(st, z.env).deepest
      && TopCont(r) == TopCont(s)
  {
    hide CodeS, SizeS, SitesS, SymsS, Breaks, Codegen.Scope;
  }

  // if ... else

  lemma IfElseAfter(s: PState, st: Stmt, z: View, rest: seq<Token>, s1: PState, s2: PState, s3: PState)
    requires st.IfElse? && s.lo == z.env.lo && s.deepest == z.env.deepest && s1 == Tested(s, st.c, z, s1.toks)
    requires s2 == AfterS(s1, st.t, z, s2.toks)
    requires s3 == PatchJump(s2.(toks := s3.toks, code := s2.code + Enc(Jmp(0))), |s.code| + SizeE(st.c) + 5)
    ensures PatchJump(AfterS(s3, st.f, Grown(z, st.t), rest), |s2.code| + 1) == AfterS(s, st, z, rest)
  {
    hide CodeS, CodeE, SizeE, SizeS, SitesE, SitesS, SymsE, SymsS, Test, Patched, Enc, Codegen.Scope, Breaks;
    var q := Exits(None, TopCont(s));
    AfterSHas(s1, st.t, z, s2.toks);
    IfElseIs(st, z.env, |s.code|, q, z.known);
    IfElseUnfolds(st, z.env, |s.code|, z.known, s.syms);
    var k := s.code + CodeE(st.c, z.env, |s.code|, z.known);
    var t := CodeS(st.t, z.env, |s1.code|, q, z.known);
    var env1 := Codegen.Scope(st.t, z.env);
    var f := CodeS(st.f, env1, |s3.code|, q, z.known);
    IfElseCodes(s.code, CodeE(st.c, z.env, |s.code|, z.known), t, f);
    CatPatches(s.patches, SitesE(st.c, |s.code|, z.known), SitesS(st.t, |s1.code|, z.known));
    CatPatches(s.patches, SitesE(st.c, |s.code|, z.known) + SitesS(st.t, |s1.code|, z.known),
        SitesS(st.f, |s3.code|, z.known));
    MoreTwice(s.loops, Breaks(st.t, |s1.code|), Breaks(st.f, |s3.code|));
  }

  lemma IfElseUnfolds(st: Stmt, env: Env, pos: nat, known: Entries, syms: seq<Sym>)
    requires st.IfElse?
    ensures var pt := pos + SizeE(st.c) + 9; var pf := pt + SizeS(st.t) + 5; var env1 := Codegen.Scope(st.t, env);
      && Breaks(st, pos) == Breaks(st.t, pt) + Breaks(st.f, pf)
      && SitesS(st, pos, known) == SitesE(st.c, pos, known) + SitesS(st.t, pt, known) + SitesS(st.f, pf, known)
      && SymsS(st, env, syms) == SymsS(st.f, env1, SymsS(st.t, env, SymsE(st.c, syms)))
      && Codegen.Scope(st, env) == Codegen.Scope(st.f, env1)
      && SizeS(st) == SizeE(st.c) + 9 + SizeS(st.t) + 5 + SizeS(st.f)
      && Marks(st) == Calls(st.c) + Marks(st.t) + Marks(st.f)
      && Depth(st) == Max(Depth(st.t), Depth(st.f)) && EndsOpen(st) == EndsOpen(st.f)
  {
    hide SizeE, SitesE, SymsE, Calls;
  }

  lemma IfElseCodes(k: seq<Byte>, c: seq<Byte>, t: seq<Byte>, f: seq<Byte>)
    ensures var k1 := k + c + Test(0) + t;
      var k2 := Patched(k1 + Enc(Jmp(0)), |k| + |c| + 5, |k1| + 5 - (|k| + |c| + 9)) + f;
      Patched(k2, |k1| + 1, |k2| - (|k1| + 5)) == k + (c + Test(|t| + 5) + (t + Enc(Jmp(Wrap(|f|))) + f))
  {
    hide Enc, Patched, Test;
    var jump := Enc(Jmp(Wrap(|f|)));
    var k1 := k + c + Test(0) + t;
    TestPatched(k + c, t + Enc(Jmp(0)), |t| + 5);
    Cat(k + c + Test(0), t, Enc(Jmp(0)));
    var test := Test(|t| + 5);
    var a := k + c + test + t;
    var k2 := k + c + test + (t + Enc(Jmp(0))) + f;
    Cat(k + c + test, t, Enc(Jmp(0)));
    SetJmp(a, f, |f|);
    assert k + (c + test + (t + jump + f)) == a + jump + f by { JoinIfElse(k, c, test, t, jump, f); }
  }

  lemma JoinIfElse(k: seq<Byte>, c: seq<Byte>, test: seq<Byte>, t: seq<Byte>, jump: seq<Byte>, f: seq<Byte>)
    ensures k + (c + test + (t + jump + f)) == k + c + test + t + jump + f
  {
  }

  lemma MoreTwice(loops: seq<OpenLoop>, a: seq<nat>, b: seq<nat>)
    ensures MoreBreaks(MoreBreaks(loops, a), b) == MoreBreaks(loops, a + b)
  {
    if loops != [] {
      var d := |loops| - 1;
      assert loops[d].breaks + a + b == loops[d].breaks + (a + b);
    }
  }

  lemma TestedResolved(st: Stmt, z: View, inLoop: bool)
    requires (st.If? || st.IfElse? || st.While?) && ResolvedS(st, z.env, z.fns, inLoop)
    ensures Resolved(st.c, z.env, z.fns)
    ensures st.If? || st.IfElse? ==> ResolvedS(st.t, z.env, z.fns, inLoop)
    ensures st.IfElse? ==> ResolvedS(st.f, Grown(z, st.t).env, z.fns, inLoop) && !EndsOpen(st.t)
    ensures st.While? ==> ResolvedS(st.body, z.env, z.fns, true) && |Breaks(st.body, 0)| <= MAX_BREAKS
  {
    hide Resolved, Breaks, EndsOpen;
  }

  lemma IfElseCond(s: PState, st: Stmt, z: View, inLoop: bool, rest: seq<Token>) returns (s1: PState)
    requires st.IfElse? && SetsS(s, st, z, inLoop, rest)
    ensures Sees(s, KIf) && s1 == Tested(Shift(s), st.c, z, PrintS(st.t) + ([KElse] + (PrintS(st.f) + rest)))
    ensures ParseCondition(Shift(s)) == (s1, |s.code| + SizeE(st.c) + 5) && |s1.code| == |s.code| + SizeE(st.c) + 9
    ensures ReadyS(s1, z, SizeS(st.t) + (5 + SizeS(st.f)), Marks(st.t) + Marks(st.f), Depth(st), |Breaks(st, |s.code|)|)
  {
    hide Stands, ParseCondition, Tested, SizeE, SizeS, Marks, Depth, Calls, Print, PrintS, Breaks, EndsOpen,
         Codegen.Scope, ResolvedS;
    TestedResolved(st, z, inLoop);
    var rest1 := PrintS(st.t) + ([KElse] + (PrintS(st.f) + rest));
    IfElsePrint(st, rest);
    IfElseUnfolds(st, z.env, |s.code|, z.known, s.syms);
    ConditionParses(Shift(s), st.c, z, rest1);
    s1 := Tested(Shift(s), st.c, z, rest1);
    ReadyTested(Shift(s), st.c, z, rest1, SizeS(st.t) + (5 + SizeS(st.f)), Marks(st.t) + Marks(st.f), Depth(st),
        |Breaks(st, |s.code|)|);
  }

  lemma IfElseThen(s: PState, st: Stmt, z: View, inLoop: bool, rest: seq<Token>) returns (s1: PState)
    requires st.IfElse? && SetsS(s, st, z, inLoop, rest)
    ensures var rest2 := [KElse] + (PrintS(st.f) + rest);
      Sees(s, KIf) && s1 == Tested(Shift(s), st.c, z, PrintS(st.t) + rest2) && SetsS(s1, st.t, z, inLoop, rest2)
    ensures ParseCondition(Shift(s)) == (s1, |s.code| + SizeE(st.c) + 5) && |s1.code| == |s.code| + SizeE(st.c) + 9
    ensures var pt := |s.code| + SizeE(st.c) + 9;
      ReadyS(s1, z, SizeS(st.t) + (5 + SizeS(st.f)), Marks(st.t) + Marks(st.f), Depth(st.f),
             |Breaks(st.t, pt)| + |Breaks(st.f, pt + SizeS(st.t) + 5)|)
  {
    hide Stands, ParseCondition, Tested, SizeE, SizeS, Marks, Depth, Calls, Print, PrintS, Breaks, EndsOpen,
         Codegen.Scope, ResolvedS;
    TestedResolved(st, z, inLoop);
    IfElseUnfolds(st, z.env, |s.code|, z.known, s.syms);
    s1 := IfElseCond(s, st, z, inLoop, rest);
    TestedHas(Shift(s), st.c, z, PrintS(st.t) + ([KElse] + (PrintS(st.f) + rest)));
  }

  lemma IfElseElse(s: PState, s1: PState, st: Stmt, z: View, inLoop: bool, rest: seq<Token>)
    returns (s2: PState, s3: PState)
    requires st.IfElse? && |s1.code| == |s.code| + SizeE(st.c) + 9 && s1.loops == s.loops
    requires var pt := |s.code| + SizeE(st.c) + 9;
      ReadyS(s1, z, SizeS(st.t) + (5 + SizeS(st.f)), Marks(st.t) + Marks(st.f), Depth(st.f),
             |Breaks(st.t, pt)| + |Breaks(st.f, pt + SizeS(st.t) + 5)|)
    requires SetsS(s, st, z, inLoop, rest)
    ensures s2 == AfterS(s1, st.t, z, [KElse] + (PrintS(st.f) + rest)) && Sees(s2, KElse)
    ensures s3 == PatchJump(Emit(Shift(s2), Enc(Jmp(0))), |s.code| + SizeE(st.c) + 5)
    ensures s3 == PatchJump(s2.(toks := PrintS(st.f) + rest, code := s2.code + Enc(Jmp(0))), |s.code| + SizeE(st.c) + 5)
    ensures SetsS(s3, st.f, Grown(z, st.t), inLoop, rest) && s2.toks == [KElse] + s3.toks
    ensures s3.toks == PrintS(st.f) + rest
  {
    hide Stands, AfterS, SizeE, SizeS, Marks, Depth, Calls, PrintS, Breaks, EndsOpen, Enc, Emit, PatchJump,
         Codegen.Scope, ResolvedS;
    TestedResolved(st, z, inLoop);
    var rest2 := [KElse] + (PrintS(st.f) + rest);
    s2 := AfterS(s1, st.t, z, rest2);
    AfterSHas(s1, st.t, z, rest2);
    var bf := |Breaks(st.f, |s1.code| + SizeS(st.t) + 5)|;
    ReadyAfterS(s1, st.t, z, inLoop, rest2, 5 + SizeS(st.f), Marks(st.f), Depth(st.f), bf);
    s3 := ElseJump(s2, Grown(z, st.t), |s.code| + SizeE(st.c) + 5, SizeS(st.f), Marks(st.f), Depth(st.f), bf,
      PrintS(st.f) + rest);
    IfElseUnfolds(st, z.env, |s.code|, z.known, s.syms);
  }

  lemma {:induction false} IfElseParses(s: PState, st: Stmt, z: View, inLoop: bool, rest: seq<Token>)
    requires st.IfElse? && SetsS(s, st, z, inLoop, rest)
    ensures ParseStmt(s) == AfterS(s, st, z, rest)
    decreases st, 0
  {
    hide Ready, SetsS, ParseStmt, ParseCondition, AfterS, Tested, PatchJump, SizeE, SizeS, Marks, Depth, PrintS,
         ResolvedS, Breaks, EndsOpen, Codegen.Scope, Emit, Enc, Grown;
    SetsSHas(s, st, z, inLoop, rest);
    var s1 := IfElseThen(s, st, z, inLoop, rest);
    StmtIsIf(s);
    var rest2 := [KElse] + (PrintS(st.f) + rest);
    TestedHas(Shift(s), st.c, z, PrintS(st.t) + rest2);
    StmtParses(s1, st.t, z, inLoop, rest2);
    var s2, s3 := IfElseElse(s, s1, st, z, inLoop, rest);
    StmtParses(s3, st.f, Grown(z, st.t), inLoop, rest);
    IfElseAfter(Shift(s), st, z, rest, s1, s2, s3);
    AfterSRest(s, st, z, rest, rest);
  }

  lemma SetsSHas(s: PState, st: Stmt, z: View, inLoop: bool, rest: seq<Token>)
    requires SetsS(s, st, z, inLoop, rest)
    ensures s.status.Ok? && s.lo == z.env.lo && s.deepest == z.env.deepest && s.toks == PrintS(st) + rest
  {
  }

  lemma IfElsePrint(st: Stmt, rest: seq<Token>)
    requires st.IfElse?
    ensures var a := [LParen] + (Print(st.c, 0) + ([RParen] + (PrintS(st.t) + ([KElse] + (PrintS(st.f) + rest)))));
      PrintS(st) + rest == [KIf] + a && (PrintS(st) + rest)[1..] == a
  {
    hide Print;
    var a := [LParen] + (Print(st.c, 0) + ([RParen] + (PrintS(st.t) + ([KElse] + (PrintS(st.f) + rest)))));
    assert PrintS(st) + rest == [KIf] + a;
  }

  /** The jump over the else branch; the failed condition leads behind it. */
  lemma ElseJump(s: PState, z: View, site: nat, size: nat, marks: nat, depth: nat, breaks: nat,
      rest: seq<Token>) returns (r: PState)
    requires s.toks == [KElse] + rest && ReadyS(s, z, 5 + size, marks, depth, breaks)
    ensures Sees(s, KElse) && r == PatchJump(Emit(Shift(s), Enc(Jmp(0))), site)
    ensures r == PatchJump(s.(toks := rest, code := s.code + Enc(Jmp(0))), site)
    ensures r.toks == rest && r.loops == s.loops && |r.code| == |s.code| + 5 && ReadyS(r, z, size, marks, depth, breaks)
  {
    hide Stands, Enc, Emit, Patched;
    assert Shift(s).toks == rest;
    EmitFits(Shift(s), Enc(Jmp(0)));
    r := PatchJump(Emit(Shift(s), Enc(Jmp(0))), site);
  }

  // while

  lemma StmtIsWhile(s: PState)
    requires s.status.Ok? && Sees(s, KWhile)
    ensures ParseStmt(s) == ParseWhile(Shift(s))
  {
    hide ParseExpr, ParseDecl, ParseIf, ParseWhile, ParseFor, ParseBlock, Emit, ParseBreak, ParseContinue, ParseType,
         Expect, Asm, ParseIdentStmt, ParseReturn;
  }

  lemma WhilePrint(st: Stmt, rest: seq<Token>)
    requires st.While?
    ensures var a := [LParen] + (Print(st.c, 0) + ([RParen] + (PrintS(st.body) + rest)));
      PrintS(st) + rest == [KWhile] + a && (PrintS(st) + rest)[1..] == a
  {
    hide Print;
    var a := [LParen] + (Print(st.c, 0) + ([RParen] + (PrintS(st.body) + rest)));
    assert PrintS(st) + rest == [KWhile] + a;
  }

  lemma WhileUnfolds(st: Stmt, env: Env, pos: nat, known: Entries, syms: seq<Sym>)
    requires st.While?
    ensures Breaks(st, pos) == [] && SizeS(st) == SizeE(st.c) + 9 + SizeS(st.body) + 5
    ensures Marks(st) == Calls(st.c) + Marks(st.body) && Depth(st) == 1 + Depth(st.body)
    ensures EndsOpen(st) == EndsOpen(st.body)
    ensures SitesS(st, pos, known) == SitesE(st.c, pos, known) + SitesS(st.body, pos + SizeE(st.c) + 9, known)
    ensures SymsS(st, env, syms) == SymsS(st.body, env, SymsE(st.c, syms))
    ensures Codegen.Scope(st, env) == Codegen.Scope(st.body, env)
  {
    hide SizeE, SitesE, SymsE, Calls;
  }

  lemma WhileIs(st: Stmt, env: Env, pos: nat, q: Exits, known: Entries)
    requires st.While?
    ensures var size := SizeE(st.c) + 9 + SizeS(st.body) + 5;
      CodeS(st, env, pos, q, known) == CodeE(st.c, env, pos, known) + Test(SizeS(st.body) + 5)
        + (CodeS(st.body, env, pos + SizeE(st.c) + 9, Exits(Some(pos + size), pos), known) + Enc(Jmp(Wrap(0 - size))))
  {
    hide CodeE, CodeS, SizeE, SizeS, Enc, Test, WhileCode;
    WhileCodeIs(st, env, pos, q, known);
    WhileBytes(CodeE(st.c, env, pos, known),
        CodeS(st.body, env, pos + SizeE(st.c) + 9,
              Exits(Some(pos + (SizeE(st.c) + 9 + SizeS(st.body) + 5)), pos), known));
  }

  lemma WhileCodeIs(st: Stmt, env: Env, pos: nat, q: Exits, known: Entries)
    requires st.While?
    ensures var end := pos + (SizeE(st.c) + 9 + SizeS(st.body) + 5);
      CodeS(st, env, pos, q, known) == WhileCode(CodeE(st.c, env, pos, known),
          CodeS(st.body, env, pos + SizeE(st.c) + 9, Exits(Some(end), pos), known))
  {
    hide CodeE, SizeE, Enc, Test, WhileCode, ForCode, Storing, Returning, BumpCode, Update, OffsetOf, Asm, IfCode,
         IfElseCode;
  }

  lemma WhileBytes(c: seq<Byte>, body: seq<Byte>)
    ensures var size := |c| + 9 + |body| + 5;
      WhileCode(c, body) == c + Test(|body| + 5) + (body + Enc(Jmp(Wrap(0 - size))))
  {
    hide Enc, Test;
  }

  /** The state at the start of a loop body, inside the loop that goes on at `cont`. */
  lemma Opened(s: PState, z: View, cont: nat, size: nat, marks: nat, depth: nat, body: Stmt, pos: nat)
    requires ReadyS(s, z, size, marks, 1 + depth, 0) && |Breaks(body, 0)| <= MAX_BREAKS
    ensures OpenLoopAt(s, cont) == s.(loops := s.loops + [OpenLoop(cont, [])])
    ensures ReadyS(OpenLoopAt(s, cont), z, size, marks, depth, |Breaks(body, pos)|)
  {
    hide Stands, Breaks;
    BreaksCount(body, pos, 0);
  }

  lemma WhileBody(s: PState, st: Stmt, z: View, inLoop: bool, rest: seq<Token>) returns (s1: PState)
    requires st.While? && SetsS(s, st, z, inLoop, rest)
    ensures Sees(s, KWhile) && s1 == Tested(OpenLoopAt(Shift(s), |s.code|), st.c, z, PrintS(st.body) + rest)
    ensures s1.loops == s.loops + [OpenLoop(|s.code|, [])] && |s1.code| == |s.code| + SizeE(st.c) + 9
    ensures SetsS(s1, st.body, z, true, rest)
    ensures ParseCondition(OpenLoopAt(Shift(s), |s.code|)) == (s1, |s.code| + SizeE(st.c) + 5)
    ensures |s1.code| + SizeS(st.body) + 5 <= MAX_CODE
  {
    hide Stands, ParseCondition, Tested, SizeE, SizeS, Marks, Depth, Calls, Print, PrintS, Breaks, EndsOpen,
         Codegen.Scope, OpenLoopAt, ResolvedS;
    TestedResolved(st, z, inLoop);
    var s0, rest1 := Shift(s), PrintS(st.body) + rest;
    assert s0.toks == [LParen] + (Print(st.c, 0) + ([RParen] + rest1)) && Sees(s, KWhile) by { WhilePrint(st, rest); }
    WhileUnfolds(st, z.env, |s.code|, z.known, s.syms);
    var pb := |s.code| + SizeE(st.c) + 9;
    Opened(s0, z, |s.code|, SizeS(st), Marks(st), Depth(st.body), st.body, pb);
    var o := OpenLoopAt(s0, |s.code|);
    ConditionParses(o, st.c, z, rest1);
    s1 := Tested(o, st.c, z, rest1);
    ReadyTested(o, st.c, z, rest1, SizeS(st.body) + 5, Marks(st.body), Depth(st.body), |Breaks(st.body, pb)|);
    TestedHas(o, st.c, z, rest1);
  }

  /** Closing the loop fills in its breaks and forgets it. */
  lemma CloseLoopIs(s: PState, loops: seq<OpenLoop>, cont: nat, breaks: seq<nat>)
    requires s.loops == MoreBreaks(loops + [OpenLoop(cont, [])], breaks)
    ensures CloseLoop(s, |loops|) == s.(loops := loops, code := SetJumps(s.code, breaks, |s.code|))
  {
    hide PatchJumps, SetJumps;
    var open := loops + [OpenLoop(cont, [])];
    assert [] + breaks == breaks;
    assert s.loops[|loops|] == OpenLoop(cont, breaks);
    assert s.loops[..|loops|] == loops;
    PatchJumpsIs(s, breaks);
  }

  lemma WhileAfter(s: PState, st: Stmt, z: View, rest: seq<Token>, s1: PState, s2: PState)
    requires st.While? && s1 == Tested(s.(loops := s.loops + [OpenLoop(|s.code|, [])]), st.c, z, s1.toks)
    requires s2 == AfterS(s1, st.body, z, rest) && ResolvedS(st.body, z.env, z.fns, true)
    ensures CloseLoop(PatchJump(s2.(code := s2.code + Enc(Jmp(Rel(|s2.code| + 5, |s.code|)))),
                                |s.code| + SizeE(st.c) + 5), |s.loops|)
         == AfterS(s, st, z, rest)
  {
    hide CodeS, CodeE, SizeE, SizeS, SitesE, SitesS, SymsE, SymsS, Test, Patched, Enc, Codegen.Scope, Breaks,
         SetJumps, CloseLoop, ResolvedS, MoreBreaks, Wrap;
    WhileUnfolds(st, z.env, |s.code|, z.known, s.syms);
    NoBreaks(s.loops);
    TestPatched([], [], 0);
    CatPatches(s.patches, SitesE(st.c, |s.code|, z.known), SitesS(st.body, |s1.code|, z.known));
    var pb := |s.code| + SizeE(st.c) + 9;
    var t := PatchJump(s2.(code := s2.code + Enc(Jmp(Rel(|s2.code| + 5, |s.code|)))), |s.code| + SizeE(st.c) + 5);
    CloseLoopIs(t, s.loops, |s.code|, Breaks(st.body, pb));
    TestPatched2(s.code + CodeE(st.c, z.env, |s.code|, z.known),
                 CodeS(st.body, z.env, pb, Exits(None, |s.code|), z.known),
                 Enc(Jmp(Rel(|s2.code| + 5, |s.code|))), SizeS(st.body) + 5);
    WhileCodes(s.code, st, z, Exits(None, TopCont(s)));
  }

  lemma WhileCodes(k: seq<Byte>, st: Stmt, z: View, q: Exits)
    requires st.While? && ResolvedS(st.body, z.env, z.fns, true)
    ensures var pb := |k| + SizeE(st.c) + 9; var end := pb + SizeS(st.body) + 5;
      SetJumps(k + CodeE(st.c, z.env, |k|, z.known) + Test(SizeS(st.body) + 5)
        + CodeS(st.body, z.env, pb, Exits(None, |k|), z.known) + Enc(Jmp(Rel(end, |k|))), Breaks(st.body, pb), end)
      == k + CodeS(st, z.env, |k|, q, z.known)
  {
    hide CodeS, CodeE, SizeE, SizeS, Test, Enc, Breaks, SetJumps, ResolvedS, Wrap;
    var c, test := CodeE(st.c, z.env, |k|, z.known), Test(SizeS(st.body) + 5);
    TestPatched([], [], SizeS(st.body) + 5);
    var pre := k + c + test;
    var end := |pre| + SizeS(st.body) + 5;
    var jump := Enc(Jmp(Rel(end, |k|)));
    FillBreaks(pre, st.body, z.env, |k|, z, jump, end, true);
    WhileIs(st, z.env, |k|, q, z.known);
    WhileRegroup(k, c, test, CodeS(st.body, z.env, |pre|, Exits(Some(end), |k|), z.known), jump);
  }

  lemma TestPatched2(a: seq<Byte>, b: seq<Byte>, c: seq<Byte>, v: int)
    ensures Patched(a + Test(0) + b + c, |a| + 5, v) == a + Test(v) + b + c && |Test(v)| == 9
  {
    hide Test, Patched;
    Cat(a + Test(0), b, c);
    TestPatched(a, b + c, v);
    Cat(a + Test(v), b, c);
  }

  lemma WhileRegroup(k: seq<Byte>, c: seq<Byte>, test: seq<Byte>, b: seq<Byte>, jump: seq<Byte>)
    ensures k + c + test + b + jump == k + (c + test + (b + jump))
  {
  }

  lemma {:induction false} WhileParses(s: PState, st: Stmt, z: View, inLoop: bool, rest: seq<Token>)
    requires st.While? && SetsS(s, st, z, inLoop, rest)
    ensures ParseStmt(s) == AfterS(s, st, z, rest)
    decreases st, 0
  {
    hide Ready, ParseStmt, ParseCondition, AfterS, Tested, PatchJump, CloseLoop, SizeE, SizeS, Marks, Depth, PrintS,
         Breaks, EndsOpen, Codegen.Scope, Emit, Enc, Rel, ResolvedS;
    TestedResolved(st, z, inLoop);
    SetsSHas(s, st, z, inLoop, rest);
    var s1 := WhileBody(s, st, z, inLoop, rest);
    StmtIsWhile(s);
    StmtParses(s1, st.body, z, true, rest);
    AfterSHas(s1, st.body, z, rest);
    var s2 := AfterS(s1, st.body, z, rest);
    EmitFits(s2, Enc(Jmp(Rel(|s2.code| + 5, |s.code|))));
    WhileAfter(Shift(s), st, z, rest, s1, s2);
    AfterSRest(s, st, z, rest, rest);
  }

  // for

  lemma StmtIsFor(s: PState)
    requires s.status.Ok? && Sees(s, KFor)
    ensures ParseStmt(s) == ParseFor(Shift(s))
  {
    hide ParseExpr, ParseDecl, ParseIf, ParseWhile, ParseFor, ParseBlock, Emit, ParseBreak, ParseContinue, ParseType,
         Expect, Asm, ParseIdentStmt, ParseReturn;
  }

  predicate IsHeader(st: Stmt) { st.Empty? || st.Decl? || st.Assign? || st.BumpStmt? }

  lemma HeaderFacts(st: Stmt, pos: nat)
    requires IsHeader(st)
    ensures Breaks(st, pos) == [] && Depth(st) == 0 && !EndsOpen(st)
  {
  }

  /** The start of a for loop is read like a statement of its own. */
  lemma StartParses(s: PState, st: Stmt, z: View, inLoop: bool, rest: seq<Token>)
    requires (st.Empty? || st.Decl? || st.Assign?) && SetsS(s, st, z, inLoop, rest)
    ensures ParseStart(s) == AfterS(s, st, z, rest)
  {
    hide Ready, AfterS, ParseStmt, ParseDecl, ParseAssign, ParseIdent, Print, SizeS, Marks, Breaks, Depth, EndsOpen,
         ResolvedS, EmitBump;
    SetsSHas(s, st, z, inLoop, rest);
    if st.Empty? {
      EmptyParses(s, st, z, inLoop, rest);
      StmtIsEmpty(s);
    } else if st.Decl? {
      DeclParses(s, st, z, inLoop, rest);
      DeclPrint(st, rest);
      StmtIsDecl(s, st.x);
    } else {
      AssignStmtParses(s, st, z, inLoop, rest);
      AssignPrint(st, rest);
      StmtIsNamed(s, st.x);
    }
  }

  lemma DeclPrint(st: Stmt, rest: seq<Token>)
    requires st.Decl?
    ensures var t := PrintS(st) + rest; |t| >= 3 && t[0] == KInt && t[1] == TIdent(st.x)
  {
    hide Print;
  }

  lemma AssignPrint(st: Stmt, rest: seq<Token>)
    requires st.Assign?
    ensures var t := PrintS(st) + rest; |t| >= 2 && t[0] == TIdent(st.x) && t[1] == TAsg(st.aop)
  {
    hide Print;
  }

  /** The condition of a for loop, if there is one, and its semicolon. */
  function PrintCond(cond: Option<Expr>): seq<Token> { if cond.None? then [Semi] else Print(cond.value, 0) + [Semi] }

  function CallsCond(cond: Option<Expr>): nat { if cond.None? then 0 else Calls(cond.value) }

  function CodeCond(cond: Option<Expr>, env: Env, pos: nat, known: Entries, skip: int): (code: seq<Byte>)
    ensures |code| == SizeTest(cond)
  {
    hide Enc;
    if cond.None? then [] else CodeE(cond.value, env, pos, known) + Test(skip)
  }

  function Headed(s: PState, cond: Option<Expr>, z: View, rest: seq<Token>): PState
  {
    if cond.None? then s.(toks := rest) else Tested(s, cond.value, z, rest)
  }

  lemma HeadParses(s: PState, cond: Option<Expr>, z: View, rest: seq<Token>)
    requires s.toks == PrintCond(cond) + rest && Ready(s, z, SizeTest(cond), CallsCond(cond))
    requires cond.Some? ==> Resolved(cond.value, z.env, z.fns)
    ensures ParseHead(s)
         == (Headed(s, cond, z, rest), if cond.None? then None else Some(|s.code| + SizeE(cond.value) + 5))
  {
    hide Stands, Enc, ParseExpr, CodeE, SizeE, SitesE, SymsE, Calls, Resolved, Print, Emit, Test;
    if cond.None? {
      assert s.toks[1..] == rest;
    } else {
      var rest1 := [Semi] + rest;
      assert s.toks == Print(cond.value, 0) + rest1 && rest1[1..] == rest;
      FirstKind(cond.value, 0);
      FullParses(s, cond.value, z, rest1);
      TestIs();
      EmitFits(After(s, cond.value, z, rest1), Test(0));
    }
  }

  lemma TestIs()
    ensures Test(0) == Enc(CmpImm(Eax, 0)) + Enc(Jcc(E, 0)) && |Test(0)| == 9
  {
  }

  lemma ReadyHeaded(s: PState, cond: Option<Expr>, z: View, rest: seq<Token>, size: nat, marks: nat, depth: nat,
      breaks: nat)
    requires ReadyS(s, z, SizeTest(cond) + size, CallsCond(cond) + marks, depth, breaks)
    requires cond.Some? ==> Resolved(cond.value, z.env, z.fns)
    ensures ReadyS(Headed(s, cond, z, rest), z, size, marks, depth, breaks)
    ensures var r := Headed(s, cond, z, rest);
      |r.code| == |s.code| + SizeTest(cond) && r.loops == s.loops && r.toks == rest
  {
    hide Stands, CodeE, SizeE, SitesE, SymsE, Calls, Resolved, Tested;
    if cond.Some? {
      ReadyTested(s, cond.value, z, rest, size, marks, depth, breaks);
      TestedHas(s, cond.value, z, rest);
    }
  }

  lemma StepPrint(st: Stmt, rest: seq<Token>)
    requires st.Empty? || st.Assign? || st.BumpStmt?
    ensures var t := Unended(st) + rest;
      if st.Empty? then t == rest
      else
        && |t| >= 2 && t[0] == TIdent(st.x)
        && t[1..] == if st.Assign? then [TAsg(st.aop)] + (Print(st.e, 0) + rest) else [TInc(st.up)] + rest
    ensures ([TInc(true)] + rest)[1..] == rest
  {
    hide Print;
    if st.Assign? {
      assert Unended(st) + rest == [TIdent(st.x)] + ([TAsg(st.aop)] + (Print(st.e, 0) + rest));
    }
  }

  /** The step of a for loop and the parenthesis after it. */
  lemma StepParses(s: PState, st: Stmt, z: View, rest: seq<Token>)
    requires (st.Empty? || st.Assign? || st.BumpStmt?) && s.toks == Unended(st) + ([RParen] + rest)
    requires ReadyS(s, z, SizeS(st), Marks(st), 0, 0) && ResolvedS(st, z.env, z.fns, true)
    ensures Expect(ParseStep(s), RParen) == AfterS(s, st, z, rest)
  {
    hide Stands, AfterS, SizeS, Marks, Resolved, Print, Unended, ParseAssign, EmitBump, Lookup;
    var rest1 := [RParen] + rest;
    assert rest1[1..] == rest;
    AfterSRest(s, st, z, rest1, rest);
    StepPrint(st, rest1);
    if st.Empty? {
      EmptyAfter(s, st, z, rest);
    } else if st.Assign? {
      AssignParses(Shift(s), st, z, rest1);
    } else {
      StepBumps(s, st, z, rest1);
    }
  }

  lemma StepBumps(s: PState, st: Stmt, z: View, rest: seq<Token>)
    requires st.BumpStmt? && s.toks == Unended(st) + rest
    requires ReadyS(s, z, SizeS(st), Marks(st), 0, 0) && ResolvedS(st, z.env, z.fns, true)
    ensures ParseStep(s) == AfterS(s, st, z, rest)
  {
    hide Stands, AfterS, SizeS, Marks, Resolved, Print, Unended, ParseAssign, EmitBump, Lookup;
    StepPrint(st, rest);
    assert Shift(Shift(s)).toks == rest;
    AfterSRest(s, st, z, rest, rest);
    BumpIs(Shift(Shift(s)), st, z, rest);
  }

  lemma EmptyAfter(s: PState, st: Stmt, z: View, rest: seq<Token>)
    requires st.Empty? && s.lo == z.env.lo && s.deepest == z.env.deepest
    ensures AfterS(s, st, z, rest) == s.(toks := rest)
  {
    assert s.patches + [] == s.patches && s.code + [] == s.code;
    NoBreaks(s.loops);
  }

  function StepToks(st: Stmt, rest: seq<Token>): seq<Token>
    requires st.For?
  {
    Unended(st.step) + ([RParen] + (PrintS(st.body) + rest))
  }

  lemma ForPrint(st: Stmt, rest: seq<Token>)
    requires st.For?
    ensures var a := PrintS(st.start) + (PrintCond(st.cond) + StepToks(st, rest));
      && PrintS(st) + rest == [KFor] + ([LParen] + a) && (PrintS(st) + rest)[1..] == [LParen] + a
      && ([LParen] + a)[1..] == a
  {
    hide PrintCond, Unended;
    var b := Unended(st.step) + ([RParen] + PrintS(st.body));
    assert PrintS(st) == [KFor] + ([LParen] + (PrintS(st.start) + (PrintCond(st.cond) + b))) by { ForTokens(st); }
    CatTokens([RParen], PrintS(st.body), rest);
    CatTokens(Unended(st.step), [RParen] + PrintS(st.body), rest);
    CatTokens(PrintCond(st.cond), b, rest);
    CatTokens(PrintS(st.start), PrintCond(st.cond) + b, rest);
    CatTokens([LParen], PrintS(st.start) + (PrintCond(st.cond) + b), rest);
    CatTokens([KFor], [LParen] + (PrintS(st.start) + (PrintCond(st.cond) + b)), rest);
  }

  lemma ForTokens(st: Stmt)
    requires st.For?
    ensures PrintS(st)
         == [KFor] + ([LParen] + (PrintS(st.start) + (PrintCond(st.cond)
                      + (Unended(st.step) + ([RParen] + PrintS(st.body))))))
  {
    hide Print, Unended;
    var a := PrintS(st.start) + (PrintCond(st.cond) + (Unended(st.step) + ([RParen] + PrintS(st.body))));
    assert PrintS(st) == [KFor, LParen] + a;
    assert [KFor, LParen] + a == [KFor] + ([LParen] + a);
  }

  lemma CatTokens(a: seq<Token>, b: seq<Token>, c: seq<Token>)
    ensures a + b + c == a + (b + c)
  {
  }

  lemma ForUnfolds(st: Stmt, pos: nat)
    requires st.For?
    ensures Breaks(st, pos) == [] && Depth(st) == 1 + Depth(st.body) && EndsOpen(st) == EndsOpen(st.body)
    ensures SizeS(st) == SizeS(st.start) + (SizeTest(st.cond) + (5 + (SizeS(st.step) + (5 + (SizeS(st.body) + 5)))))
    ensures Marks(st) == Marks(st.start) + (CallsCond(st.cond) + (Marks(st.step) + Marks(st.body)))
  {
    hide SizeE, Calls;
  }

  lemma ForResolved(st: Stmt, z: View, inLoop: bool)
    requires st.For? && ResolvedS(st, z.env, z.fns, inLoop)
    ensures var z1 := Grown(z, st.start);
      && (st.start.Empty? || st.start.Decl? || st.start.Assign?)
      && (st.step.Empty? || st.step.Assign? || st.step.BumpStmt?)
      && ResolvedS(st.start, z.env, z.fns, inLoop) && (st.cond.Some? ==> Resolved(st.cond.value, z1.env, z.fns))
      && ResolvedS(st.step, z1.env, z.fns, true) && ResolvedS(st.body, z1.env, z.fns, true)
      && |Breaks(st.body, 0)| <= MAX_BREAKS && Codegen.Scope(st.step, z1.env) == z1.env
  {
    hide Resolved, Breaks;
  }

  /** The start and the condition of a for loop. */
  lemma ForTest(s: PState, st: Stmt, z: View, inLoop: bool, rest: seq<Token>) returns (s1: PState, s2: PState)
    requires st.For? && SetsS(s, st, z, inLoop, rest)
    ensures var z1 := Grown(z, st.start);
      && s1 == AfterS(s, st.start, z, PrintCond(st.cond) + StepToks(st, rest))
      && s2 == Headed(s1, st.cond, z1, StepToks(st, rest))
      && |s1.code| == |s.code| + SizeS(st.start) && |s2.code| == |s1.code| + SizeTest(st.cond) && s2.loops == s.loops
      && ReadyS(s2, z1, 5 + (SizeS(st.step) + (5 + (SizeS(st.body) + 5))), Marks(st.step) + Marks(st.body),
                1 + Depth(st.body), 0)
    ensures Sees(s, KFor) && ParseStart(Expect(Shift(s), LParen)) == s1
    ensures ParseHead(s1) == (s2, if st.cond.None? then None else Some(|s1.code| + SizeE(st.cond.value) + 5))
  {
    hide Stands, AfterS, SizeS, SizeE, SizeTest, CallsCond, Breaks, Depth, Marks, Resolved, ResolvedS, PrintS,
         PrintCond, StepToks, EndsOpen, ParseStart, ParseHead, Headed, ParseExpr, Codegen.Scope;
    ForPrint(st, rest);
    ForUnfolds(st, |s.code|);
    ForResolved(st, z, inLoop);
    HeaderFacts(st.start, |s.code|);
    var toks1 := PrintCond(st.cond) + StepToks(st, rest);
    var s0 := Shift(Shift(s));
    StartParses(s0, st.start, z, inLoop, toks1);
    var size, marks := 5 + (SizeS(st.step) + (5 + (SizeS(st.body) + 5))), Marks(st.step) + Marks(st.body);
    ReadyAfterS(s0, st.start, z, inLoop, toks1, SizeTest(st.cond) + size, CallsCond(st.cond) + marks,
        1 + Depth(st.body), 0);
    AfterSRest(s, st.start, z, toks1, toks1);
    s1 := AfterS(s0, st.start, z, toks1);
    AfterSHas(s0, st.start, z, toks1);
    StartLoops(s0, st.start, z, toks1);
    HeadParses(s1, st.cond, Grown(z, st.start), StepToks(st, rest));
    ReadyHeaded(s1, st.cond, Grown(z, st.start), StepToks(st, rest), size, marks, 1 + Depth(st.body), 0);
    s2 := Headed(s1, st.cond, Grown(z, st.start), StepToks(st, rest));
  }

  lemma StartLoops(s: PState, st: Stmt, z: View, rest: seq<Token>)
    requires IsHeader(st)
    ensures AfterS(s, st, z, rest).loops == s.loops
  {
    hide CodeS, SizeS, SitesS, SymsS, Codegen.Scope;
    NoBreaks(s.loops);
  }

  /** The loop is open; `continue` goes to the step that comes next. */
  lemma ForOpen(s2: PState, st: Stmt, z: View) returns (s3: PState)
    requires st.For? && |Breaks(st.body, 0)| <= MAX_BREAKS
    requires ReadyS(s2, z, 5 + (SizeS(st.step) + (5 + (SizeS(st.body) + 5))), Marks(st.step) + Marks(st.body),
        1 + Depth(st.body), 0)
    ensures s3 == s2.(code := s2.code + Enc(Jmp(0)), loops := s2.loops + [OpenLoop(|s2.code| + 5, [])])
    ensures s3 == OpenLoopAt(Emit(s2, Enc(Jmp(0))), |Emit(s2, Enc(Jmp(0))).code|) && |s3.code| == |s2.code| + 5
    ensures ReadyS(s3, z, SizeS(st.step) + (5 + (SizeS(st.body) + 5)), Marks(st.step) + Marks(st.body), Depth(st.body),
                   |Breaks(st.body, |s2.code| + 5 + SizeS(st.step) + 5)|)
  {
    hide Stands, SizeS, Breaks, Depth, Marks, Enc, Emit, OpenLoopAt;
    var e := s2.(code := s2.code + Enc(Jmp(0)));
    EmitFits(s2, Enc(Jmp(0)));
    var pb := |s2.code| + 5 + SizeS(st.step) + 5;
    Opened(e, z, |e.code|, SizeS(st.step) + (5 + (SizeS(st.body) + 5)), Marks(st.step) + Marks(st.body),
        Depth(st.body), st.body, pb);
    s3 := OpenLoopAt(e, |e.code|);
  }

  /** The step is emitted, and the jump over it leads to the body. */
  lemma ForStep(s3: PState, st: Stmt, z: View, test: nat, site: nat, rest: seq<Token>) returns (s4: PState, s5: PState)
    requires st.For? && s3.toks == StepToks(st, rest) && (st.step.Empty? || st.step.Assign? || st.step.BumpStmt?)
    requires s3.loops != []
    requires ReadyS(s3, z, SizeS(st.step) + (5 + (SizeS(st.body) + 5)), Marks(st.step) + Marks(st.body), Depth(st.body),
                    |Breaks(st.body, |s3.code| + SizeS(st.step) + 5)|)
    requires ResolvedS(st.step, z.env, z.fns, true) && ResolvedS(st.body, z.env, z.fns, true)
    requires Codegen.Scope(st.step, z.env) == z.env
    requires EndsOpen(st.body) ==> rest == [] || rest[0] != KElse
    ensures s4 == AfterS(s3, st.step, z, PrintS(st.body) + rest) && s4 == Expect(ParseStep(s3), RParen)
    ensures s5 == PatchJump(s4.(code := s4.code + Enc(Jmp(Rel(|s4.code| + 5, test)))), site)
    ensures s5 == PatchJump(Emit(s4, Enc(Jmp(Rel(|s4.code| + 5, test)))), site)
    ensures SetsS(s5, st.body, z, true, rest) && |s5.code| + SizeS(st.body) + 5 <= MAX_CODE
    ensures |s4.code| == |s3.code| + SizeS(st.step)
  {
    hide Stands, AfterS, SizeS, Breaks, Depth, Marks, ResolvedS, PrintS, EndsOpen, ParseStep, Enc, Emit, Rel,
         Codegen.Scope, PatchJump, Expect;
    var toks4 := PrintS(st.body) + rest;
    StepParses(s3, st.step, z, toks4);
    HeaderFacts(st.step, |s3.code|);
    var breaks := |Breaks(st.body, |s3.code| + SizeS(st.step) + 5)|;
    ReadyAfterS(s3, st.step, z, true, toks4, 5 + (SizeS(st.body) + 5), Marks(st.body), Depth(st.body), breaks);
    s4 := AfterS(s3, st.step, z, toks4);
    AfterSHas(s3, st.step, z, toks4);
    s5 := JumpBack(s4, z, test, site, SizeS(st.body) + 5, Marks(st.body), Depth(st.body), breaks);
  }

  lemma JumpBack(s: PState, z: View, target: nat, site: nat, size: nat, marks: nat, depth: nat,
      breaks: nat) returns (r: PState)
    requires ReadyS(s, z, 5 + size, marks, depth, breaks)
    ensures r == PatchJump(s.(code := s.code + Enc(Jmp(Rel(|s.code| + 5, target)))), site)
    ensures r == PatchJump(Emit(s, Enc(Jmp(Rel(|s.code| + 5, target)))), site)
    ensures ReadyS(r, z, size, marks, depth, breaks) && r.toks == s.toks && |r.code| == |s.code| + 5
    ensures r.loops == s.loops
  {
    hide Stands, Enc, Emit, Patched, Rel;
    EmitFits(s, Enc(Jmp(Rel(|s.code| + 5, target))));
    r := PatchJump(Emit(s, Enc(Jmp(Rel(|s.code| + 5, target)))), site);
  }

  lemma ForIs(st: Stmt, env: Env, pos: nat, q: Exits, r: Exits, known: Entries)
    requires st.For? && IsHeader(st.start) && IsHeader(st.step)
    requires Codegen.Scope(st.step, Codegen.Scope(st.start, env)) == Codegen.Scope(st.start, env)
    ensures var env1 := Codegen.Scope(st.start, env); var test := pos + SizeS(st.start);
      var inc := test + SizeTest(st.cond) + 5; var end := inc + SizeS(st.step) + 5 + SizeS(st.body) + 5;
      var step := CodeS(st.step, env1, inc, r, known);
      var b := CodeS(st.body, env1, inc + SizeS(st.step) + 5, Exits(Some(end), inc), known);
      CodeS(st, env, pos, q, known)
        == CodeS(st.start, env, pos, q, known) + (CodeCond(st.cond, env1, test, known, end - test - SizeTest(st.cond))
        + Enc(Jmp(Wrap(SizeS(st.step) + 5)))
        + (step + Enc(Jmp(Rel(inc + SizeS(st.step) + 5, test))) + (b + Enc(Jmp(Rel(end, inc))))))
  {
    hide CodeE, CodeS, ForCode, SizeE, Enc, Test, Codegen.Scope, SizeS, Wrap;
    var env1, test := Codegen.Scope(st.start, env), pos + SizeS(st.start);
    var inc := test + SizeTest(st.cond) + 5;
    ForUnfolds(st, pos);
    HeaderCode(st.step, env1, inc, q, r, known);
    ForCodeIs(st, env, pos, q, known);
    var end := inc + SizeS(st.step) + 5 + SizeS(st.body) + 5;
    ForBytes(if st.cond.None? then None else Some(CodeE(st.cond.value, env1, test, known)),
             CodeS(st.step, env1, inc, r, known),
             CodeS(st.body, env1, inc + SizeS(st.step) + 5, Exits(Some(end), inc), known), test);
  }

  lemma ForBytes(cond: Option<seq<Byte>>, step: seq<Byte>, body: seq<Byte>, test: int)
    ensures var skip := 5 + |step| + 5 + |body| + 5; var head := if cond.None? then [] else cond.value + Test(skip);
      var inc := test + (if cond.None? then 0 else |cond.value| + 9) + 5;
      ForCode(cond, step, body) == head + Enc(Jmp(Wrap(|step| + 5)))
        + (step + Enc(Jmp(Rel(inc + |step| + 5, test))) + (body + Enc(Jmp(Rel(inc + |step| + 5 + |body| + 5, inc)))))
  {
    hide Enc;
  }

  lemma ForCodeIs(st: Stmt, env: Env, pos: nat, q: Exits, known: Entries)
    requires st.For?
    ensures CodeS(st, env, pos, q, known) == CodeFor(st, env, pos, q, known)
  {
    hide CodeFor;
  }

  lemma ForSides(st: Stmt, env: Env, pos: nat, known: Entries, syms: seq<Sym>)
    requires st.For? && Codegen.Scope(st.step, Codegen.Scope(st.start, env)) == Codegen.Scope(st.start, env)
    ensures var env1 := Codegen.Scope(st.start, env); var test := pos + SizeS(st.start);
      var inc := test + SizeTest(st.cond) + 5;
      && SitesS(st, pos, known) == SitesS(st.start, pos, known)
         + (if st.cond.None? then [] else SitesE(st.cond.value, test, known))
           + SitesS(st.step, inc, known) + SitesS(st.body, inc + SizeS(st.step) + 5, known)
      && SymsS(st, env, syms) == SymsS(st.body, env1, SymsS(st.step, env1,
           if st.cond.None? then SymsS(st.start, env, syms) else SymsE(st.cond.value, SymsS(st.start, env, syms))))
      && Codegen.Scope(st, env) == Codegen.Scope(st.body, env1)
  {
    hide SizeE, SitesE, SymsE;
  }

  /** The bytes of the loop up to its body, once the jumps are patched. */
  lemma ForHeadPatched(k: seq<Byte>, cond: Option<Expr>, z: View, step: seq<Byte>, back: seq<Byte>)
    ensures var h := CodeCond(cond, z.env, |k|, z.known, 0);
      Patched(k + h + Enc(Jmp(0)) + step + back, |k + h| + 1, |step| + |back|)
        == k + h + Enc(Jmp(Wrap(|step| + |back|))) + step + back
  {
    hide CodeCond, Enc, Patched, Wrap;
    var a := k + CodeCond(cond, z.env, |k|, z.known, 0);
    Cat(a + Enc(Jmp(0)), step, back);
    SetJmp(a, step + back, |step| + |back|);
    Cat(a + Enc(Jmp(Wrap(|step| + |back|))), step, back);
  }

  lemma ForTestPatched(k: seq<Byte>, cond: Option<Expr>, z: View, rest: seq<Byte>, v: int)
    requires cond.Some?
    ensures Patched(k + CodeCond(cond, z.env, |k|, z.known, 0) + rest, |k| + SizeE(cond.value) + 5, v)
         == k + CodeCond(cond, z.env, |k|, z.known, v) + rest
  {
    hide CodeE, SizeE, Test, Patched;
    var c := CodeE(cond.value, z.env, |k|, z.known);
    Cat(k, c, Test(0));
    Cat(k, c, Test(v));
    TestPatched(k + c, rest, v);
  }

  /** The code up to the body of a for loop whose start ends at `k`; a failed condition skips `skip` bytes. */
  function ForHeadCode(k: seq<Byte>, st: Stmt, z: View, skip: int): (code: seq<Byte>)
    requires st.For?
    ensures |code| == |k| + SizeTest(st.cond) + 5 + SizeS(st.step) + 5
  {
    hide Enc, Wrap, Rel, CodeS, SizeS, SizeTest, CodeCond;
    var inc := |k| + SizeTest(st.cond) + 5;
    k + CodeCond(st.cond, z.env, |k|, z.known, skip) + Enc(Jmp(Wrap(SizeS(st.step) + 5)))
    + CodeS(st.step, z.env, inc, Exits(None, inc), z.known) + Enc(Jmp(Rel(inc + SizeS(st.step) + 5, |k|)))
  }

  /** The same up to the end of the loop, whose breaks lead to `brk`. */
  function ForLoopCode(k: seq<Byte>, st: Stmt, z: View, skip: int, brk: Option<int>): (code: seq<Byte>)
    requires st.For?
    ensures |code| == |k| + SizeTest(st.cond) + 5 + SizeS(st.step) + 5 + SizeS(st.body) + 5
  {
    hide Enc, Wrap, Rel, CodeS, SizeS, SizeTest, ForHeadCode;
    var inc := |k| + SizeTest(st.cond) + 5;
    var enter := inc + SizeS(st.step) + 5;
    ForHeadCode(k, st, z, skip) + CodeS(st.body, z.env, enter, Exits(brk, inc), z.known)
    + Enc(Jmp(Rel(enter + SizeS(st.body) + 5, inc)))
  }

  lemma Regroup5(k: seq<Byte>, a: seq<Byte>, b: seq<Byte>, c: seq<Byte>, d: seq<Byte>, e: seq<Byte>)
    ensures k + a + b + c + d + e == k + (a + b + c + d + e)
  {
  }

  /** The failed condition, if there is one, leads behind the loop. */
  lemma ForExit(k: seq<Byte>, st: Stmt, z: View)
    requires st.For?
    ensures var code := ForLoopCode(k, st, z, 0, None);
      (if st.cond.None? then code
       else Patched(code, |k| + SizeE(st.cond.value) + 5, |code| - (|k| + SizeE(st.cond.value) + 9)))
      == ForLoopCode(k, st, z, 5 + SizeS(st.step) + 5 + SizeS(st.body) + 5, None)
  {
    hide CodeCond, SizeE, SizeS, CodeS, SizeTest, Patched, Enc, Wrap, Rel;
    var skip := 5 + SizeS(st.step) + 5 + SizeS(st.body) + 5;
    CondSize(st.cond, z, |k|, skip);
    if st.cond.Some? {
      var inc := |k| + SizeTest(st.cond) + 5;
      var enter := inc + SizeS(st.step) + 5;
      var over, back, again := Enc(Jmp(Wrap(SizeS(st.step) + 5))), Enc(Jmp(Rel(enter, |k|))),
        Enc(Jmp(Rel(enter + SizeS(st.body) + 5, inc)));
      var step, body := CodeS(st.step, z.env, inc, Exits(None, inc), z.known),
        CodeS(st.body, z.env, enter, Exits(None, inc), z.known);
      Regroup5(k + CodeCond(st.cond, z.env, |k|, z.known, 0), over, step, back, body, again);
      Regroup5(k + CodeCond(st.cond, z.env, |k|, z.known, skip), over, step, back, body, again);
      ForTestPatched(k, st.cond, z, over + step + back + body + again, skip);
    }
  }

  lemma CondSize(cond: Option<Expr>, z: View, pos: nat, skip: int)
    ensures SizeTest(cond) == if cond.None? then 0 else SizeE(cond.value) + 9
    ensures cond.None? ==> CodeCond(cond, z.env, pos, z.known, skip) == CodeCond(cond, z.env, pos, z.known, 0)
  {
    hide SizeE;
  }

  lemma ForCodes(k: seq<Byte>, st: Stmt, z: View, q: Exits)
    requires st.For? && IsHeader(st.start) && IsHeader(st.step)
    requires Codegen.Scope(st.step, Grown(z, st.start).env) == Grown(z, st.start).env
    ensures var k1 := k + CodeS(st.start, z.env, |k|, q, z.known);
      var end := |k1| + SizeTest(st.cond) + 5 + SizeS(st.step) + 5 + SizeS(st.body) + 5;
      ForLoopCode(k1, st, Grown(z, st.start), end - |k1| - SizeTest(st.cond), Some(end))
        == k + CodeS(st, z.env, |k|, q, z.known)
  {
    hide CodeS, CodeCond, CodeE, SizeE, SizeS, SizeTest, Enc, Wrap, Rel, Codegen.Scope;
    var z1, start := Grown(z, st.start), CodeS(st.start, z.env, |k|, q, z.known);
    var k1 := k + start;
    var inc := |k1| + SizeTest(st.cond) + 5;
    var enter := inc + SizeS(st.step) + 5;
    var end := enter + SizeS(st.body) + 5;
    ForIs(st, z.env, |k|, q, Exits(None, inc), z.known);
    JoinFor(k, start, CodeCond(st.cond, z1.env, |k1|, z.known, end - inc + 5), Enc(Jmp(Wrap(SizeS(st.step) + 5))),
            CodeS(st.step, z1.env, inc, Exits(None, inc), z.known), Enc(Jmp(Rel(enter, |k1|))),
            CodeS(st.body, z1.env, enter, Exits(Some(end), inc), z.known), Enc(Jmp(Rel(end, inc))));
  }

  /** Patching the breaks of the body completes the loop. */
  lemma ForFills(k: seq<Byte>, st: Stmt, z: View, skip: int)
    requires st.For? && ResolvedS(st.body, z.env, z.fns, true)
    ensures var enter := |k| + SizeTest(st.cond) + 5 + SizeS(st.step) + 5; var end := enter + SizeS(st.body) + 5;
      SetJumps(ForLoopCode(k, st, z, skip, None), Breaks(st.body, enter), end) == ForLoopCode(k, st, z, skip, Some(end))
  {
    hide CodeS, SizeS, SizeTest, Enc, Breaks, SetJumps, ResolvedS, Wrap, Rel, ForHeadCode;
    var inc := |k| + SizeTest(st.cond) + 5;
    var enter := inc + SizeS(st.step) + 5;
    var end := enter + SizeS(st.body) + 5;
    FillBreaks(ForHeadCode(k, st, z, skip), st.body, z.env, inc, z, Enc(Jmp(Rel(end, inc))), end, true);
  }

  lemma JoinFor(k: seq<Byte>, start: seq<Byte>, h: seq<Byte>, over: seq<Byte>, step: seq<Byte>, back: seq<Byte>,
      b: seq<Byte>, again: seq<Byte>)
    ensures k + start + h + over + step + back + b + again == k + (start + (h + over + (step + back + (b + again))))
  {
    Cat(k + start + h + over + step + back, b, again);
    Cat(k + start + h + over, step, back);
    Cat(k + start + h + over, step + back, b + again);
    Cat(k + start, h, over);
    Cat(k + start, h + over, step + back + (b + again));
    Cat(k, start, h + over + (step + back + (b + again)));
  }

  /** What the state holds when the body of a for loop begins. */
  lemma ForBody(s: PState, st: Stmt, z: View, s1: PState, s2: PState, s3: PState, s4: PState, s5: PState)
    requires st.For? && IsHeader(st.start) && IsHeader(st.step)
    requires Codegen.Scope(st.step, Grown(z, st.start).env) == Grown(z, st.start).env
    requires s1 == AfterS(s, st.start, z, s1.toks) && s2 == Headed(s1, st.cond, Grown(z, st.start), s2.toks)
    requires s3 == s2.(code := s2.code + Enc(Jmp(0)), loops := s2.loops + [OpenLoop(|s2.code| + 5, [])])
    requires s4 == AfterS(s3, st.step, Grown(z, st.start), s4.toks)
    requires s5 == PatchJump(s4.(code := s4.code + Enc(Jmp(Rel(|s4.code| + 5, |s1.code|)))), |s2.code| + 1)
    ensures var z1 := Grown(z, st.start); var inc := |s1.code| + SizeTest(st.cond) + 5;
      && |s2.code| + 5 == inc && |s5.code| == inc + SizeS(st.step) + 5
      && s5.code == ForHeadCode(s1.code, st, z1, 0)
      && s5.loops == s.loops + [OpenLoop(inc, [])] && s5.status == s.status && s5.lo == z1.env.lo
      && s5.deepest == z1.env.deepest
  {
    hide CodeS, CodeCond, SizeS, SitesS, SymsS, SizeTest, Enc, Patched, Wrap, Rel, Codegen.Scope, Headed, Breaks;
    var z1 := Grown(z, st.start);
    HeaderFacts(st.start, |s.code|);
    HeaderFacts(st.step, |s3.code|);
    NoBreaks(s.loops);
    NoBreaks(s3.loops);
    HeadedHas(s1, st.cond, z1, s2.toks);
    var step, back := CodeS(st.step, z1.env, |s3.code|, Exits(None, |s2.code| + 5), z.known),
      Enc(Jmp(Rel(|s4.code| + 5, |s1.code|)));
    ForHeadPatched(s1.code, st.cond, z1, step, back);
  }

  lemma HeadedHas(s: PState, cond: Option<Expr>, z: View, rest: seq<Token>)
    ensures Headed(s, cond, z, rest) == s.(toks := rest, code := s.code + CodeCond(cond, z.env, |s.code|, z.known, 0),
      syms := if cond.None? then s.syms else SymsE(cond.value, s.syms),
      patches := s.patches + if cond.None? then [] else SitesE(cond.value, |s.code|, z.known))
  {
    hide CodeE, SymsE, SitesE, Test;
    if cond.None? {
      assert s.patches + [] == s.patches && s.code + [] == s.code;
    } else {
      Cat(s.code, CodeE(cond.value, z.env, |s.code|, z.known), Test(0));
    }
  }

  /** The symbols and call sites collected by the parts of a for loop. */
  lemma ForMarks(s: PState, st: Stmt, z: View, s1: PState, s2: PState, s3: PState, s4: PState, s6: PState,
      rest: seq<Token>)
    requires st.For? && Codegen.Scope(st.step, Grown(z, st.start).env) == Grown(z, st.start).env
    requires s1 == AfterS(s, st.start, z, s1.toks) && s2 == Headed(s1, st.cond, Grown(z, st.start), s2.toks)
    requires s3.syms == s2.syms && s3.patches == s2.patches && |s3.code| == |s1.code| + SizeTest(st.cond) + 5
    requires s4 == AfterS(s3, st.step, Grown(z, st.start), s4.toks)
    requires s6.syms == SymsS(st.body, Grown(z, st.start).env, s4.syms)
    requires s6.patches == s4.patches + SitesS(st.body, |s4.code| + 5, z.known)
    ensures s6.syms == SymsS(st, z.env, s.syms) && s6.patches == s.patches + SitesS(st, |s.code|, z.known)
  {
    hide CodeS, CodeCond, SizeS, SitesS, SymsS, SitesE, SymsE, SizeTest, Codegen.Scope, Headed, MoreBreaks, Breaks;
    HeadedHas(s1, st.cond, Grown(z, st.start), s2.toks);
    ForSides(st, z.env, |s.code|, z.known, s.syms);
    var a, c := SitesS(st.start, |s.code|, z.known), if st.cond.None? then [] else SitesE(st.cond.value, |s1.code|,
      z.known);
    var t, b := SitesS(st.step, |s3.code|, z.known), SitesS(st.body, |s4.code| + 5, z.known);
    CatPatches(s.patches, a, c);
    CatPatches(s.patches, a + c, t);
    CatPatches(s.patches, a + c + t, b);
  }

  /** What the state holds after the body of a for loop. */
  lemma ForBodyEnd(s: PState, st: Stmt, z: View, rest: seq<Token>, inLoop: bool,
                   s1: PState, s2: PState, s3: PState, s4: PState, s5: PState, s6: PState)
    requires st.For? && ResolvedS(st, z.env, z.fns, inLoop)
    requires s1 == AfterS(s, st.start, z, s1.toks) && s2 == Headed(s1, st.cond, Grown(z, st.start), s2.toks)
    requires s3 == s2.(code := s2.code + Enc(Jmp(0)), loops := s2.loops + [OpenLoop(|s2.code| + 5, [])])
    requires s4 == AfterS(s3, st.step, Grown(z, st.start), s4.toks)
    requires s5 == PatchJump(s4.(code := s4.code + Enc(Jmp(Rel(|s4.code| + 5, |s1.code|)))), |s2.code| + 1)
    requires s6 == AfterS(s5, st.body, Grown(z, st.start), rest)
    ensures var z1 := Grown(z, st.start); var inc := |s1.code| + SizeTest(st.cond) + 5;
      var enter := inc + SizeS(st.step) + 5;
      && |s3.code| == inc
      && s6.code == ForHeadCode(s1.code, st, z1, 0) + CodeS(st.body, z1.env, enter, Exits(None, inc), z.known)
      && s6.loops == MoreBreaks(s.loops + [OpenLoop(inc, [])], Breaks(st.body, enter))
      && s6.syms == SymsS(st, z.env, s.syms) && s6.patches == s.patches + SitesS(st, |s.code|, z.known)
      && s6.toks == rest
      && s6.status == s.status && s6.lo == Codegen.Scope(st.body, z1.env).lo
      && s6.deepest == Codegen.Scope(st.body, z1.env).deepest
  {
    hide CodeS, CodeCond, SizeE, SizeS, SitesS, SymsS, SizeTest, Enc, PatchJump, Wrap, Rel, Codegen.Scope, Headed,
         Breaks, ResolvedS, MoreBreaks, AfterS, TopCont, ForHeadCode;
    var z1, inc := Grown(z, st.start), |s1.code| + SizeTest(st.cond) + 5;
    ForResolved(st, z, inLoop);
    ForBody(s, st, z, s1, s2, s3, s4, s5);
    OpenedCont(s5, s.loops, inc);
    AfterSIs(s5, st.body, z1, rest, inc);
    PatchKeeps(s4, Enc(Jmp(Rel(|s4.code| + 5, |s1.code|))), |s2.code| + 1);
    AfterSHas(s3, st.step, z1, s4.toks);
    ForMarks(s, st, z, s1, s2, s3, s4, s6, rest);
  }

  lemma ForAfter(s: PState, st: Stmt, z: View, rest: seq<Token>, inLoop: bool,
                 s1: PState, s2: PState, s3: PState, s4: PState, s5: PState, s6: PState)
    requires st.For? && ResolvedS(st, z.env, z.fns, inLoop)
    requires s1 == AfterS(s, st.start, z, s1.toks) && s2 == Headed(s1, st.cond, Grown(z, st.start), s2.toks)
    requires s3 == s2.(code := s2.code + Enc(Jmp(0)), loops := s2.loops + [OpenLoop(|s2.code| + 5, [])])
    requires s4 == AfterS(s3, st.step, Grown(z, st.start), s4.toks)
    requires s5 == PatchJump(s4.(code := s4.code + Enc(Jmp(Rel(|s4.code| + 5, |s1.code|)))), |s2.code| + 1)
    requires s6 == AfterS(s5, st.body, Grown(z, st.start), rest)
    ensures var s7 := s6.(code := s6.code + Enc(Jmp(Rel(|s6.code| + 5, |s3.code|))));
      CloseLoop(if st.cond.None? then s7 else PatchJump(s7, |s1.code| + SizeE(st.cond.value) + 5), |s.loops|)
        == AfterS(s, st, z, rest)
  {
    hide CodeS, SizeE, SizeS, SitesS, SymsS, SizeTest, Enc, PatchJump, Wrap, Rel, Codegen.Scope, Headed, Breaks,
         CloseLoop, ResolvedS, MoreBreaks, AfterS, TopCont, ForHeadCode;
    ForBodyEnd(s, st, z, rest, inLoop, s1, s2, s3, s4, s5, s6);
    AfterSIs(s, st.start, z, s1.toks, TopCont(s));
    ForClosed(s, st, z, inLoop, s1.code, s6);
    AfterSIs(s, st, z, rest, TopCont(s));
    ForResolved(st, z, inLoop);
    ForSides(st, z.env, |s.code|, z.known, s.syms);
    assert Breaks(st, |s.code|) == [] by { ForUnfolds(st, |s.code|); }
    NoBreaks(s.loops);
  }

  lemma OpenedCont(s: PState, loops: seq<OpenLoop>, cont: nat)
    requires s.loops == loops + [OpenLoop(cont, [])]
    ensures TopCont(s) == cont
  {
  }

  lemma PatchKeeps(s: PState, bytes: seq<Byte>, site: nat)
    ensures var r := PatchJump(s.(code := s.code + bytes), site); r == s.(code := r.code)
  {
  }

  /** The loop is closed over its finished code. */
  lemma ForClosed(s: PState, st: Stmt, z: View, inLoop: bool, k1: seq<Byte>, s6: PState)
    requires st.For? && ResolvedS(st, z.env, z.fns, inLoop)
    requires k1 == s.code + CodeS(st.start, z.env, |s.code|, Exits(None, TopCont(s)), z.known)
    requires var z1 := Grown(z, st.start); var inc := |k1| + SizeTest(st.cond) + 5;
      var enter := inc + SizeS(st.step) + 5;
      && s6.code == ForHeadCode(k1, st, z1, 0) + CodeS(st.body, z1.env, enter, Exits(None, inc), z.known)
      && s6.loops == MoreBreaks(s.loops + [OpenLoop(inc, [])], Breaks(st.body, enter))
    ensures var s7 := s6.(code := s6.code + Enc(Jmp(Rel(|s6.code| + 5, |k1| + SizeTest(st.cond) + 5))));
      CloseLoop(if st.cond.None? then s7 else PatchJump(s7, |k1| + SizeE(st.cond.value) + 5), |s.loops|)
      == s6.(loops := s.loops, code := s.code + CodeS(st, z.env, |s.code|, Exits(None, TopCont(s)), z.known))
  {
    hide CodeS, CodeCond, SizeE, SizeS, SizeTest, Enc, Patched, Wrap, Rel, Codegen.Scope, Breaks, CloseLoop,
         SetJumps, ResolvedS, MoreBreaks, TopCont, ForHeadCode, ForLoopCode;
    var z1, inc := Grown(z, st.start), |k1| + SizeTest(st.cond) + 5;
    ForResolved(st, z, inLoop);
    var s7 := s6.(code := s6.code + Enc(Jmp(Rel(|s6.code| + 5, inc))));
    assert s7.code == ForLoopCode(k1, st, z1, 0, None) by { LoopCodeIs(k1, st, z1); }
    var t := if st.cond.None? then s7 else PatchJump(s7, |k1| + SizeE(st.cond.value) + 5);
    CloseLoopIs(t, s.loops, inc, Breaks(st.body, inc + SizeS(st.step) + 5));
    ForExit(k1, st, z1);
    ForFills(k1, st, z1, 5 + SizeS(st.step) + 5 + SizeS(st.body) + 5);
    ForCodes(s.code, st, z, Exits(None, TopCont(s)));
  }

  lemma LoopCodeIs(k: seq<Byte>, st: Stmt, z: View)
    requires st.For?
    ensures var inc := |k| + SizeTest(st.cond) + 5; var enter := inc + SizeS(st.step) + 5;
      ForLoopCode(k, st, z, 0, None)
        == ForHeadCode(k, st, z, 0) + CodeS(st.body, z.env, enter, Exits(None, inc), z.known)
        + Enc(Jmp(Rel(enter + SizeS(st.body) + 5, inc)))
  {
    hide CodeS, SizeS, SizeTest, ForHeadCode, Enc, Rel;
  }

  lemma AfterSIs(s: PState, st: Stmt, z: View, rest: seq<Token>, cont: int)
    requires TopCont(s) == cont
    ensures var r := AfterS(s, st, z, rest);
      && r.code == s.code + CodeS(st, z.env, |s.code|, Exits(None, cont), z.known)
      && r.loops == MoreBreaks(s.loops, Breaks(st, |s.code|))
      && r.syms == SymsS(st, z.env, s.syms) && r.patches == s.patches + SitesS(st, |s.code|, z.known)
      && r.lo == Codegen.Scope(st, z.env).lo && r.deepest == Codegen.Scope(st, z.env).deepest && r.status == s.status
      && r.toks == rest
  {
    hide CodeS, SizeS, SitesS, SymsS, Breaks, Codegen.Scope, MoreBreaks;
  }

  /** Everything up to the body of a for loop. */
  lemma ForFront(s: PState, st: Stmt, z: View, inLoop: bool, rest: seq<Token>)
    returns (s1: PState, s2: PState, s3: PState, s4: PState, s5: PState)
    requires st.For? && SetsS(s, st, z, inLoop, rest)
    ensures Sees(s, KFor) && SetsS(s5, st.body, Grown(z, st.start), true, rest)
    ensures |s5.code| + SizeS(st.body) + 5 <= MAX_CODE
    ensures s1 == AfterS(s, st.start, z, s1.toks) && s2 == Headed(s1, st.cond, Grown(z, st.start), s2.toks)
    ensures s3 == s2.(code := s2.code + Enc(Jmp(0)), loops := s2.loops + [OpenLoop(|s2.code| + 5, [])])
    ensures s4 == AfterS(s3, st.step, Grown(z, st.start), s4.toks)
    ensures s5 == PatchJump(s4.(code := s4.code + Enc(Jmp(Rel(|s4.code| + 5, |s1.code|)))), |s2.code| + 1)
    ensures ParseHeader(Shift(s))
         == (s5, if st.cond.None? then None else Some(|s1.code| + SizeE(st.cond.value) + 5), |s3.code|)
  {
    hide ReadyS, ParseHeader, ParseStart, ParseHead, ParseStep, AfterS, Headed, PatchJump, OpenLoopAt, SizeE, SizeS,
         SizeTest, Marks, Depth, PrintS, PrintCond, StepToks, Breaks, EndsOpen, Codegen.Scope, Emit, Enc, Rel,
         ResolvedS, Expect;
    ForResolved(st, z, inLoop);
    ForUnfolds(st, |s.code|);
    var z1 := Grown(z, st.start);
    s1, s2 := ForTest(s, st, z, inLoop, rest);
    HeadedToks(s1, st.cond, z1, StepToks(st, rest));
    AfterSHas(s, st.start, z, PrintCond(st.cond) + StepToks(st, rest));
    s3 := ForOpen(s2, st, z1);
    s4, s5 := ForStep(s3, st, z1, |s1.code|, |s2.code| + 1, rest);
    AfterSHas(s3, st.step, z1, PrintS(st.body) + rest);
    HeaderIs(Shift(s), s1, s2, s3, s4, s5);
  }

  lemma {:induction false} ForParses(s: PState, st: Stmt, z: View, inLoop: bool, rest: seq<Token>)
    requires st.For? && SetsS(s, st, z, inLoop, rest)
    ensures ParseStmt(s) == AfterS(s, st, z, rest)
    decreases st, 0
  {
    hide ReadyS, ParseHeader, ParseStmt, AfterS, Headed, PatchJump, CloseLoop, SizeE, SizeS, Marks, Depth, PrintS,
         Breaks, EndsOpen, Emit, Enc, Rel, ResolvedS, Grown;
    SetsSHas(s, st, z, inLoop, rest);
    var s1, s2, s3, s4, s5 := ForFront(s, st, z, inLoop, rest);
    StmtIsFor(s);
    StmtParses(s5, st.body, Grown(z, st.start), true, rest);
    var s6 := AfterS(s5, st.body, Grown(z, st.start), rest);
    AfterSHas(s5, st.body, Grown(z, st.start), rest);
    EmitFits(s6, Enc(Jmp(Rel(|s6.code| + 5, |s3.code|))));
    ForAfter(s, st, z, rest, inLoop, s1, s2, s3, s4, s5, s6);
  }

  lemma HeadedToks(s: PState, cond: Option<Expr>, z: View, rest: seq<Token>)
    ensures Headed(s, cond, z, rest).toks == rest
  {
  }

  lemma HeaderIs(s: PState, s1: PState, s2: PState, s3: PState, s4: PState, s5: PState)
    requires s1 == ParseStart(Expect(s, LParen)) && s2 == ParseHead(s1).0
    requires s3 == OpenLoopAt(Emit(s2, Enc(Jmp(0))), |Emit(s2, Enc(Jmp(0))).code|)
    requires s4 == Expect(ParseStep(s3), RParen)
    requires s5 == PatchJump(Emit(s4, Enc(Jmp(Rel(|s4.code| + 5, |s1.code|)))), |s2.code| + 1)
    ensures ParseHeader(s) == (s5, ParseHead(s1).1, |s3.code|)
  {
    hide ParseStart, ParseHead, ParseStep, PatchJump, Emit, Enc, Rel, Expect, OpenLoopAt;
  }

  // blocks

  lemma StmtIsBlock(s: PState)
    requires s.status.Ok? && Sees(s, LBrace)
    ensures ParseStmt(s) == ParseBlock(Shift(s))
  {
    hide ParseExpr, ParseDecl, ParseIf, ParseWhile, ParseFor, ParseBlock, Emit, ParseBreak, ParseContinue, ParseType,
         Expect, Asm, ParseIdentStmt, ParseReturn;
  }

  /** A list of statements up to its closing brace. */
  ghost predicate SetsAll(s: PState, ss: Stmts, z: View, inLoop: bool, rest: seq<Token>)
  {
    && s.toks == PrintSs(ss) + rest
    && ReadyS(s, z, SizeSs(ss), MarksAll(ss), DepthAll(ss), |BreaksAll(ss, |s.code|)|)
    && ResolvedAll(ss, z.env, z.fns, inLoop) && (inLoop ==> s.loops != [])
  }

  /** No statement starts with a closing brace or an else. */
  lemma {:induction false} StmtStarts(st: Stmt)
    ensures PrintS(st) != [] && PrintS(st)[0] != RBrace && PrintS(st)[0] != KElse
  {
    hide Print, Unended;
    match st
    case ExprStmt(e) => FirstKind(e, 0);
    case Assign(_, _, _) => IdentPrint(st, []); assert PrintS(st) + [] == PrintS(st);
    case BumpStmt(_, _) => IdentPrint(st, []); assert PrintS(st) + [] == PrintS(st);
    case _ =>
  }

  lemma AllStarts(ss: Stmts, rest: seq<Token>)
    ensures PrintSs(ss) + rest != [] && (PrintSs(ss) + rest)[0] != KElse
    ensures (PrintSs(ss) + rest)[0] == RBrace <==> ss.SNil?
  {
    hide PrintS;
    if ss.SCons? { StmtStarts(ss.head); }
  }

  lemma {:induction false} AllParse(s: PState, ss: Stmts, z: View, inLoop: bool, rest: seq<Token>)
    requires SetsAll(s, ss, z, inLoop, rest)
    ensures ParseStmts(s) == AfterAll(s, ss, z, [RBrace] + rest)
    decreases ss
  {
    hide Stands, ParseStmt, PrintSs, AfterAll, AfterS, SizeS, Marks, Depth, Breaks, ResolvedS, Codegen.Scope, EndsOpen;
    AllStarts(ss, rest);
    match ss
    case SNil => NilParses(s, ss, z, rest);
    case SCons(st, tail) =>
      var toks1 := PrintSs(tail) + rest;
      AllStarts(tail, rest);
      ConsSets(s, ss, z, inLoop, rest);
      StmtParses(s, st, z, inLoop, toks1);
      AllParse(AfterS(s, st, z, toks1), tail, Grown(z, st), inLoop, rest);
      ConsAfter(s, ss, z, toks1, [RBrace] + rest);
  }

  lemma NilParses(s: PState, ss: Stmts, z: View, rest: seq<Token>)
    requires ss.SNil? && s.toks == PrintSs(ss) + rest && s.lo == z.env.lo && s.deepest == z.env.deepest
    ensures AfterAll(s, ss, z, [RBrace] + rest) == s
  {
    NoBreaks(s.loops);
    assert s.patches + [] == s.patches && s.code + [] == s.code;
  }

  lemma ConsSets(s: PState, ss: Stmts, z: View, inLoop: bool, rest: seq<Token>)
    requires ss.SCons? && SetsAll(s, ss, z, inLoop, rest)
    ensures var toks1 := PrintSs(ss.tail) + rest;
      && SetsS(s, ss.head, z, inLoop, toks1)
      && SetsAll(AfterS(s, ss.head, z, toks1), ss.tail, Grown(z, ss.head), inLoop, rest)
  {
    hide Stands, PrintS, AfterS, SizeS, Marks, Depth, Breaks, ResolvedS, Codegen.Scope, EndsOpen;
    var st, tail, toks1 := ss.head, ss.tail, PrintSs(ss.tail) + rest;
    CatTokens(PrintS(st), PrintSs(tail), rest);
    AllStarts(tail, rest);
    AfterSHas(s, st, z, toks1);
    ReadyAfterS(s, st, z, inLoop, toks1, SizeSs(tail), MarksAll(tail), DepthAll(tail),
        |BreaksAll(tail, |s.code| + SizeS(st))|);
  }

  lemma ConsAfter(s: PState, ss: Stmts, z: View, toks1: seq<Token>, rest: seq<Token>)
    requires ss.SCons?
    ensures AfterAll(AfterS(s, ss.head, z, toks1), ss.tail, Grown(z, ss.head), rest) == AfterAll(s, ss, z, rest)
  {
    hide SizeS, Breaks, MoreBreaks, Codegen.Scope, CodeS, SitesS, SymsS, AfterS, TopCont;
    var st, tail, env1 := ss.head, ss.tail, Codegen.Scope(ss.head, z.env);
    AfterSHas(s, st, z, toks1);
    AfterSIs(s, st, z, toks1, TopCont(s));
    var p1, q := |s.code| + SizeS(st), Exits(None, TopCont(s));
    Cat(s.code, CodeS(st, z.env, |s.code|, q, z.known), CodeSs(tail, env1, p1, q, z.known));
    CatPatches(s.patches, SitesS(st, |s.code|, z.known), SitesAll(tail, p1, z.known));
    MoreTwice(s.loops, Breaks(st, |s.code|), BreaksAll(tail, p1));
  }

  lemma BlockAfter(s: PState, st: Stmt, z: View, inLoop: bool, rest: seq<Token>)
    requires st.Block? && ResolvedAll(st.ss, z.env, z.fns, inLoop) && Stands(s.syms, z.env, z.known, z.fns)
    requires s.lo == z.env.lo
    ensures var s1 := AfterAll(s, st.ss, z, rest);
      |s.syms| <= |s1.syms| && s1.(syms := s1.syms[..|s.syms|], lo := s.lo) == AfterS(s, st, z, rest)
  {
    hide Stands, CodeSs, SitesAll, SymsAll, ScopeAll, SizeSs, ResolvedAll, MoreBreaks, BreaksAll;
    SymsAllStand(st.ss, s.syms, z, inLoop);
    var syms1 := SymsAll(st.ss, z.env, s.syms);
    assert s.syms <= syms1;
  }

  lemma BlockUnfolds(st: Stmt, pos: nat)
    requires st.Block?
    ensures SizeS(st) == SizeSs(st.ss) && Marks(st) == MarksAll(st.ss) && Depth(st) == DepthAll(st.ss)
    ensures Breaks(st, pos) == BreaksAll(st.ss, pos)
  {
  }

  lemma {:induction false} BlockParses(s: PState, st: Stmt, z: View, inLoop: bool, rest: seq<Token>)
    requires st.Block? && SetsS(s, st, z, inLoop, rest)
    ensures ParseStmt(s) == AfterS(s, st, z, rest)
    decreases st, 0
  {
    hide Stands, ParseStmt, ParseStmts, AfterS, AfterAll, SizeS, SizeSs, Marks, MarksAll, Depth, DepthAll, Breaks,
         BreaksAll, EndsOpen, Codegen.Scope, PrintSs;
    var s0 := Shift(s);
    assert s.toks == [LBrace] + (PrintSs(st.ss) + rest) by { CatTokens([LBrace], PrintSs(st.ss), rest); }
    StmtIsBlock(s);
    BlockUnfolds(st, |s.code|);
    AllParse(s0, st.ss, z, inLoop, rest);
    AfterAllRest(s0, st.ss, z, [RBrace] + rest, rest);
    assert ([RBrace] + rest)[1..] == rest;
    BlockAfter(s0, st, z, inLoop, rest);
    AfterSRest(s, st, z, rest, rest);
  }

  lemma AfterAllRest(s: PState, ss: Stmts, z: View, rest: seq<Token>, rest1: seq<Token>)
    ensures AfterAll(s, ss, z, rest).(toks := rest1) == AfterAll(s, ss, z, rest1)
    ensures AfterAll(s, ss, z, rest).toks == rest
  {
    hide CodeSs, SitesAll, SymsAll, ScopeAll, SizeSs, MoreBreaks, BreaksAll;
  }

  /** Reading a printed statement emits its code, and leaves the symbols, loops and call sites it adds. */
  lemma {:induction false} StmtParses(s: PState, st: Stmt, z: View, inLoop: bool, rest: seq<Token>)
    requires SetsS(s, st, z, inLoop, rest)
    ensures ParseStmt(s) == AfterS(s, st, z, rest)
    decreases st, 1
  {
    hide SetsS, ParseStmt, AfterS;
    match st
    case Decl(_, _) => DeclParses(s, st, z, inLoop, rest);
    case DeclArray(_, _) => ArrayParses(s, st, z, inLoop, rest);
    case Assign(_, _, _) => AssignStmtParses(s, st, z, inLoop, rest);
    case BumpStmt(_, _) => BumpStmtParses(s, st, z, inLoop, rest);
    case ExprStmt(_) => ExprStmtParses(s, st, z, inLoop, rest);
    case If(_, _) => IfParses(s, st, z, inLoop, rest);
    case IfElse(_, _, _) => IfElseParses(s, st, z, inLoop, rest);
    case While(_, _) => WhileParses(s, st, z, inLoop, rest);
    case For(_, _, _, _) => ForParses(s, st, z, inLoop, rest);
    case Break => BreakParses(s, st, z, inLoop, rest);
    case Continue => ContinueParses(s, st, z, inLoop, rest);
    case Return(_) => ReturnParses(s, st, z, inLoop, rest);
    case Block(_) => BlockParses(s, st, z, inLoop, rest);
    case Empty => EmptyParses(s, st, z, inLoop, rest);
  }
}
