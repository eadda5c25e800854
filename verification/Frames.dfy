/** Stack frames: how the variables of a function lie in memory, and what running a
    piece of its code may change. */
module Frames {
  import opened Basics
  import opened X86
  import opened Machine
  import opened Cupid
  import opened Codegen

  /** Variables lie at [ebp+bot, ebp) and [ebp+8, ebp+top). */
  datatype Zone = Zone(bot: int, top: int)

  predicate InZone(z: Zone, off: int) { z.bot <= off < 0 || 8 <= off < z.top }

  predicate Inside(z: Zone, s: Slot)
  {
    (z.bot <= s.off && s.off + s.size <= 0) || (8 <= s.off && s.off + s.size <= z.top)
  }

  predicate Apart(a: Slot, b: Slot) { a.off + a.size <= b.off || b.off + b.size <= a.off }

  /** The slots of simultaneously live variables are pairwise disjoint and inside the zone;
      nothing lives below the current offset. */
  ghost predicate Laid(env: Env, z: Zone)
  {
    && |env.slots| == |env.names|
    && z.bot <= env.lo <= 0
    && (forall i :: 0 <= i < |env.slots| ==> Inside(z, env.slots[i]))
    && (forall i :: 0 <= i < |env.slots| ==> env.lo <= env.slots[i].off)
    && (forall i :: 0 <= i < |env.slots| && env.names[i].scalar ==> env.slots[i].size == 4)
    && (forall i, j :: 0 <= i < j < |env.slots| ==> Apart(env.slots[i], env.slots[j]))
  }

  /** The stack pointer is below the zone and above the limit. */
  predicate Framed(z: Zone, c: Cpu)
  {
    && -H < z.bot <= 0 && 8 <= z.top < H
    && c.limit <= c.esp <= c.ebp + z.bot
    && c.ebp + z.top < W
  }

  /** Every initialised variable has its value in its slot. */
  ghost predicate Agrees(env: Env, st: Store, ebp: int, m: Mem)
  {
    forall i :: i in st ==>
      i < |env.names| && i < |env.slots| && env.names[i].scalar && Load32(m, ebp + env.slots[i].off) == st[i]
  }

  /** At and above the stack pointer only bytes at the offsets `open` from the frame pointer changed. */
  ghost predicate Kept(open: Offsets, c: Cpu, m: Mem)
  {
    forall x :: c.esp <= x && x - c.ebp !in open ==> m(x) == c.mem(x)
  }

  ghost predicate Stays(open: Offsets, c: Cpu, d: Cpu)
  {
    d.esp == c.esp && d.ebp == c.ebp && d.limit == c.limit && Kept(open, c, d.mem)
  }

  lemma StaysTrans(open: Offsets, c: Cpu, d: Cpu, e: Cpu)
    requires Stays(open, c, d) && Stays(open, d, e)
    ensures Stays(open, c, e)
  {
  }

  // ----- what code may write -----

  /** Byte offsets from the frame pointer. */
  type Offsets = iset<int>

  ghost predicate Within(open: Offsets, z: Zone) { forall o :: o in open ==> InZone(z, o) }

  predicate Covers(s: Slot, o: int) { s.off <= o < s.off + s.size }

  ghost function Bytes(s: Slot): Offsets { iset o | Covers(s, o) }

  ghost function Area(z: Zone): Offsets { iset o | InZone(z, o) }

  /** The bytes of the scalar `x`. */
  ghost function BytesOf(env: Env, x: string): Offsets
  {
    var i := Lookup(env.names, x);
    if 0 <= i < |env.slots| && env.names[i].scalar then Bytes(env.slots[i]) else iset{}
  }

  /** What evaluating `e` may write: the variables it increments or decrements. */
  ghost function WritesE(e: Expr, env: Env): Offsets
  {
    match e
    case Num(_) => iset{}
    case Var(_) => iset{}
    case Un(_, e1) => WritesE(e1, env)
    case Bin(_, l, r) => WritesE(l, env) + WritesE(r, env)
    case Cond(c, t, f) => WritesE(c, env) + WritesE(t, env) + WritesE(f, env)
    case Call(_, args) => WritesArgs(args, env)
    case Bump(x, _, _) => BytesOf(env, x)
  }

  ghost function WritesArgs(es: Exprs, env: Env): Offsets
  {
    match es case ENil => iset{} case ECons(e, tail) => WritesE(e, env) + WritesArgs(tail, env)
  }

  ghost function WritesO(e: Option<Expr>, env: Env): Offsets
  {
    match e case None => iset{} case Some(v) => WritesE(v, env)
  }

  /** What running `s` may write: the scalars it declares, assigns, increments or decrements. */
  ghost function WritesS(s: Stmt, env: Env): Offsets
  {
    match s
    case Decl(x, init) => WritesO(init, Scope(s, env)) + Bytes(Slot(env.lo - 4, 4))
    case Assign(x, _, e) => WritesE(e, env) + BytesOf(env, x)
    case BumpStmt(x, _) => BytesOf(env, x)
    case ExprStmt(e) => WritesE(e, env)
    case If(c, t) => WritesE(c, env) + WritesS(t, env)
    case IfElse(c, t, f) => WritesE(c, env) + WritesS(t, env) + WritesS(f, Scope(t, env))
    case While(c, body) => WritesE(c, env) + WritesS(body, env)
    case For(start, cond, step, body) =>
      var env1 := Scope(start, env);
      WritesS(start, env) + WritesO(cond, env1) + WritesS(step, env1) + WritesS(body, Scope(step, env1))
    case Return(result) => WritesO(result, env)
    case Block(ss) => WritesSs(ss, env)
    case _ => iset{}
  }

  ghost function WritesSs(ss: Stmts, env: Env): Offsets
  {
    match ss case SNil => iset{} case SCons(s, tail) => WritesS(s, env) + WritesSs(tail, Scope(s, env))
  }

  // ----- how much stack code needs -----

  function Max(a: nat, b: nat): nat { if a < b then b else a }

  /** The bytes below the stack pointer that evaluating `e` uses, those of the functions it calls aside. */
  function NeedE(e: Expr): nat
  {
    match e
    case Num(_) => 0
    case Var(_) => 0
    case Un(_, e1) => NeedE(e1)
    case Bin(_, l, r) => Max(NeedE(l), 4 + NeedE(r))
    case Cond(c, t, f) => Max(NeedE(c), Max(NeedE(t), NeedE(f)))
    case Call(_, args) => NeedArgs(args)
    case Bump(_, _, prefix) => if prefix then 0 else 4
  }

  /** The arguments and the return address. */
  function NeedArgs(es: Exprs): (n: nat)
    ensures n >= 4 * Count(es) + 4
  {
    match es case ENil => 4 case ECons(e, tail) => Max(NeedE(e), 4 + NeedArgs(tail))
  }

  function NeedO(e: Option<Expr>): nat { match e case None => 0 case Some(v) => NeedE(v) }

  function NeedS(s: Stmt): nat
  {
    match s
    case Decl(_, init) => NeedO(init)
    case Assign(_, aop, e) => if aop.None? then NeedE(e) else Max(NeedE(e), 4)
    case ExprStmt(e) => NeedE(e)
    case If(c, t) => Max(NeedE(c), NeedS(t))
    case IfElse(c, t, f) => Max(NeedE(c), Max(NeedS(t), NeedS(f)))
    case While(c, body) => Max(NeedE(c), NeedS(body))
    case For(start, cond, step, body) => Max(Max(NeedS(start), NeedO(cond)), Max(NeedS(step), NeedS(body)))
    case Return(result) => NeedO(result)
    case Block(ss) => NeedSs(ss)
    case _ => 0
  }

  function NeedSs(ss: Stmts): nat
  {
    match ss case SNil => 0 case SCons(s, tail) => Max(NeedS(s), NeedSs(tail))
  }

  /** One activation: the saved frame pointer, the frame, and what the body uses below it. */
  function NeedF(f: Func): nat { 4 + FuncFrame(f) + NeedSs(f.body) }

  /** The largest activation of a program. */
  function Activation(p: Program): nat
  {
    if p == [] then 0 else Max(NeedF(p[0]), Activation(p[1..]))
  }

  lemma {:induction false} ActivationCovers(p: Program, f: Func)
    requires f in p
    ensures NeedF(f) <= Activation(p)
  {
    hide NeedF;
    if f != p[0] { ActivationCovers(p[1..], f); }
  }

  /** Each nested call spends a unit of fuel, so `fuel` bounds the number of activations. */
  function Deep(p: Program, fuel: nat): nat { if fuel == 0 then 0 else Deep(p, fuel - 1) + Activation(p) }

  lemma {:induction false} DeepIs(p: Program, fuel: nat)
    ensures Deep(p, fuel) == fuel * Activation(p)
  {
    if fuel > 0 {
      DeepIs(p, fuel - 1);
      assert (fuel - 1) * Activation(p) + Activation(p) == fuel * Activation(p);
    }
  }

  /** The stack ran out, and there were fewer than `need` bytes below the stack pointer of `c`. */
  predicate Exhausted(c: Cpu, t: State, need: nat) { t.Overflow? && c.esp < c.limit + need }

  /** Two memories that agree above the stack pointer hold the same variables. */
  lemma AgreesFrame(env: Env, z: Zone, st: Store, c: Cpu, m: Mem)
    requires Laid(env, z) && Framed(z, c) && Agrees(env, st, c.ebp, c.mem)
    requires forall x :: c.esp <= x ==> m(x) == c.mem(x)
    ensures Agrees(env, st, c.ebp, m)
  {
  }

  /** Assigning one variable changes that variable only. */
  lemma AgreesStore(env: Env, z: Zone, st: Store, ebp: int, m: Mem, i: nat, v: Word)
    requires Laid(env, z) && Agrees(env, st, ebp, m)
    requires i < |env.names| && env.names[i].scalar
    ensures Agrees(env, st[i := v], ebp, Store32(m, ebp + env.slots[i].off, v))
  {
    hide Load32, Store32;
    var a := ebp + env.slots[i].off;
    var m1 := Store32(m, a, v);
    forall j | j in st[i := v]
      ensures j < |env.names| && env.names[j].scalar && Load32(m1, ebp + env.slots[j].off) == st[i := v][j]
    {
      LoadStore(m, a, v, ebp + env.slots[j].off);
      if j != i {
        assert Apart(env.slots[if i < j then i else j], env.slots[if i < j then j else i]);
      }
    }
  }

  // ----- the allocator keeps slots disjoint -----

  /** A declaration of `size` bytes that still fits the zone. */
  lemma DeclareLaid(env: Env, z: Zone, name: Name, size: nat)
    requires Laid(env, z) && (name.scalar ==> size == 4) && z.bot <= env.lo - size
    ensures Laid(Declare(env, name, size), z)
  {
  }

  lemma {:induction false} ScopeMonotone(s: Stmt, env: Env)
    ensures Scope(s, env).deepest <= env.deepest
    ensures env.deepest <= env.lo ==> Scope(s, env).deepest <= Scope(s, env).lo <= env.lo
    ensures Scope(s, env).names == Names(s, env.names)
    ensures env.names <= Scope(s, env).names && env.slots <= Scope(s, env).slots
  {
    match s
    case If(_, t) => ScopeMonotone(t, env);
    case IfElse(_, t, f) => ScopeMonotone(t, env); ScopeMonotone(f, Scope(t, env));
    case While(_, body) => ScopeMonotone(body, env);
    case For(start, _, step, body) =>
      var env1 := Scope(start, env);
      var env2 := Scope(step, env1);
      ScopeMonotone(start, env);
      ScopeMonotone(step, env1);
      ScopeMonotone(body, env2);
    case Block(ss) => ScopeAllMonotone(ss, env);
    case _ =>
  }

  lemma {:induction false} ScopeAllMonotone(ss: Stmts, env: Env)
    ensures ScopeAll(ss, env).deepest <= env.deepest
    ensures env.deepest <= env.lo ==> ScopeAll(ss, env).deepest <= ScopeAll(ss, env).lo <= env.lo
  {
    match ss
    case SNil =>
    case SCons(s, tail) => ScopeMonotone(s, env); ScopeAllMonotone(tail, Scope(s, env));
  }

  /** Slots stay disjoint and inside any zone that reaches down to the deepest offset. */
  lemma {:induction false} ScopeLaid(s: Stmt, env: Env, z: Zone)
    requires Laid(env, z) && env.deepest <= env.lo && z.bot <= Scope(s, env).deepest
    ensures Laid(Scope(s, env), z)
  {
    match s
    case Decl(x, _) => DeclareLaid(env, z, Name(x, true), 4);
    case DeclArray(x, n) => DeclareLaid(env, z, Name(x, false), Align4(4 * n));
    case If(_, t) => ScopeLaid(t, env, z);
    case IfElse(_, t, f) =>
      ScopeMonotone(t, env);
      ScopeMonotone(f, Scope(t, env));
      ScopeLaid(t, env, z);
      ScopeLaid(f, Scope(t, env), z);
    case While(_, body) => ScopeLaid(body, env, z);
    case For(start, _, step, body) =>
      var env1 := Scope(start, env);
      var env2 := Scope(step, env1);
      ScopeMonotone(start, env);
      ScopeMonotone(step, env1);
      ScopeMonotone(body, env2);
      ScopeLaid(start, env, z);
      ScopeLaid(step, env1, z);
      ScopeLaid(body, env2, z);
    case _ =>
  }

  // ----- writes stay inside the zone -----

  lemma BytesInside(env: Env, z: Zone, x: string)
    requires Laid(env, z)
    ensures BytesOf(env, x) <= Area(z)
  {
  }

  lemma {:induction false} ExprWritesInside(e: Expr, env: Env, z: Zone)
    requires Laid(env, z)
    ensures WritesE(e, env) <= Area(z)
  {
    hide Laid, Area;
    match e
    case Un(_, e1) => ExprWritesInside(e1, env, z);
    case Bin(_, l, r) => ExprWritesInside(l, env, z); ExprWritesInside(r, env, z);
    case Cond(c, t, f) => ExprWritesInside(c, env, z); ExprWritesInside(t, env, z); ExprWritesInside(f, env, z);
    case Call(_, args) => ArgsWriteInside(args, env, z);
    case Bump(x, _, _) => BytesInside(env, z, x);
    case _ =>
  }

  lemma {:induction false} ArgsWriteInside(es: Exprs, env: Env, z: Zone)
    requires Laid(env, z)
    ensures WritesArgs(es, env) <= Area(z)
  {
    hide Laid, Area;
    match es
    case ENil =>
    case ECons(e, tail) => ExprWritesInside(e, env, z); ArgsWriteInside(tail, env, z);
  }

  lemma OptionWritesInside(e: Option<Expr>, env: Env, z: Zone)
    requires Laid(env, z)
    ensures WritesO(e, env) <= Area(z)
  {
    hide Laid, Area;
    if e.Some? { ExprWritesInside(e.value, env, z); }
  }

  lemma {:induction false} StmtWritesInside(s: Stmt, env: Env, z: Zone)
    requires Laid(env, z) && env.deepest <= env.lo && z.bot <= Scope(s, env).deepest
    ensures WritesS(s, env) <= Area(z)
    decreases s, 1
  {
    hide Laid, Area;
    match s
    case Decl(x, init) =>
      ScopeLaid(s, env, z);
      OptionWritesInside(init, Scope(s, env), z);
      NewSlotInside(env, z, Name(x, true), 4);
    case Assign(x, _, e) => ExprWritesInside(e, env, z); BytesInside(env, z, x);
    case BumpStmt(x, _) => BytesInside(env, z, x);
    case ExprStmt(e) => ExprWritesInside(e, env, z);
    case If(c, t) => ExprWritesInside(c, env, z); StmtWritesInside(t, env, z);
    case IfElse(c, t, f) =>
      ScopeMonotone(t, env);
      ScopeMonotone(f, Scope(t, env));
      ScopeLaid(t, env, z);
      ExprWritesInside(c, env, z);
      StmtWritesInside(t, env, z);
      StmtWritesInside(f, Scope(t, env), z);
    case While(c, body) => ExprWritesInside(c, env, z); StmtWritesInside(body, env, z);
    case For(_, _, _, _) => ForWritesInside(s, env, z);
    case Return(result) => OptionWritesInside(result, env, z);
    case Block(ss) => AllWriteInside(ss, env, z);
    case _ =>
  }

  lemma {:induction false} ForWritesInside(s: Stmt, env: Env, z: Zone)
    requires s.For? && Laid(env, z) && env.deepest <= env.lo && z.bot <= Scope(s, env).deepest
    ensures WritesS(s, env) <= Area(z)
    decreases s, 0
  {
    hide Laid, Area;
    var env1 := Scope(s.start, env);
    var env2 := Scope(s.step, env1);
    ScopeMonotone(s.start, env);
    ScopeMonotone(s.step, env1);
    ScopeMonotone(s.body, env2);
    ScopeLaid(s.start, env, z);
    ScopeLaid(s.step, env1, z);
    StmtWritesInside(s.start, env, z);
    OptionWritesInside(s.cond, env1, z);
    StmtWritesInside(s.step, env1, z);
    StmtWritesInside(s.body, env2, z);
  }

  lemma {:induction false} AllWriteInside(ss: Stmts, env: Env, z: Zone)
    requires Laid(env, z) && env.deepest <= env.lo && z.bot <= ScopeAll(ss, env).deepest
    ensures WritesSs(ss, env) <= Area(z)
    decreases ss, 1
  {
    hide Laid, Area;
    match ss
    case SNil =>
    case SCons(s, tail) =>
      ScopeMonotone(s, env);
      ScopeAllMonotone(tail, Scope(s, env));
      ScopeLaid(s, env, z);
      StmtWritesInside(s, env, z);
      AllWriteInside(tail, Scope(s, env), z);
  }

  lemma NewSlotInside(env: Env, z: Zone, name: Name, size: nat)
    requires Laid(Declare(env, name, size), z)
    ensures Bytes(Slot(env.lo - size, size)) <= Area(z)
  {
    var env1 := Declare(env, name, size);
    assert env1.slots[|env.slots|] == Slot(env.lo - size, size);
  }
}
