/** Calls to functions that are defined later: filling in the recorded displacements
    turns the code emitted with holes into the code of the finished program. */
module CallSites {
  import opened Basics
  import opened X86
  import opened Machine
  import opened Cupid
  import opened Codegen
  import opened Syntax
  import opened Parser
  import opened ParseExprs
  import opened ParseStmts

  function Target(full: Entries, f: string): int { if f in full then full[f] else 0 }

  function SetCalls(code: seq<Byte>, sites: seq<Patch>, full: Entries): (r: seq<Byte>)
    ensures |r| == |code|
    decreases sites
  {
    if sites == [] then code
    else SetCalls(Patched(code, sites[0].site, Target(full, sites[0].name) - (sites[0].site + 4)), sites[1..], full)
  }

  lemma {:induction false} SetCallsTwice(code: seq<Byte>, a: seq<Patch>, b: seq<Patch>, full: Entries)
    ensures SetCalls(code, a + b, full) == SetCalls(SetCalls(code, a, full), b, full)
    decreases a
  {
    hide Patched;
    if a == [] {
      assert a + b == b;
    } else {
      assert (a + b)[1..] == a[1..] + b;
      SetCallsTwice(Patched(code, a[0].site, Target(full, a[0].name) - (a[0].site + 4)), a[1..], b, full);
    }
  }

  /** Patching `sites` turns `c0` at `pos` into `c1`, whatever stands around it; every site calls a function of
      `full`. */
  ghost predicate Fills(pos: nat, c0: seq<Byte>, c1: seq<Byte>, sites: seq<Patch>, full: Entries)
  {
    && |c0| == |c1| && (forall p :: p in sites ==> p.name in full)
    && (forall pre: seq<Byte>, post: seq<Byte> :: |pre| == pos ==>
          SetCalls(pre + c0 + post, sites, full) == pre + c1 + post)
  }

  lemma Same(pos: nat, c: seq<Byte>, full: Entries)
    ensures Fills(pos, c, c, [], full)
  {
  }

  lemma Both(pos: nat, a0: seq<Byte>, a1: seq<Byte>, sa: seq<Patch>, b0: seq<Byte>, b1: seq<Byte>, sb: seq<Patch>,
      full: Entries)
    requires Fills(pos, a0, a1, sa, full) && Fills(pos + |a0|, b0, b1, sb, full)
    ensures Fills(pos, a0 + b0, a1 + b1, sa + sb, full)
  {
    hide SetCalls;
    forall pre: seq<Byte>, post: seq<Byte> | |pre| == pos
      ensures SetCalls(pre + (a0 + b0) + post, sa + sb, full) == pre + (a1 + b1) + post
    {
      Regroup2(pre, a0, b0, post);
      Regroup2(pre, a1, b0, post);
      Regroup2(pre, a1, b1, post);
      SetCallsTwice(pre + (a0 + b0) + post, sa, sb, full);
      assert SetCalls(pre + a0 + (b0 + post), sa, full) == pre + a1 + (b0 + post);
      assert SetCalls((pre + a1) + b0 + post, sb, full) == (pre + a1) + b1 + post;
    }
  }

  /** Something after the filled code. */
  lemma Before(pos: nat, a0: seq<Byte>, a1: seq<Byte>, sa: seq<Patch>, b: seq<Byte>, full: Entries)
    requires Fills(pos, a0, a1, sa, full)
    ensures Fills(pos, a0 + b, a1 + b, sa, full)
  {
    hide Fills;
    Same(pos + |a0|, b, full);
    Both(pos, a0, a1, sa, b, b, [], full);
    assert sa + [] == sa;
  }

  /** Something in front of the filled code. */
  lemma Behind(pos: nat, a: seq<Byte>, b0: seq<Byte>, b1: seq<Byte>, sb: seq<Patch>, full: Entries)
    requires Fills(pos + |a|, b0, b1, sb, full)
    ensures Fills(pos, a + b0, a + b1, sb, full)
  {
    hide Fills;
    Same(pos, a, full);
    Both(pos, a, a, [], b0, b1, sb, full);
    assert [] + sb == sb;
  }

  lemma CallBytes(w: Word)
    ensures Enc(X86.Call(w)) == [0xE8] + Le32(w)
  {
  }

  lemma Hole(pos: nat, f: string, full: Entries)
    requires f in full
    ensures Fills(pos, Enc(X86.Call(0)), Enc(X86.Call(Rel(pos + 5, Target(full, f)))), [Patch(pos + 1, f)], full)
  {
    hide Enc, Patched;
    var w := Rel(pos + 5, Target(full, f));
    CallBytes(0);
    CallBytes(w);
    var sites := [Patch(pos + 1, f)];
    forall pre: seq<Byte>, post: seq<Byte> | |pre| == pos
      ensures SetCalls(pre + Enc(X86.Call(0)) + post, sites, full) == pre + Enc(X86.Call(w)) + post
    {
      SetWord(pre + [0xE8], post, Target(full, f) - (pos + 5));
      assert pre + ([0xE8] + Le32(0)) + post == pre + [0xE8] + Le32(0) + post;
      assert pre + ([0xE8] + Le32(w)) + post == pre + [0xE8] + Le32(w) + post;
      assert sites[1..] == [];
    }
  }

  /** The final entries extend those known so far and cover every function. */
  ghost predicate Extends(z: View, full: Entries)
  {
    (forall f :: f in z.known ==> f in full && full[f] == z.known[f]) && (forall f :: f in z.fns ==> f in full)
  }

  // ----- expressions -----

  lemma FillCall(pos: nat, f: string, z: View, full: Entries)
    requires Extends(z, full) && f in z.fns
    ensures Fills(pos, Enc(CallCode(f, pos + 5, z.known)), Enc(CallCode(f, pos + 5, full)),
        if f in z.known then [] else [Patch(pos + 1, f)], full)
  {
    hide Fills, Enc, Rel;
    if f in z.known { Same(pos, Enc(CallCode(f, pos + 5, full)), full); } else { Hole(pos, f, full); }
  }

  lemma {:induction false} FillE(e: Expr, env: Env, pos: nat, z: View, full: Entries)
    requires Extends(z, full) && Resolved(e, env, z.fns)
    ensures Fills(pos, CodeE(e, env, pos, z.known), CodeE(e, env, pos, full), SitesE(e, pos, z.known), full)
    decreases e, 1
  {
    hide Fills, Enc, Asm, Lookup, UnCode, BumpCode, OffsetOf, IsScalar, Extends;
    match e
    case Num(_) => Same(pos, CodeE(e, env, pos, full), full);
    case Var(_) => Same(pos, CodeE(e, env, pos, full), full);
    case Bump(_, _, _) => Same(pos, CodeE(e, env, pos, full), full);
    case Un(op, e1) =>
      FillE(e1, env, pos, z, full);
      Before(pos, CodeE(e1, env, pos, z.known), CodeE(e1, env, pos, full), SitesE(e1, pos, z.known), Asm(UnCode(op)),
          full);
    case Bin(op, l, r) => FillBin(op, l, r, env, pos, z, full);
    case Cond(_, _, _) => FillCond(e, env, pos, z, full);
    case Call(f, args) => FillApply(f, args, env, pos, z, full);
  }

  lemma {:induction false} FillBin(op: BinOp, l: Expr, r: Expr, env: Env, pos: nat, z: View, full: Entries)
    requires Extends(z, full) && Resolved(l, env, z.fns) && Resolved(r, env, z.fns)
    ensures var e := Bin(op, l, r);
      Fills(pos, CodeE(e, env, pos, z.known), CodeE(e, env, pos, full), SitesE(e, pos, z.known), full)
    decreases Bin(op, l, r), 0
  {
    hide Fills, Enc, Asm, Resolved, BinTail, Extends;
    var pr, tail := pos + SizeE(l) + 1, Enc(Pop(Ebx)) + Asm(BinTail(op));
    var l0, l1 := CodeE(l, env, pos, z.known), CodeE(l, env, pos, full);
    var r0, r1 := CodeE(r, env, pr, z.known), CodeE(r, env, pr, full);
    FillE(l, env, pos, z, full);
    FillE(r, env, pr, z, full);
    Before(pos, l0, l1, SitesE(l, pos, z.known), Enc(Push(Eax)), full);
    Before(pr, r0, r1, SitesE(r, pr, z.known), tail, full);
    Both(pos, l0 + Enc(Push(Eax)), l1 + Enc(Push(Eax)), SitesE(l, pos, z.known), r0 + tail, r1 + tail,
        SitesE(r, pr, z.known), full);
  }

  /** Code of the shape test, then-part, jump, else-part. */
  lemma FillBranches(pos: nat, c0: seq<Byte>, c1: seq<Byte>, sc: seq<Patch>, test: seq<Byte>, t0: seq<Byte>,
      t1: seq<Byte>, st: seq<Patch>,
                     jump: seq<Byte>, f0: seq<Byte>, f1: seq<Byte>, sf: seq<Patch>, full: Entries)
    requires Fills(pos, c0, c1, sc, full) && Fills(pos + |c0| + |test|, t0, t1, st, full)
    requires Fills(pos + |c0| + |test| + |t0| + |jump|, f0, f1, sf, full)
    ensures Fills(pos, c0 + test + (t0 + jump + f0), c1 + test + (t1 + jump + f1), sc + st + sf, full)
  {
    hide Fills;
    var pt := pos + |c0| + |test|;
    Before(pos, c0, c1, sc, test, full);
    Before(pt, t0, t1, st, jump, full);
    Both(pt, t0 + jump, t1 + jump, st, f0, f1, sf, full);
    Both(pos, c0 + test, c1 + test, sc, t0 + jump + f0, t1 + jump + f1, st + sf, full);
    CatPatches(sc, st, sf);
  }

  lemma CondIs(e: Expr, env: Env, pos: nat, known: Entries)
    requires e.Cond?
    ensures var pt := pos + SizeE(e.c) + 8;
      && CodeE(e, env, pos, known) == Codegen.CondCode(CodeE(e.c, env, pos, known), CodeE(e.t, env, pt, known),
                                                       CodeE(e.f, env, pt + SizeE(e.t) + 5, known))
      && SitesE(e, pos, known) == SitesE(e.c, pos, known) + SitesE(e.t, pt, known)
         + SitesE(e.f, pt + SizeE(e.t) + 5, known)
  {
    hide SizeE, Codegen.CondCode, Enc, Asm, Codegen.Reverse, BinTail, UnCode, BinCode, ApplyCode, BumpCode, OffsetOf,
         IsScalar, SizeArgs;
  }

  lemma CondBytes(c: seq<Byte>, t: seq<Byte>, f: seq<Byte>)
    ensures var test := Enc(Alu(TEST, Eax, Eax)) + Enc(Jcc(E, Wrap(|t| + 5)));
      Codegen.CondCode(c, t, f) == c + test + (t + Enc(Jmp(Wrap(|f|))) + f) && |test| == 8
  {
    hide Enc, Wrap;
  }

  lemma {:induction false} FillCond(e: Expr, env: Env, pos: nat, z: View, full: Entries)
    requires e.Cond? && Extends(z, full) && Resolved(e.c, env, z.fns) && Resolved(e.t, env, z.fns)
    requires Resolved(e.f, env, z.fns)
    ensures Fills(pos, CodeE(e, env, pos, z.known), CodeE(e, env, pos, full), SitesE(e, pos, z.known), full)
    decreases e, 0
  {
    hide Fills, Enc, Wrap, Resolved, Extends, CodeE, SizeE, SitesE, Codegen.CondCode;
    CondIs(e, env, pos, z.known);
    CondIs(e, env, pos, full);
    var pt := pos + SizeE(e.c) + 8;
    var pf := pt + SizeE(e.t) + 5;
    var c0, c1 := CodeE(e.c, env, pos, z.known), CodeE(e.c, env, pos, full);
    var t0, t1 := CodeE(e.t, env, pt, z.known), CodeE(e.t, env, pt, full);
    var f0, f1 := CodeE(e.f, env, pf, z.known), CodeE(e.f, env, pf, full);
    CondBytes(c0, t0, f0);
    CondBytes(c1, t1, f1);
    FillE(e.c, env, pos, z, full);
    FillE(e.t, env, pt, z, full);
    FillE(e.f, env, pf, z, full);
    FillBranches(pos, c0, c1, SitesE(e.c, pos, z.known), Enc(Alu(TEST, Eax, Eax)) + Enc(Jcc(E, Wrap(|t0| + 5))), t0, t1,
                 SitesE(e.t, pt, z.known), Enc(Jmp(Wrap(|f0|))), f0, f1, SitesE(e.f, pf, z.known), full);
  }

  lemma {:induction false} FillApply(f: string, args: Exprs, env: Env, pos: nat, z: View, full: Entries)
    requires Extends(z, full) && f in z.fns && ResolvedArgs(args, env, z.fns)
    ensures var e := Expr.Call(f, args);
      Fills(pos, CodeE(e, env, pos, z.known), CodeE(e, env, pos, full), SitesE(e, pos, z.known), full)
    decreases Expr.Call(f, args), 0
  {
    hide Fills, Enc, Asm, ResolvedArgs, Extends, Codegen.Reverse, PopArgs, CallCode;
    var a0, a1 := CodeArgs(args, env, pos, z.known), CodeArgs(args, env, pos, full);
    var rev, pop := Asm(Codegen.Reverse(Count(args), 0)), Asm(PopArgs(Count(args)));
    var pr := pos + SizeArgs(args);
    var pc := pr + |rev|;
    var c0, c1 := Enc(CallCode(f, pc + 5, z.known)), Enc(CallCode(f, pc + 5, full));
    var sc := if f in z.known then [] else [Patch(pc + 1, f)];
    FillArgs(args, env, pos, z, full);
    FillCall(pc, f, z, full);
    Before(pc, c0, c1, sc, pop, full);
    Behind(pr, rev, c0 + pop, c1 + pop, sc, full);
    Both(pos, a0, a1, SitesArgs(args, pos, z.known), rev + (c0 + pop), rev + (c1 + pop), sc, full);
  }

  lemma {:induction false} FillArgs(es: Exprs, env: Env, pos: nat, z: View, full: Entries)
    requires Extends(z, full) && ResolvedArgs(es, env, z.fns)
    ensures Fills(pos, CodeArgs(es, env, pos, z.known), CodeArgs(es, env, pos, full), SitesArgs(es, pos, z.known), full)
    decreases es, 0
  {
    hide Fills, Enc, Resolved, Extends, CodeE, SitesE, SizeE;
    match es
    case ENil => Same(pos, [], full);
    case ECons(e, tail) =>
      var push, pt := Enc(Push(Eax)), pos + SizeE(e) + 1;
      var e0, e1 := CodeE(e, env, pos, z.known), CodeE(e, env, pos, full);
      FillE(e, env, pos, z, full);
      FillArgs(tail, env, pt, z, full);
      Before(pos, e0, e1, SitesE(e, pos, z.known), push, full);
      Both(pos, e0 + push, e1 + push, SitesE(e, pos, z.known), CodeArgs(tail, env, pt, z.known),
           CodeArgs(tail, env, pt, full),
           SitesArgs(tail, pt, z.known), full);
  }

  // ----- statements -----

  /** A value and fixed code after it. */
  lemma FillValue(e: Expr, env: Env, pos: nat, z: View, after: seq<Byte>, full: Entries)
    requires Extends(z, full) && Resolved(e, env, z.fns)
    ensures Fills(pos, CodeE(e, env, pos, z.known) + after, CodeE(e, env, pos, full) + after, SitesE(e, pos, z.known),
        full)
  {
    hide Fills, Extends, Resolved, CodeE, SitesE;
    FillE(e, env, pos, z, full);
    Before(pos, CodeE(e, env, pos, z.known), CodeE(e, env, pos, full), SitesE(e, pos, z.known), after, full);
  }

  lemma ValueIs(st: Stmt, env: Env, pos: nat, q: Exits, known: Entries)
    requires (st.Decl? && st.init.Some?) || st.Assign? || (st.Return? && st.result.Some?)
    ensures st.Decl? ==>
      CodeS(st, env, pos, q, known)
        == CodeE(st.init.value, Codegen.Scope(st, env), pos, known) + Enc(StoreBp(Eax, Wrap(env.lo - 4)))
    ensures st.Assign? ==> CodeS(st, env, pos, q, known) == CodeE(st.e, env, pos, known) +
                             ((if st.aop.None? then [] else Update(env, st.x, st.aop.value))
                              + Enc(StoreBp(Eax, OffsetOf(env, st.x))))
    ensures st.Return? ==> CodeS(st, env, pos, q, known) == CodeE(st.result.value, env, pos, known) + Asm(Epilogue)
  {
    hide Enc, Asm, CodeE, SizeE, OffsetOf, Update, Wrap, Codegen.Scope;
    if st.Assign? {
      var store := Enc(StoreBp(Eax, OffsetOf(env, st.x)));
      if st.aop.None? {
        assert [] + store == store;
      } else {
        Cat(CodeE(st.e, env, pos, known), Update(env, st.x, st.aop.value), store);
      }
    }
  }

  lemma {:induction false} FillS(st: Stmt, env: Env, pos: nat, q: Exits, z: View, inLoop: bool, full: Entries)
    requires Extends(z, full) && ResolvedS(st, env, z.fns, inLoop)
    ensures Fills(pos, CodeS(st, env, pos, q, z.known), CodeS(st, env, pos, q, full), SitesS(st, pos, z.known), full)
    decreases st, 1
  {
    hide Fills, Extends, Resolved, CodeS, CodeE, SizeE, SizeS, SitesE, Enc, Asm, Update, OffsetOf, Codegen.Scope,
         Lookup, StartsPlain, Breaks;
    if (st.Decl? && st.init.Some?) || st.Assign? || (st.Return? && st.result.Some?) {
      ValueIs(st, env, pos, q, z.known);
      ValueIs(st, env, pos, q, full);
      if st.Decl? {
        FillValue(st.init.value, Codegen.Scope(st, env), pos, z, Enc(StoreBp(Eax, Wrap(env.lo - 4))), full);
      } else if st.Return? {
        FillValue(st.result.value, env, pos, z, Asm(Epilogue), full);
      } else {
        FillValue(st.e, env, pos, z,
            (if st.aop.None? then [] else Update(env, st.x, st.aop.value))
              + Enc(StoreBp(Eax, OffsetOf(env, st.x))), full);
      }
    } else if st.ExprStmt? {
      ExprIs(st, env, pos, q, z.known);
      ExprIs(st, env, pos, q, full);
      FillE(st.e, env, pos, z, full);
    } else if st.If? || st.IfElse? || st.While? {
      FillTested(st, env, pos, q, z, inLoop, full);
    } else if st.For? {
      FillFor(st, env, pos, q, z, inLoop, full);
    } else if st.Block? {
      BlockCode(st, env, pos, q, z.known);
      BlockCode(st, env, pos, q, full);
      FillSs(st.ss, env, pos, q, z, inLoop, full);
    } else {
      NoCalls(st, env, pos, q, z.known, full);
      Same(pos, CodeS(st, env, pos, q, full), full);
    }
  }

  lemma ExprIs(st: Stmt, env: Env, pos: nat, q: Exits, known: Entries)
    requires st.ExprStmt?
    ensures CodeS(st, env, pos, q, known) == CodeE(st.e, env, pos, known)
  {
  }

  lemma NoCalls(st: Stmt, env: Env, pos: nat, q: Exits, known: Entries, full: Entries)
    requires
      || st.BumpStmt? || st.DeclArray? || st.Break? || st.Continue? || st.Empty?
      || (st.Decl? && st.init.None?) || (st.Return? && st.result.None?)
    ensures CodeS(st, env, pos, q, known) == CodeS(st, env, pos, q, full) && SitesS(st, pos, known) == []
  {
    hide Enc, Asm, BumpCode;
  }

  lemma {:induction false} FillTested(st: Stmt, env: Env, pos: nat, q: Exits, z: View, inLoop: bool, full: Entries)
    requires (st.If? || st.IfElse? || st.While?) && Extends(z, full) && ResolvedS(st, env, z.fns, inLoop)
    ensures Fills(pos, CodeS(st, env, pos, q, z.known), CodeS(st, env, pos, q, full), SitesS(st, pos, z.known), full)
    decreases st, 0
  {
    hide Fills, Extends, Resolved, CodeS, CodeE, SizeE, SizeS, SitesE, SymsE, SymsS, Enc, Wrap, Codegen.Scope,
         Breaks, Test, EndsOpen;
    TestPatched([], [], 0);
    var pt := pos + SizeE(st.c) + 9;
    FillE(st.c, env, pos, z, full);
    var c0, c1, sc := CodeE(st.c, env, pos, z.known), CodeE(st.c, env, pos, full), SitesE(st.c, pos, z.known);
    if st.While? {
      WhileIs(st, env, pos, q, z.known);
      WhileIs(st, env, pos, q, full);
      var size := SizeE(st.c) + 9 + SizeS(st.body) + 5;
      var test, jump, r := Test(SizeS(st.body) + 5), Enc(Jmp(Wrap(0 - size))), Exits(Some(pos + size), pos);
      TestPatched([], [], SizeS(st.body) + 5);
      FillS(st.body, env, pt, r, z, true, full);
      var b0, b1 := CodeS(st.body, env, pt, r, z.known), CodeS(st.body, env, pt, r, full);
      Before(pos, c0, c1, sc, test, full);
      Before(pt, b0, b1, SitesS(st.body, pt, z.known), jump, full);
      Both(pos, c0 + test, c1 + test, sc, b0 + jump, b1 + jump, SitesS(st.body, pt, z.known), full);
    } else if st.If? {
      IfIs(st, env, pos, q, z.known);
      IfIs(st, env, pos, q, full);
      var test := Test(SizeS(st.t));
      FillS(st.t, env, pt, q, z, inLoop, full);
      Before(pos, c0, c1, sc, test, full);
      Both(pos, c0 + test, c1 + test, sc, CodeS(st.t, env, pt, q, z.known), CodeS(st.t, env, pt, q, full),
          SitesS(st.t, pt, z.known), full);
    } else {
      IfElseIs(st, env, pos, q, z.known);
      IfElseIs(st, env, pos, q, full);
      var env1, pf := Codegen.Scope(st.t, env), pt + SizeS(st.t) + 5;
      FillS(st.t, env, pt, q, z, inLoop, full);
      FillS(st.f, env1, pf, q, z, inLoop, full);
      FillBranches(pos, c0, c1, sc, Test(SizeS(st.t) + 5), CodeS(st.t, env, pt, q, z.known),
                   CodeS(st.t, env, pt, q, full), SitesS(st.t, pt, z.known),
                   Enc(Jmp(Wrap(SizeS(st.f)))), CodeS(st.f, env1, pf, q, z.known), CodeS(st.f, env1, pf, q, full),
                       SitesS(st.f, pf, z.known), full);
    }
  }

  lemma FillTest(cond: Option<Expr>, env: Env, pos: nat, z: View, skip: int, full: Entries)
    requires Extends(z, full) && (cond.Some? ==> Resolved(cond.value, env, z.fns))
    ensures Fills(pos, CodeCond(cond, env, pos, z.known, skip), CodeCond(cond, env, pos, full, skip),
                  if cond.None? then [] else SitesE(cond.value, pos, z.known), full)
  {
    hide Fills, Extends, Resolved, CodeE, SitesE, Test;
    if cond.None? { Same(pos, [], full); } else { FillValue(cond.value, env, pos, z, Test(skip), full); }
  }

  lemma {:induction false} FillFor(st: Stmt, env: Env, pos: nat, q: Exits, z: View, inLoop: bool, full: Entries)
    requires st.For? && Extends(z, full) && ResolvedS(st, env, z.fns, inLoop)
    ensures Fills(pos, CodeS(st, env, pos, q, z.known), CodeS(st, env, pos, q, full), SitesS(st, pos, z.known), full)
    decreases st, 0
  {
    hide Fills, Extends, Resolved, ResolvedS, CodeS, CodeE, CodeCond, SizeE, SizeS, SizeTest, SitesE, SitesS, SymsE,
         SymsS, Enc, Wrap, Rel, Codegen.Scope, Breaks;
    ForResolved(st, View(env, z.known, z.fns), inLoop);
    var env1, test := Codegen.Scope(st.start, env), pos + SizeS(st.start);
    var inc := test + SizeTest(st.cond) + 5;
    var enter := inc + SizeS(st.step) + 5;
    var end := enter + SizeS(st.body) + 5;
    var skip, r := end - test - SizeTest(st.cond), Exits(Some(end), inc);
    ForIs(st, env, pos, q, q, z.known);
    ForIs(st, env, pos, q, q, full);
    ForSides(st, env, pos, z.known, []);
    FillS(st.start, env, pos, q, z, inLoop, full);
    FillTest(st.cond, env1, test, z, skip, full);
    FillS(st.step, env1, inc, q, z, true, full);
    FillS(st.body, env1, enter, r, z, true, full);
    FillLoop(pos, CodeS(st.start, env, pos, q, z.known), CodeS(st.start, env, pos, q, full),
             SitesS(st.start, pos, z.known),
             CodeCond(st.cond, env1, test, z.known, skip), CodeCond(st.cond, env1, test, full, skip),
             if st.cond.None? then [] else SitesE(st.cond.value, test, z.known), Enc(Jmp(Wrap(SizeS(st.step) + 5))),
             CodeS(st.step, env1, inc, q, z.known), CodeS(st.step, env1, inc, q, full), SitesS(st.step, inc, z.known),
             Enc(Jmp(Rel(enter, test))),
             CodeS(st.body, env1, enter, r, z.known), CodeS(st.body, env1, enter, r, full),
                 SitesS(st.body, enter, z.known), Enc(Jmp(Rel(end, inc))), full);
  }

  lemma FillLoop(pos: nat, a0: seq<Byte>, a1: seq<Byte>, sa: seq<Patch>, h0: seq<Byte>, h1: seq<Byte>, sh: seq<Patch>,
      over: seq<Byte>,
                 t0: seq<Byte>, t1: seq<Byte>, st: seq<Patch>, back: seq<Byte>,
                 b0: seq<Byte>, b1: seq<Byte>, sb: seq<Patch>, again: seq<Byte>, full: Entries)
    requires Fills(pos, a0, a1, sa, full) && Fills(pos + |a0|, h0, h1, sh, full)
    requires Fills(pos + |a0| + |h0| + |over|, t0, t1, st, full)
    requires Fills(pos + |a0| + |h0| + |over| + |t0| + |back|, b0, b1, sb, full)
    ensures Fills(pos, a0 + (h0 + over + (t0 + back + (b0 + again))), a1 + (h1 + over + (t1 + back + (b1 + again))),
        sa + sh + st + sb, full)
  {
    hide Fills;
    var ph, pt := pos + |a0|, pos + |a0| + |h0| + |over|;
    Before(pt + |t0| + |back|, b0, b1, sb, again, full);
    Before(pt, t0, t1, st, back, full);
    Both(pt, t0 + back, t1 + back, st, b0 + again, b1 + again, sb, full);
    Before(ph, h0, h1, sh, over, full);
    Both(ph, h0 + over, h1 + over, sh, t0 + back + (b0 + again), t1 + back + (b1 + again), st + sb, full);
    Both(pos, a0, a1, sa, h0 + over + (t0 + back + (b0 + again)), h1 + over + (t1 + back + (b1 + again)),
        sh + (st + sb), full);
    CatPatches(sa + sh, st, sb);
    CatPatches(sa, sh, st + sb);
  }

  lemma {:induction false} FillSs(ss: Stmts, env: Env, pos: nat, q: Exits, z: View, inLoop: bool, full: Entries)
    requires Extends(z, full) && ResolvedAll(ss, env, z.fns, inLoop)
    ensures Fills(pos, CodeSs(ss, env, pos, q, z.known), CodeSs(ss, env, pos, q, full), SitesAll(ss, pos, z.known),
        full)
    decreases ss, 0
  {
    hide Fills, Extends, ResolvedS, CodeS, SizeS, SitesS, Codegen.Scope;
    match ss
    case SNil => Same(pos, [], full);
    case SCons(s, tail) =>
      var env1, p1 := Codegen.Scope(s, env), pos + SizeS(s);
      FillS(s, env, pos, q, z, inLoop, full);
      FillSs(tail, env1, p1, q, z, inLoop, full);
      Both(pos, CodeS(s, env, pos, q, z.known), CodeS(s, env, pos, q, full), SitesS(s, pos, z.known),
           CodeSs(tail, env1, p1, q, z.known), CodeSs(tail, env1, p1, q, full), SitesAll(tail, p1, z.known), full);
  }

  // ----- functions -----

  lemma FillF(f: Func, pos: nat, z: View, full: Entries)
    requires Extends(z, full) && ResolvedAll(f.body, FuncEnv(f.params), z.fns, false)
    ensures Fills(pos, CodeF(f, pos, z.known), CodeF(f, pos, full), SitesAll(f.body, pos + 9, z.known), full)
  {
    hide Fills, Extends, ResolvedAll, CodeSs, SizeSs, SitesAll, Enc, Asm, FuncFrame, FuncEnv;
    var env, q := FuncEnv(f.params), Exits(Some(0), 0);
    var pro, epi := Asm(Prologue(FuncFrame(f))), Enc(MovImm(0)) + Asm(Epilogue);
    var b0, b1 := CodeSs(f.body, env, pos + 9, q, z.known), CodeSs(f.body, env, pos + 9, q, full);
    Asm3(Push(Ebp), Mov(Ebp, Esp), SubImm(Esp, Wrap(FuncFrame(f))));
    FillSs(f.body, env, pos + 9, q, z, false, full);
    Before(pos + 9, b0, b1, SitesAll(f.body, pos + 9, z.known), epi, full);
    Behind(pos, pro, b0 + epi, b1 + epi, SitesAll(f.body, pos + 9, z.known), full);
  }
}
