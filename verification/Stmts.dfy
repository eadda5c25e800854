/** Running the code of statements simulates the statements. */
module StmtCorrect {
  import opened Basics
  import opened X86
  import opened Machine
  import opened Cupid
  import opened Codegen
  import opened Frames
  import opened Operators
  import opened ExprCorrect

  /** What may stand in a for header: a declaration or assignment, and an assignment, ++ or --. */
  predicate IsStart(s: Stmt) { s.Empty? || s.Decl? || s.Assign? }
  predicate IsStep(s: Stmt) { s.Empty? || s.Assign? || s.BumpStmt? }

  predicate WfS(s: Stmt)
  {
    match s
    case Decl(_, init) => init.Some? ==> WfE(init.value)
    case Assign(_, _, e) => WfE(e)
    case ExprStmt(e) => WfE(e)
    case If(c, t) => WfE(c) && WfS(t)
    case IfElse(c, t, f) => WfE(c) && WfS(t) && WfS(f)
    case While(c, body) => WfE(c) && WfS(body)
    case For(start, cond, step, body) =>
      WfS(start) && (cond.Some? ==> WfE(cond.value)) && WfS(step) && WfS(body) && IsStart(start) && IsStep(step)
    case Return(result) => result.Some? ==> WfE(result.value)
    case Block(ss) => WfSs(ss)
    case _ => true
  }

  predicate WfSs(ss: Stmts)
  {
    match ss case SNil => true case SCons(s, tail) => WfS(s) && WfSs(tail)
  }

  predicate ExitsOk(q: Exits) { q.brk.Some? && 0 <= q.brk.value <= 0x10_0000 && 0 <= q.cont <= 0x10_0000 }

  predicate Good(o: Outcome) { !o.Bad? && !o.Late? }

  /** The function has returned to its caller: the frame is gone. */
  ghost predicate Exited(open: Offsets, c: Cpu, d: Cpu, v: Option<Word>)
  {
    && d.pc == Load32(c.mem, c.ebp + 4) && d.ebp == Load32(c.mem, c.ebp)
    && d.esp == c.ebp + 8 && d.limit == c.limit
    && (v.Some? ==> d.eax == v.value)
    && Kept(open, c, d.mem)
  }

  /** `t` is where the code started in `c` leads when the statement ends with `o`. */
  ghost predicate Finished(open: Offsets, env: Env, q: Exits, c: Cpu, t: State, next: int, o: Outcome, need: nat)
  {
    Exhausted(c, t, need) ||
    (t.Live? &&
     match o
     case Next(st) => t.cpu.pc == next && Stays(open, c, t.cpu) && Agrees(env, st, c.ebp, t.cpu.mem)
     case Broke(st) => q.brk == Some(t.cpu.pc) && Stays(open, c, t.cpu) && Agrees(env, st, c.ebp, t.cpu.mem)
     case Continued(st) => t.cpu.pc == q.cont && Stays(open, c, t.cpu) && Agrees(env, st, c.ebp, t.cpu.mem)
     case Returned(v) => Exited(open, c, t.cpu, v)
     case _ => false)
  }

  ghost predicate Extends(big: Env, small: Env)
  {
    small.names <= big.names && small.slots <= big.slots && |small.names| == |small.slots|
  }

  lemma AgreesGrow(small: Env, big: Env, st: Store, ebp: int, m: Mem)
    requires Extends(big, small) && Agrees(small, st, ebp, m)
    ensures Agrees(big, st, ebp, m)
  {
  }

  lemma AgreesKeep(small: Env, big: Env, st: Store, ebp: int, m: Mem)
    requires Extends(big, small) && Agrees(big, st, ebp, m)
    ensures Agrees(small, Keep(st, |small.names|), ebp, m)
  {
  }

  lemma FinishedGrow(open: Offsets, small: Env, big: Env, q: Exits, c: Cpu, t: State, next: int, o: Outcome, need: nat)
    requires Extends(big, small) && Finished(open, small, q, c, t, next, o, need)
    ensures Finished(open, big, q, c, t, next, o, need)
  {
    hide Agrees, Kept;
    if t.Live? && (o.Next? || o.Broke? || o.Continued?) { AgreesGrow(small, big, o.st, c.ebp, t.cpu.mem); }
  }

  /** Leaving a scope. */
  lemma FinishedLeave(open: Offsets, small: Env, big: Env, q: Exits, c: Cpu, t: State, next: int, o: Outcome, need: nat)
    requires Extends(big, small) && Finished(open, big, q, c, t, next, o, need)
    ensures Finished(open, small, q, c, t, next, Leave(o, |small.names|), need)
  {
    hide Agrees, Kept;
    if t.Live? && (o.Next? || o.Broke? || o.Continued?) { AgreesKeep(small, big, o.st, c.ebp, t.cpu.mem); }
  }

  /** A statement that starts where code that stays in the frame stopped. */
  lemma FinishedFrom(x: Ctx, env: Env, q: Exits, c: Cpu, d: Cpu, t: State, next: int, o: Outcome, less: nat, need: nat)
    requires Framed(x.z, c) && Within(x.open, x.z) && Stays(x.open, c, d)
    requires Finished(x.open, env, q, d, t, next, o, less) && less <= need
    ensures Finished(x.open, env, q, c, t, next, o, need)
  {
    hide Agrees, Load32;
    if t.Live? && o.Returned? {
      SavedWords(x.z, x.open, c, d.mem);
    }
  }

  /** The return address and the saved frame pointer survive. */
  lemma SavedWords(z: Zone, open: Offsets, c: Cpu, m: Mem)
    requires Framed(z, c) && Within(open, z) && Kept(open, c, m)
    ensures Load32(m, c.ebp) == Load32(c.mem, c.ebp) && Load32(m, c.ebp + 4) == Load32(c.mem, c.ebp + 4)
  {
  }

  /** What is needed to run the code of `s` from `c`. */
  ghost predicate ReadyS(x: Ctx, s: Stmt, q: Exits, c: Cpu, st: Store, fuel: nat)
  {
    && Starts(x, c, st) && CallsOk(x, fuel) && WfS(s) && ExitsOk(q) && c.pc >= 0
    && x.env.deepest <= x.env.lo && x.z.bot <= Scope(s, x.env).deepest
    && At(x.code, c.pc, CodeS(s, x.env, c.pc, q, x.entries))
    && Good(Run(x.p, s, x.env.names, st, fuel)) && WritesS(s, x.env) <= x.open
  }

  lemma StmtGrows(x: Ctx, s: Stmt, z: Zone)
    requires Laid(x.env, x.z) && x.env.deepest <= x.env.lo && x.z.bot <= Scope(s, x.env).deepest
    ensures Extends(Scope(s, x.env), x.env) && Laid(Scope(s, x.env), x.z)
    ensures Scope(s, x.env).names == Names(s, x.env.names)
    ensures Scope(s, x.env).deepest <= Scope(s, x.env).lo && Scope(s, x.env).deepest <= x.env.deepest
  {
    hide Names;
    ScopeMonotone(s, x.env);
    ScopeLaid(s, x.env, x.z);
  }

  // ----- simple statements -----

  /** Declares variable `|names|`: eax goes to its slot. */
  lemma DeclareStep(x: Ctx, name: string, c: Cpu, st: Store) returns (d: Cpu)
    requires var env1 := Declare(x.env, Name(name, true), 4);
      Starts(x.(env := env1), c, st) && |x.env.slots| == |x.env.names|
    requires At(x.code, c.pc, Enc(StoreBp(Eax, Wrap(x.env.lo - 4)))) && Bytes(Slot(x.env.lo - 4, 4)) <= x.open
    ensures Goes(x.code, Live(c), Live(d)) && d.pc == c.pc + 6 && Stays(x.open, c, d)
    ensures Agrees(Declare(x.env, Name(name, true), 4), st[|x.env.names| := c.eax], c.ebp, d.mem)
  {
    hide At, Enc, Load32, Store32, Exec, Agrees, Laid, Framed, Kept;
    var x1 := x.(env := Declare(x.env, Name(name, true), 4));
    StoreVar(x1, c, st, |x.env.names|);
    OneStep(x.code, c, StoreBp(Eax, Wrap(x.env.lo - 4)));
    d := Exec(StoreBp(Eax, Wrap(x.env.lo - 4)), c).cpu;
  }

  /** A declaration still fits the zone; the old variables are where they were. */
  lemma DeclareStarts(x: Ctx, s: Stmt, c: Cpu, st: Store)
    requires s.Decl? && Starts(x, c, st) && x.env.deepest <= x.env.lo && x.z.bot <= Scope(s, x.env).deepest
    ensures Starts(x.(env := Scope(s, x.env)), c, st) && |x.env.slots| == |x.env.names|
  {
    hide Load32;
    ScopeLaid(s, x.env, x.z);
    AgreesGrow(x.env, Scope(s, x.env), st, c.ebp, c.mem);
  }

  lemma DeclRuns(x: Ctx, s: Stmt, q: Exits, c: Cpu, st: Store, fuel: nat) returns (t: State)
    requires s.Decl? && ReadyS(x, s, q, c, st, fuel)
    ensures Goes(x.code, Live(c), t)
    ensures Finished(x.open, Scope(s, x.env), q, c, t, c.pc + SizeS(s), Run(x.p, s, x.env.names, st, fuel),
        NeedS(s) + Deep(x.p, fuel))
  {
    hide At, Enc, Load32, CallsOk, CodeE, SizeE, Eval, Laid, Agrees, Kept, WfE, Goes;
    DeclareStarts(x, s, c, st);
    var x1 := x.(env := Scope(s, x.env));
    var store := Enc(StoreBp(Eax, Wrap(x.env.lo - 4)));
    match s.init
    case None =>
      AtSplit(x.code, c.pc, Enc(MovImm(0)), store);
      OneStep(x.code, c, MovImm(0));
      var c1 := Exec(MovImm(0), c).cpu;
      SameStarts(x1, c, c1, st);
      var d := DeclareStep(x, s.x, c1, st);
      StaysSameStart(x.open, c, c1, d);
      Chain(x.code, Live(c), Live(c1), Live(d));
      t := Live(d);
    case Some(e) =>
      AtSplit(x.code, c.pc, CodeE(e, x1.env, c.pc, x.entries), store);
      var r := Eval(x.p, e, x1.env.names, st, fuel);
      CallsCtx(x, x1, fuel);
      t := ExprRuns(x1, e, c, st, fuel);
      if t.Live? {
        var c1 := t.cpu;
        StartsAfter(x1, c, c1, st, r.st);
        var d := DeclareStep(x, s.x, c1, r.st);
        StaysTrans(x.open, c, c1, d);
        Chain(x.code, Live(c), Live(c1), Live(d));
        t := Live(d);
      }
  }

  lemma CallsCtx(x: Ctx, y: Ctx, fuel: nat)
    requires CallsOk(x, fuel) && y.code == x.code && y.p == x.p && y.entries == x.entries
    ensures CallsOk(y, fuel)
  {
    hide CallOk;
  }

  lemma UpdateParts(x: Ctx, pc: int, name: string, op: BinOp)
    requires At(x.code, pc, Update(x.env, name, op))
    ensures At(x.code, pc, Enc(Push(Eax))) && At(x.code, pc + 1, Enc(LoadBp(Eax, OffsetOf(x.env, name))))
    ensures At(x.code, pc + 7, Enc(Mov(Ebx, Eax))) && At(x.code, pc + 9, Enc(Pop(Eax)))
    ensures At(x.code, pc + 10, Asm(BinTail(op)))
  {
    hide At, Enc, Asm, BinTail, OffsetOf;
    var push, load, mov, pop := Enc(Push(Eax)), Enc(LoadBp(Eax, OffsetOf(x.env, name))), Enc(Mov(Ebx, Eax)),
      Enc(Pop(Eax));
    AtSplit(x.code, pc, push + load, mov + pop + Asm(BinTail(op)));
    AtSplit(x.code, pc, push, load);
    AtSplit(x.code, pc + 7, mov + pop, Asm(BinTail(op)));
    AtSplit(x.code, pc + 7, mov, pop);
  }

  /** Combines the old value of a variable with eax. */
  lemma Updates(x: Ctx, c: Cpu, st: Store, name: string, op: BinOp) returns (t: State)
    requires Starts(x, c, st) && Lookup(x.env.names, name) in st && !Traps(op, st[Lookup(x.env.names, name)], c.eax)
    requires At(x.code, c.pc, Update(x.env, name, op))
    ensures Goes(x.code, Live(c), t)
    ensures Evaluated(x, c, t, 10 + Len(BinTail(op)), BinVal(op, st[Lookup(x.env.names, name)], c.eax), st, 4)
  {
    hide At, Enc, Asm, BinTail, BinVal, Traps, Load32, Store32, OffsetOf, ExecAll, Update, Laid, Agrees, Kept, Goes;
    var was := st[Lookup(x.env.names, name)];
    UpdateParts(x, c.pc, name, op);
    t := PushEax(x, c, st);
    if t.Live? {
      var c1 := t.cpu;
      LoadVar(x, c1, st, name);
      OneStep(x.code, c1, LoadBp(Eax, OffsetOf(x.env, name)));
      var c2 := c1.(pc := c1.pc + 6, eax := was);
      var c4 := MovesAndPops(x.code, c2);
      Chain(x.code, Live(c), Live(c1), Live(c2));
      Chain(x.code, Live(c), Live(c2), Live(c4));
      Operators.BinRuns(op, c4);
      AllFall(op);
      Straight(x.code, c4, BinTail(op));
      t := ExecAll(BinTail(op), Live(c4));
      Chain(x.code, Live(c), Live(c4), t);
      UpdateKeeps(x, c, c1, t.cpu, st);
    }
  }

  lemma MovesAndPops(code: seq<Byte>, c: Cpu) returns (d: Cpu)
    requires At(code, c.pc, Enc(Mov(Ebx, Eax))) && At(code, c.pc + 2, Enc(Pop(Eax))) && c.esp + 4 < W
    ensures Goes(code, Live(c), Live(d))
    ensures d == c.(pc := c.pc + 3, ebx := c.eax, eax := Load32(c.mem, c.esp), esp := c.esp + 4)
  {
    hide At, Enc, Load32, Goes;
    OneStep(code, c, Mov(Ebx, Eax));
    var c1 := Exec(Mov(Ebx, Eax), c).cpu;
    var t := PopEax(code, c1);
    d := t.cpu;
    Chain(code, Live(c), Live(c1), Live(d));
  }

  lemma UpdateKeeps(x: Ctx, c: Cpu, c1: Cpu, d: Cpu, st: Store)
    requires Starts(x, c, st) && Pushed(x, c, Live(c1), st)
    requires d.esp == c.esp && d.ebp == c.ebp && d.limit == c.limit && d.mem == c1.mem
    ensures Stays(x.open, c, d) && Agrees(x.env, st, c.ebp, d.mem)
  {
  }

  lemma AssignAt(x: Ctx, s: Stmt, q: Exits, pc: nat)
    requires s.Assign? && At(x.code, pc, CodeS(s, x.env, pc, q, x.entries))
    ensures At(x.code, pc, CodeE(s.e, x.env, pc, x.entries))
    ensures var n := SizeE(s.e); s.aop.None? ==>
      At(x.code, pc + n, Enc(StoreBp(Eax, OffsetOf(x.env, s.x)))) && SizeS(s) == n + 6
    ensures var n := SizeE(s.e); s.aop.Some? ==>
      && At(x.code, pc + n, Update(x.env, s.x, s.aop.value))
      && At(x.code, pc + n + 10 + Len(BinTail(s.aop.value)), Enc(StoreBp(Eax, OffsetOf(x.env, s.x))))
      && SizeS(s) == n + 10 + Len(BinTail(s.aop.value)) + 6
  {
    hide At, Enc, CodeE, SizeE, Update, BinTail, OffsetOf, Asm;
    var value, store := CodeE(s.e, x.env, pc, x.entries), Enc(StoreBp(Eax, OffsetOf(x.env, s.x)));
    if s.aop.None? {
      AtSplit(x.code, pc, value, store);
    } else {
      AtSplit(x.code, pc, value + Update(x.env, s.x, s.aop.value), store);
      AtSplit(x.code, pc, value, Update(x.env, s.x, s.aop.value));
    }
  }

  lemma AssignRuns(x: Ctx, s: Stmt, q: Exits, c: Cpu, st: Store, fuel: nat) returns (t: State)
    requires s.Assign? && ReadyS(x, s, q, c, st, fuel)
    ensures Goes(x.code, Live(c), t)
    ensures Finished(x.open, Scope(s, x.env), q, c, t, c.pc + SizeS(s), Run(x.p, s, x.env.names, st, fuel),
        NeedS(s) + Deep(x.p, fuel))
  {
    hide At, Enc, Asm, Load32, CallsOk, CodeE, CodeS, SizeE, SizeS, Eval, Laid, Agrees, Kept, WfE, OffsetOf, BinTail,
         BinVal, Traps, Update, Goes;
    AssignAt(x, s, q, c.pc);
    var r := Eval(x.p, s.e, x.env.names, st, fuel);
    t := ExprRuns(x, s.e, c, st, fuel);
    if t.Live? {
      var c1 := t.cpu;
      StartsAfter(x, c, c1, st, r.st);
      if s.aop.Some? {
        t := Updates(x, c1, r.st, s.x, s.aop.value);
        Chain(x.code, Live(c), Live(c1), t);
      }
      if t.Live? {
        var c2 := t.cpu;
        StaysMore(x.open, c, c1, c2);
        StartsAfter(x, c1, c2, r.st, r.st);
        var d := StoreStep(x, c2, r.st, s.x);
        StaysTrans(x.open, c, c2, d);
        Chain(x.code, Live(c), Live(c2), Live(d));
        t := Live(d);
      }
    }
  }

  lemma StaysMore(open: Offsets, c: Cpu, d: Cpu, e: Cpu)
    requires Stays(open, c, d) && (e == d || Stays(open, d, e))
    ensures Stays(open, c, e) && Stays(open, d, e)
  {
  }

  lemma SimpleRuns(x: Ctx, s: Stmt, q: Exits, c: Cpu, st: Store, fuel: nat) returns (t: State)
    requires (s.BumpStmt? || s.ExprStmt? || s.Empty?) && ReadyS(x, s, q, c, st, fuel)
    ensures Goes(x.code, Live(c), t)
    ensures Finished(x.open, Scope(s, x.env), q, c, t, c.pc + SizeS(s), Run(x.p, s, x.env.names, st, fuel),
        NeedS(s) + Deep(x.p, fuel))
  {
    hide At, Enc, Asm, Load32, CallsOk, CodeE, SizeE, Eval, Laid, Kept, WfE, Bumping;
    match s
    case BumpStmt(name, up) =>
      var d := Bumps(x, c, st, name, up);
      t := Live(d);
    case ExprStmt(e) => t := ExprRuns(x, e, c, st, fuel);
    case Empty =>
      t := Live(c);
      Here(x.code, t);
      assert Kept(x.open, c, c.mem) by { KeptSelf(x.open, c); }
  }

  lemma KeptSelf(open: Offsets, c: Cpu)
    ensures Kept(open, c, c.mem)
  {
  }

  lemma ArrayRuns(x: Ctx, s: Stmt, q: Exits, c: Cpu, st: Store, fuel: nat) returns (t: State)
    requires s.DeclArray? && ReadyS(x, s, q, c, st, fuel)
    ensures Goes(x.code, Live(c), t)
    ensures Finished(x.open, Scope(s, x.env), q, c, t, c.pc + SizeS(s), Run(x.p, s, x.env.names, st, fuel),
        NeedS(s) + Deep(x.p, fuel))
  {
    hide At, CallsOk, Kept, Agrees;
    t := Live(c);
    Here(x.code, t);
    KeptSelf(x.open, c);
    ScopeMonotone(s, x.env);
    AgreesGrow(x.env, Scope(s, x.env), st, c.ebp, c.mem);
  }

  lemma JumpRuns(x: Ctx, s: Stmt, q: Exits, c: Cpu, st: Store, fuel: nat) returns (t: State)
    requires (s.Break? || s.Continue?) && ReadyS(x, s, q, c, st, fuel)
    ensures Goes(x.code, Live(c), t)
    ensures Finished(x.open, Scope(s, x.env), q, c, t, c.pc + SizeS(s), Run(x.p, s, x.env.names, st, fuel),
        NeedS(s) + Deep(x.p, fuel))
  {
    hide At, CallsOk, Kept, Agrees, Enc, Laid;
    KeptSelf(x.open, c);
    AtFits(x.code, c.pc, CodeS(s, x.env, c.pc, q, x.entries));
    t := JumpBy(x.code, c, (if s.Break? then q.brk.value else q.cont) - (c.pc + 5));
  }

  /** mov esp, ebp; pop ebp; ret */
  lemma Epilogues(x: Ctx, c: Cpu) returns (d: Cpu)
    requires Framed(x.z, c) && At(x.code, c.pc, Asm(Epilogue))
    ensures Goes(x.code, Live(c), Live(d)) && Exited(x.open, c, d, Some(c.eax))
  {
    hide At, Enc, Load32, Asm, Goes;
    Asm3(Mov(Esp, Ebp), Pop(Ebp), Ret);
    AtSplit(x.code, c.pc, Enc(Mov(Esp, Ebp)), Enc(Pop(Ebp)) + Enc(Ret));
    AtSplit(x.code, c.pc + 2, Enc(Pop(Ebp)), Enc(Ret));
    OneStep(x.code, c, Mov(Esp, Ebp));
    var c1 := Exec(Mov(Esp, Ebp), c).cpu;
    OneStep(x.code, c1, Pop(Ebp));
    var c2 := Exec(Pop(Ebp), c1).cpu;
    OneStep(x.code, c2, Ret);
    d := Exec(Ret, c2).cpu;
    Chain(x.code, Live(c), Live(c1), Live(c2));
    Chain(x.code, Live(c), Live(c2), Live(d));
  }

  lemma ReturnAt(x: Ctx, s: Stmt, q: Exits, pc: nat)
    requires s.Return? && At(x.code, pc, CodeS(s, x.env, pc, q, x.entries))
    ensures s.result.None? ==> At(x.code, pc, Asm(Epilogue))
    ensures s.result.Some? ==>
      && At(x.code, pc, CodeE(s.result.value, x.env, pc, x.entries))
      && At(x.code, pc + SizeE(s.result.value), Asm(Epilogue))
  {
    hide At, Asm, CodeE, SizeE;
    var value := if s.result.None? then [] else CodeE(s.result.value, x.env, pc, x.entries);
    AtSplit(x.code, pc, value, Asm(Epilogue));
  }

  lemma ReturnRuns(x: Ctx, s: Stmt, q: Exits, c: Cpu, st: Store, fuel: nat) returns (t: State)
    requires s.Return? && ReadyS(x, s, q, c, st, fuel)
    ensures Goes(x.code, Live(c), t)
    ensures Finished(x.open, Scope(s, x.env), q, c, t, c.pc + SizeS(s), Run(x.p, s, x.env.names, st, fuel),
        NeedS(s) + Deep(x.p, fuel))
  {
    hide At, Asm, Load32, CallsOk, CodeE, CodeS, SizeE, Eval, Laid, Agrees, Kept, WfE, Goes;
    ReturnAt(x, s, q, c.pc);
    match s.result
    case None =>
      var d := Epilogues(x, c);
      t := Live(d);
    case Some(e) =>
      t := ExprRuns(x, e, c, st, fuel);
      if t.Live? {
        var c1 := t.cpu;
        var d := Epilogues(x, c1);
        Chain(x.code, Live(c), Live(c1), Live(d));
        t := Live(d);
        FinishedFrom(x, x.env, q, c, c1, t, 0, Returned(Some(c1.eax)), 0, NeedS(s) + Deep(x.p, fuel));
      }
  }

  // ----- branches and loops -----

  /** `cmp eax, 0; je skip`: falls through exactly when eax is not zero. */
  lemma Tests(code: seq<Byte>, c: Cpu, skip: nat) returns (d: Cpu)
    requires At(code, c.pc, Test(skip)) && skip < H
    ensures Goes(code, Live(c), Live(d))
    ensures d == c.(pc := c.pc + 9 + if c.eax == 0 then skip else 0, flags := d.flags)
  {
    hide At, Enc, Goes;
    AtSplit(code, c.pc, Enc(CmpImm(Eax, 0)), Enc(Jcc(E, Wrap(skip))));
    OneStep(code, c, CmpImm(Eax, 0));
    var c1 := Exec(CmpImm(Eax, 0), c).cpu;
    OneStep(code, c1, Jcc(E, Wrap(skip)));
    Displacement(skip);
    d := Exec(Jcc(E, Wrap(skip)), c1).cpu;
    Chain(code, Live(c), Live(c1), Live(d));
  }

  /** Evaluates a condition and tests it. */
  lemma {:induction false} Decides(x: Ctx, e: Expr, c: Cpu, st: Store, fuel: nat, skip: nat) returns (t: State)
    requires ReadyE(x, e, c, st, fuel) && At(x.code, c.pc + SizeE(e), Test(skip)) && skip < H
    ensures Goes(x.code, Live(c), t)
    ensures var r := Eval(x.p, e, x.env.names, st, fuel);
      Exhausted(c, t, NeedE(e) + Deep(x.p, fuel)) ||
      (t.Live? && t.cpu.pc == c.pc + SizeE(e) + 9 + (if r.value == 0 then skip else 0)
       && Stays(x.open, c, t.cpu) && Starts(x, t.cpu, r.st))
  {
    hide At, Test, Eval, SizeE, CodeE, Laid, Agrees, Kept, CallsOk, WfE, Goes;
    var r := Eval(x.p, e, x.env.names, st, fuel);
    t := ExprRuns(x, e, c, st, fuel);
    if t.Live? {
      var c1 := t.cpu;
      var d := Tests(x.code, c1, skip);
      StaysSame(x.open, c, c1, d);
      StartsAfter(x, c, d, st, r.st);
      Chain(x.code, Live(c), Live(c1), Live(d));
      t := Live(d);
    }
  }

  lemma IfAt(x: Ctx, s: Stmt, q: Exits, pc: nat)
    requires s.If? && At(x.code, pc, CodeS(s, x.env, pc, q, x.entries))
    ensures var pt := pc + SizeE(s.c) + 9;
      && At(x.code, pc, CodeE(s.c, x.env, pc, x.entries)) && At(x.code, pc + SizeE(s.c), Test(SizeS(s.t)))
      && At(x.code, pt, CodeS(s.t, x.env, pt, q, x.entries))
      && SizeS(s) == SizeE(s.c) + 9 + SizeS(s.t) <= |x.code|
  {
    hide At, Test, CodeE, SizeE;
    AtFits(x.code, pc, CodeS(s, x.env, pc, q, x.entries));
    var cq, ct := CodeE(s.c, x.env, pc, x.entries), CodeS(s.t, x.env, pc + SizeE(s.c) + 9, q, x.entries);
    TestSize(|ct|);
    AtSplit(x.code, pc, cq + Test(|ct|), ct);
    AtSplit(x.code, pc, cq, Test(|ct|));
  }

  lemma TestSize(skip: int)
    ensures |Test(skip)| == 9
  {
  }

  lemma IfElseAt(x: Ctx, s: Stmt, q: Exits, pc: nat)
    requires s.IfElse? && At(x.code, pc, CodeS(s, x.env, pc, q, x.entries))
    ensures var pt := pc + SizeE(s.c) + 9; var pf := pt + SizeS(s.t) + 5;
      && At(x.code, pc, CodeE(s.c, x.env, pc, x.entries)) && At(x.code, pc + SizeE(s.c), Test(SizeS(s.t) + 5))
      && At(x.code, pt, CodeS(s.t, x.env, pt, q, x.entries))
      && At(x.code, pt + SizeS(s.t), Enc(Jmp(Wrap(SizeS(s.f)))))
      && At(x.code, pf, CodeS(s.f, Scope(s.t, x.env), pf, q, x.entries))
      && SizeS(s) == SizeE(s.c) + 9 + SizeS(s.t) + 5 + SizeS(s.f) <= |x.code|
  {
    hide At, Test, CodeE, SizeE, Scope, Enc, Wrap;
    AtFits(x.code, pc, CodeS(s, x.env, pc, q, x.entries));
    var pt := pc + SizeE(s.c) + 9;
    var cq, ct := CodeE(s.c, x.env, pc, x.entries), CodeS(s.t, x.env, pt, q, x.entries);
    var cf := CodeS(s.f, Scope(s.t, x.env), pt + SizeS(s.t) + 5, q, x.entries);
    var jump := Enc(Jmp(Wrap(|cf|)));
    TestSize(|ct| + 5);
    AtSplit(x.code, pc, cq + Test(|ct| + 5), ct + jump + cf);
    AtSplit(x.code, pc, cq, Test(|ct| + 5));
    AtSplit(x.code, pt, ct + jump, cf);
    AtSplit(x.code, pt, ct, jump);
  }

  /** The context in which the next statement runs. */
  lemma NextCtx(x: Ctx, s: Stmt, c: Cpu, st: Store, fuel: nat) returns (y: Ctx)
    requires Starts(x, c, st) && CallsOk(x, fuel)
    requires x.env.deepest <= x.env.lo && x.z.bot <= Scope(s, x.env).deepest
    ensures y == x.(env := Scope(s, x.env)) && Starts(y, c, st) && CallsOk(y, fuel)
    ensures y.env.deepest <= y.env.lo && y.env.names == Names(s, x.env.names) && Extends(y.env, x.env)
    ensures Laid(y.env, y.z) && y.env.deepest <= x.env.deepest
  {
    hide CallsOk, Agrees, Scope, Names;
    y := x.(env := Scope(s, x.env));
    StmtGrows(x, s, x.z);
    CallsCtx(x, y, fuel);
    AgreesGrow(x.env, y.env, st, c.ebp, c.mem);
  }

  /** The parts of an if or a while need no more and write no more than the whole. */
  lemma BranchParts(s: Stmt, env: Env)
    requires s.If? || s.IfElse? || s.While?
    ensures NeedE(s.c) <= NeedS(s) && WritesE(s.c, env) <= WritesS(s, env)
    ensures (s.If? || s.IfElse?) ==> NeedS(s.t) <= NeedS(s) && WritesS(s.t, env) <= WritesS(s, env)
    ensures s.IfElse? ==> Max(NeedS(s.t), NeedS(s.f)) <= NeedS(s) && WritesS(s.f, Scope(s.t, env)) <= WritesS(s, env)
    ensures s.While? ==> NeedS(s.body) <= NeedS(s) && WritesS(s.body, env) <= WritesS(s, env)
  {
    hide NeedE, WritesE, Scope;
  }

  lemma {:induction false} IfRuns(x: Ctx, s: Stmt, q: Exits, c: Cpu, st: Store, fuel: nat) returns (t: State)
    requires s.If? && ReadyS(x, s, q, c, st, fuel)
    ensures Goes(x.code, Live(c), t)
    ensures Finished(x.open, Scope(s, x.env), q, c, t, c.pc + SizeS(s), Run(x.p, s, x.env.names, st, fuel),
        NeedS(s) + Deep(x.p, fuel))
    decreases fuel, s, 0
  {
    hide At, Test, CallsOk, CodeE, CodeS, SizeE, SizeS, Eval, Laid, Agrees, Kept, WfE, Goes, NeedS, NeedE, WritesS,
         WritesE, Deep, Within;
    BranchParts(s, x.env);
    IfAt(x, s, q, c.pc);
    var r := Eval(x.p, s.c, x.env.names, st, fuel);
    t := Decides(x, s.c, c, st, fuel, SizeS(s.t));
    if t.Live? {
      var c1 := t.cpu;
      if r.value == 0 {
        var y := NextCtx(x, s, c1, r.st, fuel);
      } else {
        t := StmtRuns(x, s.t, q, c1, r.st, fuel);
        Chain(x.code, Live(c), Live(c1), t);
        FinishedFrom(x, Scope(s, x.env), q, c, c1, t, c.pc + SizeS(s), Run(x.p, s, x.env.names, st, fuel),
            NeedS(s.t) + Deep(x.p, fuel), NeedS(s) + Deep(x.p, fuel));
      }
    }
  }

  lemma {:induction false} IfElseRuns(x: Ctx, s: Stmt, q: Exits, c: Cpu, st: Store, fuel: nat) returns (t: State)
    requires s.IfElse? && ReadyS(x, s, q, c, st, fuel)
    ensures Goes(x.code, Live(c), t)
    ensures Finished(x.open, Scope(s, x.env), q, c, t, c.pc + SizeS(s), Run(x.p, s, x.env.names, st, fuel),
        NeedS(s) + Deep(x.p, fuel))
    decreases fuel, s, 0
  {
    hide At, Test, CallsOk, CodeE, CodeS, SizeE, SizeS, Eval, Laid, Agrees, Kept, WfE, Enc, Wrap, Scope, Names, Goes,
         NeedS, NeedE, WritesS, WritesE, Deep, Within;
    BranchParts(s, x.env);
    IfElseAt(x, s, q, c.pc);
    IfElseScope(x, s);
    var r := Eval(x.p, s.c, x.env.names, st, fuel);
    var o := Run(x.p, s, x.env.names, st, fuel);
    t := Decides(x, s.c, c, st, fuel, SizeS(s.t) + 5);
    if t.Live? {
      var c1 := t.cpu;
      if r.value == 0 {
        var y := NextCtx(x, s.t, c1, r.st, fuel);
        t := StmtRuns(y, s.f, q, c1, r.st, fuel);
        Chain(x.code, Live(c), Live(c1), t);
      } else {
        t := StmtRuns(x, s.t, q, c1, r.st, fuel);
        Chain(x.code, Live(c), Live(c1), t);
        FinishedGrow(x.open, Scope(s.t, x.env), Scope(s, x.env), q, c1, t, c1.pc + SizeS(s.t), o,
            NeedS(s.t) + Deep(x.p, fuel));
        if t.Live? && o.Next? {
          var c2 := t.cpu;
          t := JumpBy(x.code, c2, SizeS(s.f));
          Chain(x.code, Live(c), Live(c2), t);
        }
      }
      FinishedFrom(x, Scope(s, x.env), q, c, c1, t, c.pc + SizeS(s), o, Max(NeedS(s.t), NeedS(s.f)) + Deep(x.p, fuel),
          NeedS(s) + Deep(x.p, fuel));
    }
  }

  lemma IfElseScope(x: Ctx, s: Stmt)
    requires s.IfElse? && Laid(x.env, x.z) && x.env.deepest <= x.env.lo && x.z.bot <= Scope(s, x.env).deepest
    ensures Scope(s, x.env) == Scope(s.f, Scope(s.t, x.env)) && x.z.bot <= Scope(s.t, x.env).deepest
    ensures Extends(Scope(s, x.env), Scope(s.t, x.env))
  {
    ScopeMonotone(s.t, x.env);
    ScopeMonotone(s.f, Scope(s.t, x.env));
    ScopeLaid(s.t, x.env, x.z);
  }

  lemma {:induction false} StmtRuns(x: Ctx, s: Stmt, q: Exits, c: Cpu, st: Store, fuel: nat) returns (t: State)
    requires ReadyS(x, s, q, c, st, fuel)
    ensures Goes(x.code, Live(c), t)
    ensures Finished(x.open, Scope(s, x.env), q, c, t, c.pc + SizeS(s), Run(x.p, s, x.env.names, st, fuel),
        NeedS(s) + Deep(x.p, fuel))
    decreases fuel, s, 4
  {
    hide *;
    match s
    case Decl(_, _) => t := DeclRuns(x, s, q, c, st, fuel);
    case DeclArray(_, _) => t := ArrayRuns(x, s, q, c, st, fuel);
    case Assign(_, _, _) => t := AssignRuns(x, s, q, c, st, fuel);
    case BumpStmt(_, _) => t := SimpleRuns(x, s, q, c, st, fuel);
    case ExprStmt(_) => t := SimpleRuns(x, s, q, c, st, fuel);
    case If(_, _) => t := IfRuns(x, s, q, c, st, fuel);
    case IfElse(_, _, _) => t := IfElseRuns(x, s, q, c, st, fuel);
    case While(_, _) => t := WhileRuns(x, s, q, c, st, fuel);
    case For(_, _, _, _) => t := ForRuns(x, s, q, c, st, fuel);
    case Break => t := JumpRuns(x, s, q, c, st, fuel);
    case Continue => t := JumpRuns(x, s, q, c, st, fuel);
    case Return(_) => t := ReturnRuns(x, s, q, c, st, fuel);
    case Block(_) => t := BlockRuns(x, s, q, c, st, fuel);
    case Empty => t := SimpleRuns(x, s, q, c, st, fuel);
  }

  lemma WhileAt(x: Ctx, s: Stmt, q: Exits, pc: nat)
    requires s.While? && At(x.code, pc, CodeS(s, x.env, pc, q, x.entries))
    ensures var pb := pc + SizeE(s.c) + 9; var end := pc + SizeS(s);
      && At(x.code, pc, CodeE(s.c, x.env, pc, x.entries)) && At(x.code, pc + SizeE(s.c), Test(SizeS(s.body) + 5))
      && At(x.code, pb, CodeS(s.body, x.env, pb, Exits(Some(end), pc), x.entries))
      && At(x.code, pb + SizeS(s.body), Enc(Jmp(Wrap(0 - SizeS(s)))))
      && SizeS(s) == SizeE(s.c) + 9 + SizeS(s.body) + 5 && end <= |x.code|
  {
    hide At, Test, CodeE, SizeE, Scope, Enc, Wrap;
    AtFits(x.code, pc, CodeS(s, x.env, pc, q, x.entries));
    var pb := pc + SizeE(s.c) + 9;
    var cq, cb := CodeE(s.c, x.env, pc, x.entries), CodeS(s.body, x.env, pb, Exits(Some(pc + SizeS(s)), pc), x.entries);
    var jump := Enc(Jmp(Wrap(-(|cq| + 9 + |cb| + 5))));
    TestSize(|cb| + 5);
    AtSplit(x.code, pc, cq + Test(|cb| + 5), cb + jump);
    AtSplit(x.code, pc, cq, Test(|cb| + 5));
    AtSplit(x.code, pb, cb, jump);
  }

  lemma CallsLess(x: Ctx, fuel: nat)
    requires CallsOk(x, fuel) && fuel > 0
    ensures CallsOk(x, fuel - 1)
  {
    hide CallOk;
  }

  /** A loop body's outcome, seen from the loop: its own declarations are gone. */
  lemma BodyDone(x: Ctx, body: Stmt, q: Exits, c: Cpu, t: State, next: int, o: Outcome, need: nat)
    requires Laid(x.env, x.z) && x.env.deepest <= x.env.lo && x.z.bot <= Scope(body, x.env).deepest
    requires Finished(x.open, Scope(body, x.env), q, c, t, next, o, need)
    ensures Finished(x.open, x.env, q, c, t, next, Leave(o, |x.env.names|), need)
  {
    hide Finished, Laid, Scope;
    StmtGrows(x, body, x.z);
    FinishedLeave(x.open, x.env, Scope(body, x.env), q, c, t, next, o, need);
  }

  lemma AgainGood(p: Program, s: Stmt, names: seq<Name>, o: Outcome, fuel: nat)
    requires s.While? && Good(Again(p, s, names, o, fuel))
    ensures Good(o)
  {
    hide Run;
  }

  lemma {:induction false} WhileRuns(x: Ctx, s: Stmt, q: Exits, c: Cpu, st: Store, fuel: nat) returns (t: State)
    requires s.While? && ReadyS(x, s, q, c, st, fuel)
    ensures Goes(x.code, Live(c), t)
    ensures Finished(x.open, Scope(s, x.env), q, c, t, c.pc + SizeS(s), Run(x.p, s, x.env.names, st, fuel),
        NeedS(s) + Deep(x.p, fuel))
    decreases fuel, s, 3
  {
    hide At, Test, CallsOk, CodeE, CodeS, SizeE, SizeS, Eval, Laid, Agrees, Kept, WfE, Enc, Wrap, Names, Goes, NeedS,
         NeedE, WritesS, WritesE, Deep, Within;
    BranchParts(s, x.env);
    WhileAt(x, s, q, c.pc);
    var r := Eval(x.p, s.c, x.env.names, st, fuel);
    var o := Run(x.p, s, x.env.names, st, fuel);
    t := Decides(x, s.c, c, st, fuel, SizeS(s.body) + 5);
    if t.Live? {
      var c1 := t.cpu;
      if r.value == 0 {
        var y := NextCtx(x, s, c1, r.st, fuel);
      } else {
        var q1 := Exits(Some(c.pc + SizeS(s)), c.pc);
        var o1 := Run(x.p, s.body, x.env.names, r.st, fuel);
        AgainGood(x.p, s, x.env.names, o1, fuel);
        t := StmtRuns(x, s.body, q1, c1, r.st, fuel);
        Chain(x.code, Live(c), Live(c1), t);
        BodyDone(x, s.body, q1, c1, t, c1.pc + SizeS(s.body), o1, NeedS(s.body) + Deep(x.p, fuel));
        t := WhileAgain(x, s, q, c, c1, t, st, o1, fuel);
      }
    }
  }

  /** Another round of a while loop. */
  lemma {:induction false} WhileRepeats(x: Ctx, s: Stmt, q: Exits, c: Cpu, d: Cpu, st: Store, st2: Store,
      fuel: nat) returns (t: State)
    requires s.While? && fuel > 0 && ReadyS(x, s, q, c, st, fuel)
    requires d.pc == c.pc && Stays(x.open, c, d) && Starts(x, d, st2) && Good(Run(x.p, s, x.env.names, st2, fuel - 1))
    ensures Goes(x.code, Live(d), t)
    ensures Finished(x.open, Scope(s, x.env), q, c, t, c.pc + SizeS(s), Run(x.p, s, x.env.names, st2, fuel - 1),
        NeedS(s) + Deep(x.p, fuel))
    decreases fuel, s, 1
  {
    hide At, CallsOk, CodeS, SizeS, Run, Laid, Agrees, Kept, WfS, Scope;
    CallsLess(x, fuel);
    t := StmtRuns(x, s, q, d, st2, fuel - 1);
    FinishedFrom(x, Scope(s, x.env), q, c, d, t, c.pc + SizeS(s), Run(x.p, s, x.env.names, st2, fuel - 1),
        NeedS(s) + Deep(x.p, fuel - 1), NeedS(s) + Deep(x.p, fuel));
  }

  /** After the body of a while loop. */
  lemma {:induction false} WhileAgain(x: Ctx, s: Stmt, q: Exits, c: Cpu, c1: Cpu, t1: State, st: Store, o1: Outcome,
      fuel: nat) returns (t: State)
    requires s.While? && ReadyS(x, s, q, c, st, fuel) && Good(Again(x.p, s, x.env.names, o1, fuel))
    requires Stays(x.open, c, c1) && Goes(x.code, Live(c), t1)
    requires Finished(x.open, x.env, Exits(Some(c.pc + SizeS(s)), c.pc), c1, t1, c.pc + SizeS(s) - 5,
        Leave(o1, |x.env.names|), NeedS(s.body) + Deep(x.p, fuel))
    ensures Goes(x.code, Live(c), t)
    ensures Finished(x.open, Scope(s, x.env), q, c, t, c.pc + SizeS(s), Again(x.p, s, x.env.names, o1, fuel),
        NeedS(s) + Deep(x.p, fuel))
    decreases fuel, s, 2
  {
    hide At, Enc, Wrap, CallsOk, CodeS, SizeS, Run, Laid, Agrees, Kept, Scope, Test, CodeE, SizeE, Goes, NeedS,
         NeedE, WritesS, WritesE, Deep, WritesO;
    BranchParts(s, x.env);
    WhileAt(x, s, q, c.pc);
    t := t1;
    var n := |x.env.names|;
    var end := c.pc + SizeS(s);
    FinishedFrom(x, x.env, Exits(Some(end), c.pc), c, c1, t1, end - 5, Leave(o1, n), NeedS(s.body) + Deep(x.p, fuel),
        NeedS(s) + Deep(x.p, fuel));
    if t.Live? {
      match o1
      case Next(st1) =>
        t := JumpBy(x.code, t1.cpu, 0 - SizeS(s));
        Chain(x.code, Live(c), t1, t);
        StartsAfter(x, c, t.cpu, st, Keep(st1, n));
        var d := t.cpu;
        t := WhileRepeats(x, s, q, c, d, st, Keep(st1, n), fuel);
        Chain(x.code, Live(c), Live(d), t);
      case Continued(st1) =>
        StartsAfter(x, c, t1.cpu, st, Keep(st1, n));
        t := WhileRepeats(x, s, q, c, t1.cpu, st, Keep(st1, n), fuel);
        Chain(x.code, Live(c), t1, t);
      case Broke(st1) =>
        StmtGrows(x, s, x.z);
        AgreesGrow(x.env, Scope(s, x.env), Keep(st1, n), c.ebp, t1.cpu.mem);
      case Returned(_) =>
      case _ => assert false;
    }
  }

  // ----- for loops -----

  function TestPos(s: Stmt, pos: nat): nat requires s.For? { pos + SizeS(s.start) }
  function StepPos(s: Stmt, pos: nat): nat requires s.For? { TestPos(s, pos) + SizeTest(s.cond) + 5 }
  function BodyPos(s: Stmt, pos: nat): nat requires s.For? { StepPos(s, pos) + SizeS(s.step) + 5 }
  function EndPos(s: Stmt, pos: nat): nat requires s.For? { BodyPos(s, pos) + SizeS(s.body) + 5 }

  /** The pieces of a for loop at `pos`, in the environment after its start. */
  ghost predicate ForLaidOut(x: Ctx, s: Stmt, q: Exits, pos: nat)
    requires s.For?
  {
    var test, inc, enter, end := TestPos(s, pos), StepPos(s, pos), BodyPos(s, pos), EndPos(s, pos);
    && (s.cond.Some? ==>
         && At(x.code, test, CodeE(s.cond.value, x.env, test, x.entries))
         && At(x.code, test + SizeE(s.cond.value), Test(end - (inc - 5))))
    && At(x.code, inc - 5, Enc(Jmp(Wrap(SizeS(s.step) + 5))))
    && At(x.code, inc, CodeS(s.step, x.env, inc, q, x.entries))
    && At(x.code, enter - 5, Enc(Jmp(Wrap(test - enter))))
    && At(x.code, enter, CodeS(s.body, x.env, enter, Exits(Some(end), inc), x.entries))
    && At(x.code, end - 5, Enc(Jmp(Wrap(inc - end))))
    && end <= |x.code|
  }

  lemma ForCodeAt(code: seq<Byte>, pc: int, test: Option<seq<Byte>>, step: seq<Byte>, body: seq<Byte>)
    requires At(code, pc, ForCode(test, step, body))
    ensures var n := if test.None? then 0 else |test.value| + 9; var p1 := pc + n + 5; var p2 := p1 + |step| + 5;
      && (test.Some? ==> At(code, pc, test.value) && At(code, pc + |test.value|, Test(5 + |step| + 5 + |body| + 5)))
      && At(code, p1 - 5, Enc(Jmp(Wrap(|step| + 5)))) && At(code, p1, step)
      && At(code, p2 - 5, Enc(Jmp(Wrap(-(n + 5 + |step| + 5))))) && At(code, p2, body)
      && At(code, p2 + |body|, Enc(Jmp(Wrap(-(|step| + 5 + |body| + 5)))))
  {
    hide At, Enc, Test, Wrap;
    var rest := 5 + |step| + 5 + |body| + 5;
    TestSize(rest);
    var head := if test.None? then [] else test.value + Test(rest);
    var over, back, again := Enc(Jmp(Wrap(|step| + 5))), Enc(Jmp(Wrap(-(|head| + 5 + |step| + 5)))),
      Enc(Jmp(Wrap(-(|step| + 5 + |body| + 5))));
    AtSplit(code, pc, head + over, step + back + (body + again));
    AtSplit(code, pc, head, over);
    if test.Some? { AtSplit(code, pc, test.value, Test(rest)); }
    AtSplit(code, pc + |head| + 5, step + back, body + again);
    AtSplit(code, pc + |head| + 5, step, back);
    AtSplit(code, pc + |head| + 5 + |step| + 5, body, again);
  }

  lemma StepScope(s: Stmt, env: Env)
    requires IsStep(s)
    ensures Scope(s, env) == env
  {
  }

  lemma ForSize(s: Stmt)
    requires s.For?
    ensures SizeS(s) == SizeS(s.start) + SizeTest(s.cond) + 5 + SizeS(s.step) + 5 + SizeS(s.body) + 5
  {
    hide SizeTest;
  }

  lemma CodeForIs(s: Stmt, env: Env, pos: nat, q: Exits, entries: Entries)
    requires s.For?
    ensures CodeS(s, env, pos, q, entries) == CodeFor(s, env, pos, q, entries)
  {
    hide CodeFor;
  }

  lemma ForIs(x: Ctx, s: Stmt, q: Exits, pc: nat)
    requires s.For? && IsStep(s.step)
    ensures var env1 := Scope(s.start, x.env); var test := TestPos(s, pc);
      CodeS(s, x.env, pc, q, x.entries) == CodeS(s.start, x.env, pc, q, x.entries)
        + ForCode(if s.cond.None? then None else Some(CodeE(s.cond.value, env1, test, x.entries)),
                  CodeS(s.step, env1, StepPos(s, pc), q, x.entries),
                  CodeS(s.body, env1, BodyPos(s, pc), Exits(Some(EndPos(s, pc)), StepPos(s, pc)), x.entries))
    ensures EndPos(s, pc) == pc + SizeS(s)
  {
    hide CodeE, SizeE, ForCode, CodeS, SizeS;
    StepScope(s.step, Scope(s.start, x.env));
    ForSize(s);
    CodeForIs(s, x.env, pc, q, x.entries);
  }

  lemma ForAt(x: Ctx, s: Stmt, q: Exits, pc: nat)
    requires s.For? && IsStep(s.step) && At(x.code, pc, CodeS(s, x.env, pc, q, x.entries))
    ensures At(x.code, pc, CodeS(s.start, x.env, pc, q, x.entries))
    ensures ForLaidOut(x.(env := Scope(s.start, x.env)), s, q, pc) && EndPos(s, pc) == pc + SizeS(s)
  {
    hide At, Enc, Test, Wrap, CodeE, SizeE, ForCode, CodeS, SizeS, Scope;
    ForIs(x, s, q, pc);
    AtFits(x.code, pc, CodeS(s, x.env, pc, q, x.entries));
    var env1 := Scope(s.start, x.env);
    var ct := if s.cond.None? then None else Some(CodeE(s.cond.value, env1, TestPos(s, pc), x.entries));
    var cs := CodeS(s.step, env1, StepPos(s, pc), q, x.entries);
    var cb := CodeS(s.body, env1, BodyPos(s, pc), Exits(Some(EndPos(s, pc)), StepPos(s, pc)), x.entries);
    AtSplit(x.code, pc, CodeS(s.start, x.env, pc, q, x.entries), ForCode(ct, cs, cb));
    ForCodeAt(x.code, TestPos(s, pc), ct, cs, cb);
  }

  /** What holds whenever control is inside a for loop. */
  ghost predicate InFor(x: Ctx, s: Stmt, q: Exits, pos: nat, fuel: nat)
  {
    && s.For? && WfS(s) && ExitsOk(q) && CallsOk(x, fuel) && ForLaidOut(x, s, q, pos)
    && x.env.deepest <= x.env.lo && x.z.bot <= Scope(s.body, x.env).deepest
    && WritesO(s.cond, x.env) <= x.open && WritesS(s.step, x.env) <= x.open && WritesS(s.body, x.env) <= x.open
  }

  /** The test: falls into the jump over the step, or leaves the loop. */
  lemma ForDecides(x: Ctx, s: Stmt, q: Exits, pos: nat, c: Cpu, st: Store, fuel: nat) returns (t: State)
    requires InFor(x, s, q, pos, fuel) && Starts(x, c, st) && c.pc == TestPos(s, pos)
    requires s.cond.Some? ==> Eval(x.p, s.cond.value, x.env.names, st, fuel).Done?
    ensures Goes(x.code, Live(c), t)
    ensures var r := if s.cond.None? then Done(1, st) else Eval(x.p, s.cond.value, x.env.names, st, fuel);
      Exhausted(c, t, NeedS(s) + Deep(x.p, fuel)) ||
      (t.Live? && t.cpu.pc == (if r.value == 0 then EndPos(s, pos) else BodyPos(s, pos))
       && Stays(x.open, c, t.cpu) && Starts(x, t.cpu, r.st))
  {
    hide At, Test, Enc, Wrap, Eval, SizeE, SizeS, CodeE, CodeS, Laid, Agrees, Kept, CallsOk, WfE, Scope, Goes;
    if s.cond.None? {
      KeptSelf(x.open, c);
      t := Live(c);
      Here(x.code, t);
    } else {
      t := Decides(x, s.cond.value, c, st, fuel, EndPos(s, pos) - (StepPos(s, pos) - 5));
    }
    if t.Live? && t.cpu.pc == StepPos(s, pos) - 5 {
      var c1 := t.cpu;
      t := JumpBy(x.code, c1, SizeS(s.step) + 5);
      Chain(x.code, Live(c), Live(c1), t);
      var r := if s.cond.None? then Done(1, st) else Eval(x.p, s.cond.value, x.env.names, st, fuel);
      SameStarts(x, c1, t.cpu, r.st);
    }
  }

  lemma LoopGood(p: Program, s: Stmt, names: seq<Name>, st: Store, fuel: nat)
    requires s.For? && Good(Loop(p, s, names, st, fuel))
    ensures s.cond.Some? ==> Eval(p, s.cond.value, names, st, fuel).Done?
    ensures var r := if s.cond.None? then Done(1, st) else Eval(p, s.cond.value, names, st, fuel);
      var o := Run(p, s.body, names, r.st, fuel);
      && (r.value == 0 ==> Loop(p, s, names, st, fuel) == Next(r.st))
      && (r.value != 0 ==> Good(o) && Loop(p, s, names, st, fuel) == ForAfter(p, s, names, o, fuel))
  {
    hide Run, Eval;
  }

  /** What a for loop does after its body ended with `o`. */
  function ForAfter(p: Program, s: Stmt, names: seq<Name>, o: Outcome, fuel: nat): Outcome
    requires s.For?
  {
    match o
    case Next(st) => Advance(p, s, names, Keep(st, |names|), fuel)
    case Continued(st) => Advance(p, s, names, Keep(st, |names|), fuel)
    case Broke(st) => Next(Keep(st, |names|))
    case _ => o
  }

  lemma {:induction false} LoopRuns(x: Ctx, s: Stmt, q: Exits, pos: nat, c: Cpu, st: Store,
      fuel: nat) returns (t: State)
    requires InFor(x, s, q, pos, fuel) && Starts(x, c, st) && c.pc == TestPos(s, pos)
    requires Good(Loop(x.p, s, x.env.names, st, fuel))
    ensures Goes(x.code, Live(c), t)
    ensures Finished(x.open, Scope(s.body, x.env), q, c, t, EndPos(s, pos), Loop(x.p, s, x.env.names, st, fuel),
        NeedS(s) + Deep(x.p, fuel))
    decreases fuel, s, 2
  {
    hide At, Test, Enc, Wrap, Eval, SizeE, SizeS, CodeE, CodeS, Laid, Agrees, Kept, CallsOk, Scope, Run, Advance, Goes;
    LoopGood(x.p, s, x.env.names, st, fuel);
    var r := if s.cond.None? then Done(1, st) else Eval(x.p, s.cond.value, x.env.names, st, fuel);
    t := ForDecides(x, s, q, pos, c, st, fuel);
    if t.Live? {
      var c1 := t.cpu;
      if r.value == 0 {
        StmtGrows(x, s.body, x.z);
        AgreesGrow(x.env, Scope(s.body, x.env), r.st, c.ebp, c1.mem);
      } else {
        var q1, o1 := Exits(Some(EndPos(s, pos)), StepPos(s, pos)), Run(x.p, s.body, x.env.names, r.st, fuel);
        t := StmtRuns(x, s.body, q1, c1, r.st, fuel);
        Chain(x.code, Live(c), Live(c1), t);
        BodyDone(x, s.body, q1, c1, t, EndPos(s, pos) - 5, o1, NeedS(s.body) + Deep(x.p, fuel));
        FinishedFrom(x, x.env, q1, c, c1, t, EndPos(s, pos) - 5, Leave(o1, |x.env.names|),
            NeedS(s.body) + Deep(x.p, fuel), NeedS(s) + Deep(x.p, fuel));
        t := LoopAfter(x, s, q, pos, c, t, st, o1, fuel);
      }
    }
  }

  /** After the body of a for loop. */
  lemma {:induction false} LoopAfter(x: Ctx, s: Stmt, q: Exits, pos: nat, c: Cpu, t1: State, st: Store, o: Outcome,
      fuel: nat) returns (t: State)
    requires InFor(x, s, q, pos, fuel) && Starts(x, c, st) && Goes(x.code, Live(c), t1)
    requires Finished(x.open, x.env, Exits(Some(EndPos(s, pos)), StepPos(s, pos)), c, t1, EndPos(s, pos) - 5,
        Leave(o, |x.env.names|), NeedS(s) + Deep(x.p, fuel))
    requires Good(ForAfter(x.p, s, x.env.names, o, fuel))
    ensures Goes(x.code, Live(c), t)
    ensures Finished(x.open, Scope(s.body, x.env), q, c, t, EndPos(s, pos), ForAfter(x.p, s, x.env.names, o, fuel),
        NeedS(s) + Deep(x.p, fuel))
    decreases fuel, s, 1
  {
    hide At, Test, Enc, Wrap, SizeE, SizeS, CodeE, CodeS, Laid, Agrees, Kept, CallsOk, Scope, Run, Advance, Goes;
    t := t1;
    var n := |x.env.names|;
    if t.Live? {
      if o.Next? {
        t := JumpBy(x.code, t1.cpu, StepPos(s, pos) - EndPos(s, pos));
        Chain(x.code, Live(c), t1, t);
      }
      if o.Next? || o.Continued? {
        var d := t.cpu;
        StartsAfter(x, c, d, st, Keep(o.st, n));
        t := AdvanceRuns(x, s, q, pos, d, Keep(o.st, n), fuel);
        Chain(x.code, Live(c), Live(d), t);
        FinishedFrom(x, Scope(s.body, x.env), q, c, d, t, EndPos(s, pos), ForAfter(x.p, s, x.env.names, o, fuel),
            NeedS(s) + Deep(x.p, fuel), NeedS(s) + Deep(x.p, fuel));
      } else {
        StmtGrows(x, s.body, x.z);
        if o.Broke? { AgreesGrow(x.env, Scope(s.body, x.env), Keep(o.st, n), c.ebp, t1.cpu.mem); }
      }
    }
  }

  lemma AdvanceGood(p: Program, s: Stmt, names: seq<Name>, st: Store, fuel: nat)
    requires s.For? && Good(Advance(p, s, names, st, fuel))
    ensures fuel > 0
    ensures var o := Run(p, s.step, names, st, fuel);
      o.Next? && Advance(p, s, names, st, fuel) == Loop(p, s, names, Keep(o.st, |names|), fuel - 1)
  {
    hide Run;
  }

  /** The step of a for loop and everything after it. */
  lemma {:induction false} AdvanceRuns(x: Ctx, s: Stmt, q: Exits, pos: nat, c: Cpu, st: Store,
      fuel: nat) returns (t: State)
    requires InFor(x, s, q, pos, fuel) && Starts(x, c, st) && c.pc == StepPos(s, pos)
    requires Good(Advance(x.p, s, x.env.names, st, fuel))
    ensures Goes(x.code, Live(c), t)
    ensures Finished(x.open, Scope(s.body, x.env), q, c, t, EndPos(s, pos), Advance(x.p, s, x.env.names, st, fuel),
        NeedS(s) + Deep(x.p, fuel))
    decreases fuel, s, 0
  {
    hide At, Test, Enc, Wrap, SizeE, SizeS, CodeE, CodeS, Laid, Agrees, Kept, CallsOk, Run, Loop, Advance, Goes;
    AdvanceGood(x.p, s, x.env.names, st, fuel);
    assert Scope(s.step, x.env) == x.env;
    ScopeMonotone(s.body, x.env);
    var o := Run(x.p, s.step, x.env.names, st, fuel);
    t := StmtRuns(x, s.step, q, c, st, fuel);
    if t.Live? {
      var c1 := t.cpu;
      t := JumpBy(x.code, c1, TestPos(s, pos) - BodyPos(s, pos));
      Chain(x.code, Live(c), Live(c1), t);
      var d := t.cpu;
      var n := |x.env.names|;
      LaidLengths(x.env, x.z);
      AgreesKeep(x.env, x.env, o.st, c.ebp, d.mem);
      StartsAfter(x, c, d, st, Keep(o.st, n));
      CallsLess(x, fuel);
      t := LoopRuns(x, s, q, pos, d, Keep(o.st, n), fuel - 1);
      Chain(x.code, Live(c), Live(d), t);
      FinishedFrom(x, Scope(s.body, x.env), q, c, d, t, EndPos(s, pos), Advance(x.p, s, x.env.names, st, fuel),
          NeedS(s) + Deep(x.p, fuel - 1), NeedS(s) + Deep(x.p, fuel));
    }
  }

  lemma ForScope(x: Ctx, s: Stmt)
    requires s.For? && IsStep(s.step) && x.env.deepest <= x.env.lo
    ensures Scope(s, x.env) == Scope(s.body, Scope(s.start, x.env))
    ensures Scope(s, x.env).deepest <= Scope(s.start, x.env).deepest
  {
    ScopeMonotone(s.start, x.env);
    ScopeMonotone(s.body, Scope(s.start, x.env));
  }

  lemma ForGood(p: Program, s: Stmt, names: seq<Name>, st: Store, fuel: nat)
    requires s.For? && Good(Run(p, s, names, st, fuel))
    ensures var o := Run(p, s.start, names, st, fuel);
      o.Next? && Run(p, s, names, st, fuel) == Loop(p, s, Names(s.start, names), o.st, fuel)
  {
    hide Loop;
  }

  lemma ForNeeds(s: Stmt)
    requires s.For?
    ensures NeedS(s.start) <= NeedS(s) && NeedO(s.cond) <= NeedS(s) && NeedS(s.step) <= NeedS(s)
    ensures NeedS(s.body) <= NeedS(s)
  {
    hide NeedO;
  }

  lemma ForWrites(s: Stmt, env: Env)
    requires s.For? && IsStep(s.step)
    ensures var env1 := Scope(s.start, env);
      WritesS(s, env) == WritesS(s.start, env) + WritesO(s.cond, env1) + WritesS(s.step, env1) + WritesS(s.body, env1)
  {
    StepScope(s.step, Scope(s.start, env));
    hide WritesO;
  }

  lemma {:induction false} ForRuns(x: Ctx, s: Stmt, q: Exits, c: Cpu, st: Store, fuel: nat) returns (t: State)
    requires s.For? && ReadyS(x, s, q, c, st, fuel)
    ensures Goes(x.code, Live(c), t)
    ensures Finished(x.open, Scope(s, x.env), q, c, t, c.pc + SizeS(s), Run(x.p, s, x.env.names, st, fuel),
        NeedS(s) + Deep(x.p, fuel))
    decreases fuel, s, 3
  {
    hide At, CodeS, SizeS, Laid, Agrees, Kept, CallsOk, Run, Loop, Scope, Names, ForLaidOut, EndPos, Goes, NeedS,
         NeedE, WritesS, WritesE, Deep, Max;
    ForGood(x.p, s, x.env.names, st, fuel);
    ForScope(x, s);
    ForAt(x, s, q, c.pc);
    ForNeeds(s);
    ForWrites(s, x.env);
    var o := Run(x.p, s.start, x.env.names, st, fuel);
    t := StmtRuns(x, s.start, q, c, st, fuel);
    if t.Live? {
      var c1 := t.cpu;
      var y := NextCtx(x, s.start, c, st, fuel);
      StartsAfter(y, c, c1, st, o.st);
      t := LoopRuns(y, s, q, c.pc, c1, o.st, fuel);
      Chain(x.code, Live(c), Live(c1), t);
      FinishedFrom(x, Scope(s, x.env), q, c, c1, t, c.pc + SizeS(s), Run(x.p, s, x.env.names, st, fuel),
          NeedS(s) + Deep(x.p, fuel), NeedS(s) + Deep(x.p, fuel));
    }
  }

  lemma {:induction false} BlockRuns(x: Ctx, s: Stmt, q: Exits, c: Cpu, st: Store, fuel: nat) returns (t: State)
    requires s.Block? && ReadyS(x, s, q, c, st, fuel)
    ensures Goes(x.code, Live(c), t)
    ensures Finished(x.open, Scope(s, x.env), q, c, t, c.pc + SizeS(s), Run(x.p, s, x.env.names, st, fuel),
        NeedS(s) + Deep(x.p, fuel))
    decreases fuel, s, 0
  {
    hide At, CallsOk, Laid, Agrees, Kept, RunAll, CodeSs, Goes;
    t := AllRun(x, s.ss, q, c, st, fuel);
    AllGrows(x, s.ss);
    FinishedLeave(x.open, x.env, ScopeAll(s.ss, x.env), q, c, t, c.pc + SizeS(s),
        RunAll(x.p, s.ss, x.env.names, st, fuel), NeedSs(s.ss) + Deep(x.p, fuel));
    FinishedGrow(x.open, x.env, Scope(s, x.env), q, c, t, c.pc + SizeS(s), Run(x.p, s, x.env.names, st, fuel),
        NeedS(s) + Deep(x.p, fuel));
  }

  lemma {:induction false} AllGrows(x: Ctx, ss: Stmts)
    requires Laid(x.env, x.z) && x.env.deepest <= x.env.lo && x.z.bot <= ScopeAll(ss, x.env).deepest
    ensures Extends(ScopeAll(ss, x.env), x.env)
    decreases ss
  {
    hide Laid, Scope;
    match ss
    case SNil => assert |x.env.slots| == |x.env.names| by { LaidLengths(x.env, x.z); }
    case SCons(s, tail) =>
      ScopeAllMonotone(tail, Scope(s, x.env));
      StmtGrows(x, s, x.z);
      AllGrows(x.(env := Scope(s, x.env)), tail);
  }

  lemma LaidLengths(env: Env, z: Zone)
    requires Laid(env, z)
    ensures |env.slots| == |env.names|
  {
  }

  ghost predicate ReadyAll(x: Ctx, ss: Stmts, q: Exits, c: Cpu, st: Store, fuel: nat)
  {
    && Starts(x, c, st) && CallsOk(x, fuel) && WfSs(ss) && ExitsOk(q) && c.pc >= 0
    && x.env.deepest <= x.env.lo && x.z.bot <= ScopeAll(ss, x.env).deepest
    && At(x.code, c.pc, CodeSs(ss, x.env, c.pc, q, x.entries))
    && Good(RunAll(x.p, ss, x.env.names, st, fuel)) && WritesSs(ss, x.env) <= x.open
  }

  lemma {:induction false} AllRun(x: Ctx, ss: Stmts, q: Exits, c: Cpu, st: Store, fuel: nat) returns (t: State)
    requires ReadyAll(x, ss, q, c, st, fuel)
    ensures Goes(x.code, Live(c), t)
    ensures Finished(x.open, ScopeAll(ss, x.env), q, c, t, c.pc + SizeSs(ss), RunAll(x.p, ss, x.env.names, st, fuel),
        NeedSs(ss) + Deep(x.p, fuel))
    decreases fuel, ss, 0
  {
    hide At, CallsOk, Laid, Agrees, Kept, Run, CodeS, SizeS, WfS, Scope, Names, Goes;
    match ss
    case SNil =>
      t := Live(c);
      Here(x.code, t);
      KeptSelf(x.open, c);
    case SCons(s, tail) =>
      var o := Run(x.p, s, x.env.names, st, fuel);
      ScopeAllMonotone(tail, Scope(s, x.env));
      AtSplit(x.code, c.pc, CodeS(s, x.env, c.pc, q, x.entries),
              CodeSs(tail, Scope(s, x.env), c.pc + SizeS(s), q, x.entries));
      t := StmtRuns(x, s, q, c, st, fuel);
      var y := NextCtx(x, s, c, st, fuel);
      AllGrows(y, tail);
      FinishedGrow(x.open, y.env, ScopeAll(ss, x.env), q, c, t, c.pc + SizeS(s), o, NeedS(s) + Deep(x.p, fuel));
      if t.Live? && o.Next? {
        var c1 := t.cpu;
        StartsAfter(y, c, c1, st, o.st);
        t := AllRun(y, tail, q, c1, o.st, fuel);
        Chain(x.code, Live(c), Live(c1), t);
        FinishedFrom(x, ScopeAll(ss, x.env), q, c, c1, t, c.pc + SizeSs(ss), RunAll(x.p, ss, x.env.names, st, fuel),
            NeedSs(tail) + Deep(x.p, fuel), NeedSs(ss) + Deep(x.p, fuel));
      }
  }
}
