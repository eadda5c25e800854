/** Compiled programs: every call of a compiled function returns what the source says. */
module ProgramCorrect {
  import opened Basics
  import opened X86
  import opened Machine
  import opened Cupid
  import opened Codegen
  import opened Frames
  import opened ExprCorrect
  import opened StmtCorrect

  /** The frame of `f` fits half the address space. */
  predicate WfF(f: Func)
  {
    var d := ScopeAll(f.body, FuncEnv(f.params)).deepest;
    WfSs(f.body) && -H + 16 < d
  }

  ghost predicate Loaded(code: seq<Byte>, p: Program, entries: Entries)
  {
    && |code| <= 0x10_0000
    && forall d :: d in p ==>
         && WfF(d) && d.name in entries && 0 <= entries[d.name] < 0x10_0000
         && At(code, entries[d.name], CodeF(d, entries[d.name], entries))
  }

  function FuncZone(f: Func): Zone { Zone(0 - FuncFrame(f), 8 + 4 * |f.params|) }

  lemma FrameCovers(f: Func)
    requires WfF(f)
    ensures var d := ScopeAll(f.body, FuncEnv(f.params)).deepest;
      d <= 0 && 0 - FuncFrame(f) <= d && 0 < FuncFrame(f) < H
  {
    ScopeAllMonotone(f.body, FuncEnv(f.params));
  }

  lemma ParamsLaid(f: Func)
    requires WfF(f)
    ensures Laid(FuncEnv(f.params), FuncZone(f))
  {
    hide ScopeAll, WfF, FuncFrame;
    FrameCovers(f);
  }

  lemma FuncParts(code: seq<Byte>, f: Func, pos: nat, entries: Entries)
    requires At(code, pos, CodeF(f, pos, entries))
    ensures At(code, pos, Enc(Push(Ebp))) && At(code, pos + 1, Enc(Mov(Ebp, Esp)))
    ensures At(code, pos + 3, Enc(SubImm(Esp, Wrap(FuncFrame(f)))))
    ensures At(code, pos + 9, CodeSs(f.body, FuncEnv(f.params), pos + 9, Exits(Some(0), 0), entries))
    ensures At(code, pos + 9 + SizeSs(f.body), Enc(MovImm(0))) && At(code, pos + 9 + SizeSs(f.body) + 5, Asm(Epilogue))
  {
    hide At, Enc, Asm, CodeSs, SizeSs, FuncFrame, Wrap, FuncEnv;
    var i1, i2, i3 := Push(Ebp), Mov(Ebp, Esp), SubImm(Esp, Wrap(FuncFrame(f)));
    var body := CodeSs(f.body, FuncEnv(f.params), pos + 9, Exits(Some(0), 0), entries);
    Asm3(i1, i2, i3);
    AtSplit(code, pos, Asm(Prologue(FuncFrame(f))), body + (Enc(MovImm(0)) + Asm(Epilogue)));
    AtSplit(code, pos, Enc(i1), Enc(i2) + Enc(i3));
    AtSplit(code, pos + 1, Enc(i2), Enc(i3));
    AtSplit(code, pos + 9, body, Enc(MovImm(0)) + Asm(Epilogue));
    AtSplit(code, pos + 9 + |body|, Enc(MovImm(0)), Asm(Epilogue));
  }

  /** The prologue: the frame pointer is saved, the frame reserved. */
  lemma Prologues(code: seq<Byte>, c: Cpu, frame: nat) returns (t: State)
    requires At(code, c.pc, Enc(Push(Ebp))) && At(code, c.pc + 1, Enc(Mov(Ebp, Esp)))
    requires At(code, c.pc + 3, Enc(SubImm(Esp, Wrap(frame)))) && frame < H
    ensures Goes(code, Live(c), t)
    ensures Exhausted(c, t, 4 + frame) ||
      (t.Live? && t.cpu.pc == c.pc + 9 && t.cpu.ebp == c.esp - 4 && t.cpu.esp == c.esp - 4 - frame
       && t.cpu.limit == c.limit <= t.cpu.esp && t.cpu.mem == Store32(c.mem, c.esp - 4, c.ebp))
  {
    hide At, Enc, Store32, Goes;
    OneStep(code, c, Push(Ebp));
    t := Exec(Push(Ebp), c);
    if t.Live? {
      var c1 := t.cpu;
      OneStep(code, c1, Mov(Ebp, Esp));
      var c2 := Exec(Mov(Ebp, Esp), c1).cpu;
      OneStep(code, c2, SubImm(Esp, Wrap(frame)));
      Chain(code, Live(c), Live(c1), Live(c2));
      t := Exec(SubImm(Esp, Wrap(frame)), c2);
      Chain(code, Live(c), Live(c2), t);
    }
  }

  /** On entry parameter k reads argument k, and the return address lies above the saved frame pointer. */
  lemma Entered(f: Func, vs: seq<Word>, c: Cpu, d: Cpu, entries: Entries)
    requires WfF(f) && |f.params| <= |vs| && Arrived(entries, f.name, vs, c)
    requires d.ebp == c.esp - 4 && d.esp == c.esp - 4 - FuncFrame(f) && d.limit == c.limit <= d.esp
    requires d.mem == Store32(c.mem, c.esp - 4, c.ebp)
    ensures Framed(FuncZone(f), d)
    ensures Agrees(FuncEnv(f.params), map i: nat | i < |f.params| :: vs[i], d.ebp, d.mem)
    ensures Load32(d.mem, d.ebp) == c.ebp && Load32(d.mem, d.ebp + 4) == Load32(c.mem, c.esp)
    ensures forall a :: c.esp <= a ==> d.mem(a) == c.mem(a)
  {
    hide Load32, Store32, WfF, FuncFrame, ScopeAll;
    FrameCovers(f);
    LoadStore(c.mem, c.esp - 4, c.ebp, c.esp);
    StoreElsewhere(c.mem, c.esp - 4, c.ebp);
    forall i: nat | i < |f.params|
      ensures Load32(d.mem, d.ebp + FuncEnv(f.params).slots[i].off) == vs[i]
    {
      LoadStore(c.mem, c.esp - 4, c.ebp, c.esp + 4 + 4 * i);
      assert FuncEnv(f.params).slots[i].off == 8 + 4 * i;
    }
  }

  lemma Leaves(c: Cpu, d: Cpu, e: Cpu, f: Func, v: Word, n: nat)
    requires |f.params| <= n && Exited(Area(FuncZone(f)), d, e, Some(v))
    requires d.ebp == c.esp - 4 && d.esp <= d.ebp && d.limit == c.limit
    requires Load32(d.mem, d.ebp) == c.ebp && Load32(d.mem, d.ebp + 4) == Load32(c.mem, c.esp)
    requires forall a :: c.esp <= a ==> d.mem(a) == c.mem(a)
    ensures CameBack(c, Live(e), v, n, 0)
  {
    hide Load32, FuncFrame;
  }

  lemma InvokeGood(p: Program, f: string, vs: seq<Word>, fuel: nat) returns (d: Func)
    requires var o := Invoke(p, f, vs, fuel); o.Returned? && o.v.Some?
    ensures d in p && d.name == f && |d.params| <= |vs|
    ensures var o := RunAll(p, d.body, ParamNames(d.params), map i: nat | i < |d.params| :: vs[i], fuel);
      && (o.Next? || o.Returned?)
      && Invoke(p, f, vs, fuel) == if o.Next? then Returned(Some(0)) else o
  {
    hide RunAll;
    d := Find(p, f).value;
  }

  /** A function writes inside its frame and its parameters only. */
  lemma BodyInside(f: Func)
    requires WfF(f)
    ensures WritesSs(f.body, FuncEnv(f.params)) <= Area(FuncZone(f))
  {
    hide ScopeAll, WfF, FuncFrame, Laid;
    FrameCovers(f);
    ParamsLaid(f);
    AllWriteInside(f.body, FuncEnv(f.params), FuncZone(f));
  }

  /** The body of a function and its default epilogue. */
  lemma BodyRuns(x: Ctx, f: Func, c: Cpu, st: Store, fuel: nat) returns (t: State)
    requires x.env == FuncEnv(f.params) && x.z == FuncZone(f) && x.open == Area(x.z) && WfF(f)
    requires Starts(x, c, st) && CallsOk(x, fuel) && c.pc >= 0
    requires At(x.code, c.pc, CodeSs(f.body, x.env, c.pc, Exits(Some(0), 0), x.entries))
    requires At(x.code, c.pc + SizeSs(f.body), Enc(MovImm(0))) && At(x.code, c.pc + SizeSs(f.body) + 5, Asm(Epilogue))
    requires var o := RunAll(x.p, f.body, x.env.names, st, fuel); o.Next? || (o.Returned? && o.v.Some?)
    ensures Goes(x.code, Live(c), t)
    ensures var o := RunAll(x.p, f.body, x.env.names, st, fuel);
      || Exhausted(c, t, NeedSs(f.body) + Deep(x.p, fuel))
      || (t.Live? && Exited(x.open, c, t.cpu, if o.Next? then Some(0) else o.v))
  {
    hide At, Enc, Asm, CodeSs, SizeSs, RunAll, CallsOk, Agrees, Laid, Kept, ScopeAll, Load32, FuncFrame, WfSs, Goes;
    var o := RunAll(x.p, f.body, x.env.names, st, fuel);
    FrameCovers(f);
    BodyInside(f);
    t := AllRun(x, f.body, Exits(Some(0), 0), c, st, fuel);
    if t.Live? && o.Next? {
      var c1 := t.cpu;
      OneStep(x.code, c1, MovImm(0));
      var c2 := Exec(MovImm(0), c1).cpu;
      Chain(x.code, Live(c), Live(c1), Live(c2));
      var d := Epilogues(x, c2);
      Chain(x.code, Live(c), Live(c2), Live(d));
      t := Live(d);
      StaysSame(x.open, c, c1, c2);
      FinishedFrom(x, x.env, Exits(Some(0), 0), c, c2, t, 0, Returned(Some(0)), 0, 0);
    }
  }

  lemma InvokeRuns(code: seq<Byte>, p: Program, entries: Entries, f: string, vs: seq<Word>, c: Cpu,
      fuel: nat) returns (t: State)
    requires Loaded(code, p, entries) && Arrived(entries, f, vs, c)
    requires CallsOk(Ctx(code, p, entries, FuncEnv([]), Zone(0, 8), iset{}), fuel)
    requires var o := Invoke(p, f, vs, fuel); o.Returned? && o.v.Some?
    ensures Goes(code, Live(c), t) && CameBack(c, t, Invoke(p, f, vs, fuel).v.value, |vs|, Deep(p, fuel + 1))
  {
    hide At, Enc, Asm, CodeF, CodeSs, SizeSs, Invoke, RunAll, CallsOk, Agrees, Laid, Load32, Store32, WfF, FuncFrame,
         FuncEnv, Kept, Goes;
    var d := InvokeGood(p, f, vs, fuel);
    FuncParts(code, d, c.pc, entries);
    FrameCovers(d);
    ActivationCovers(p, d);
    t := Prologues(code, c, FuncFrame(d));
    if t.Live? {
      var c1 := t.cpu;
      var st: Store := map i: nat | i < |d.params| :: vs[i];
      var x := Ctx(code, p, entries, FuncEnv(d.params), FuncZone(d), Area(FuncZone(d)));
      Entered(d, vs, c, c1, entries);
      ParamsLaid(d);
      CallsCtx(Ctx(code, p, entries, FuncEnv([]), Zone(0, 8), iset{}), x, fuel);
      assert x.env.names == ParamNames(d.params) by { EnvNames(d.params); }
      t := BodyRuns(x, d, c1, st, fuel);
      Chain(code, Live(c), Live(c1), t);
      if t.Live? {
        Leaves(c, c1, t.cpu, d, Invoke(p, f, vs, fuel).v.value, |vs|);
      }
    }
  }

  lemma EnvNames(params: seq<string>)
    ensures FuncEnv(params).names == ParamNames(params)
  {
  }

  /** By induction on the fuel, all calls are compiled correctly. */
  lemma {:induction false} AllCallsOk(code: seq<Byte>, p: Program, entries: Entries, fuel: nat)
    requires Loaded(code, p, entries)
    ensures CallsOk(Ctx(code, p, entries, FuncEnv([]), Zone(0, 8), iset{}), fuel)
  {
    hide At, CodeF, Arrived, Invoke, FuncEnv, CameBack;
    if fuel > 0 {
      AllCallsOk(code, p, entries, fuel - 1);
      forall k: nat, f, vs, c | k < fuel
        ensures CallOk(code, p, entries, k, f, vs, c)
      {
        var o := Invoke(p, f, vs, k);
        if k == fuel - 1 && Arrived(entries, f, vs, c) && o.Returned? && o.v.Some? {
          var t := InvokeRuns(code, p, entries, f, vs, c, k);
        }
      }
    }
  }

  // ----- layout -----

  predicate Distinct(p: Program) { forall i, j :: 0 <= i < j < |p| ==> p[i].name != p[j].name }

  predicate WfP(p: Program)
  {
    Distinct(p) && (forall f :: f in p ==> WfF(f)) && |Compile(p)| <= 0x10_0000
  }

  /** Each function stands at its entry. */
  lemma {:induction false} LaidOut(code: seq<Byte>, p: Program, pos: nat, entries: Entries, d: Func)
    requires Distinct(p) && d in p && At(code, pos, CodeP(p, pos, entries))
    ensures var e := EntriesFrom(p, pos);
      d.name in e && pos <= e[d.name] < |code| && At(code, e[d.name], CodeF(d, e[d.name], entries))
  {
    hide At, CodeF, SizeF;
    var f, rest := p[0], p[1..];
    AtSplit(code, pos, CodeF(f, pos, entries), CodeP(rest, pos + SizeF(f), entries));
    AtFits(code, pos, CodeF(f, pos, entries));
    SizePositive(f);
    if d != f {
      assert d in rest;
      LaidOut(code, rest, pos + SizeF(f), entries, d);
      var k :| 0 <= k < |rest| && rest[k] == d;
      assert p[k + 1] == d;
    }
  }

  lemma SizePositive(f: Func)
    ensures SizeF(f) > 0
  {
  }

  lemma CompiledIsLoaded(p: Program)
    requires WfP(p)
    ensures Loaded(Compile(p), p, EntriesFrom(p, 0))
  {
    hide CodeP, CodeF, WfF;
    var code, entries := Compile(p), EntriesFrom(p, 0);
    assert At(code, 0, CodeP(p, 0, entries)) by { assert code[0..0 + |code|] == code; }
    forall d | d in p
      ensures d.name in entries && 0 <= entries[d.name] < 0x10_0000
      ensures At(code, entries[d.name], CodeF(d, entries[d.name], entries))
    {
      LaidOut(code, p, 0, entries, d);
    }
  }

  /** The compiler is correct: calling any function of a compiled program with enough
      arguments on the stack runs to the return address with the value the source program
      returns in eax, the stack pointer just above the return address, the frame pointer
      restored and nothing above the arguments changed. The stack cannot run out if it has
      room for one activation more than the source run has units of fuel. */
  lemma CompiledCallReturns(p: Program, f: string, vs: seq<Word>, c: Cpu, fuel: nat, v: Word) returns (t: State)
    requires WfP(p) && Arrived(EntriesFrom(p, 0), f, vs, c)
    requires Invoke(p, f, vs, fuel) == Returned(Some(v))
    ensures Goes(Compile(p), Live(c), t) && CameBack(c, t, v, |vs|, Deep(p, fuel + 1))
    ensures c.limit + Deep(p, fuel + 1) <= c.esp ==> t.Live?
  {
    hide Compile, EntriesFrom, WfP, Arrived, Loaded, Invoke, CallsOk, Deep, Goes;
    CompiledIsLoaded(p);
    AllCallsOk(Compile(p), p, EntriesFrom(p, 0), fuel);
    t := InvokeRuns(Compile(p), p, EntriesFrom(p, 0), f, vs, c, fuel);
  }
}
