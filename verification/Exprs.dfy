/** Running the code of an expression, including calls, leaves its value in eax. */
module ExprCorrect {
  import opened Basics
  import opened X86
  import opened Machine
  import opened Cupid
  import opened Codegen
  import opened Frames
  import opened Operators

  /** Every call passes fewer than 32 arguments: the byte-sized immediate that
      pops them is sign-extended. */
  predicate WfE(e: Expr)
  {
    match e
    case Num(_) => true
    case Var(_) => true
    case Un(_, e1) => WfE(e1)
    case Bin(_, l, r) => WfE(l) && WfE(r)
    case Cond(c, t, f) => WfE(c) && WfE(t) && WfE(f)
    case Call(_, args) => Count(args) < 32 && WfArgs(args)
    case Bump(_, _, _) => true
  }

  predicate WfArgs(es: Exprs)
  {
    match es case ENil => true case ECons(e, tail) => WfE(e) && WfArgs(tail)
  }

  /** What is fixed while one activation of a function runs; `open` are the offsets it may write. */
  datatype Ctx = Ctx(code: seq<Byte>, p: Program, entries: Entries, env: Env, z: Zone, open: Offsets)

  ghost predicate Starts(x: Ctx, c: Cpu, st: Store)
  {
    && |x.code| <= 0x10_0000
    && Laid(x.env, x.z) && Within(x.open, x.z) && Framed(x.z, c) && Agrees(x.env, st, c.ebp, c.mem)
  }

  /** The state after evaluating `n` bytes of code to `v` with `need` bytes of stack. */
  ghost predicate Evaluated(x: Ctx, c: Cpu, t: State, n: nat, v: Word, st: Store, need: nat)
  {
    Exhausted(c, t, need) ||
    (t.Live? && t.cpu.pc == c.pc + n && t.cpu.eax == v && Stays(x.open, c, t.cpu)
     && Agrees(x.env, st, c.ebp, t.cpu.mem))
  }

  // ----- single instructions -----

  lemma Displacement(off: int)
    requires -H <= off < H
    ensures Signed(Wrap(off)) == off
  {
  }

  lemma {:induction false} Here(code: seq<Byte>, s: State)
    ensures Goes(code, s, s)
  {
    assert Steps(code, s, 0) == s;
  }

  lemma SlotAddress(x: Ctx, c: Cpu, i: nat)
    requires Laid(x.env, x.z) && Framed(x.z, c)
    requires i < |x.env.slots| && x.env.names[i].scalar
    ensures var a := c.ebp + x.env.slots[i].off;
      c.esp <= a && a + 4 <= W && InStack(c, a) && -H <= x.env.slots[i].off < H
  {
  }

  lemma LoadVar(x: Ctx, c: Cpu, st: Store, name: string)
    requires Starts(x, c, st) && Lookup(x.env.names, name) in st
    ensures Exec(LoadBp(Eax, OffsetOf(x.env, name)), c)
         == Live(c.(pc := c.pc + 6, eax := st[Lookup(x.env.names, name)]))
  {
    hide Load32;
    var i := Lookup(x.env.names, name);
    SlotAddress(x, c, i);
    Displacement(x.env.slots[i].off);
  }

  lemma StoreVar(x: Ctx, c: Cpu, st: Store, i: nat)
    requires Starts(x, c, st) && i < |x.env.names| && x.env.names[i].scalar && Bytes(x.env.slots[i]) <= x.open
    ensures var off := x.env.slots[i].off;
      var d := c.(pc := c.pc + 6, mem := Store32(c.mem, c.ebp + off, c.eax));
      Exec(StoreBp(Eax, Wrap(off)), c) == Live(d)
      && Stays(x.open, c, d) && Agrees(x.env, st[i := c.eax], c.ebp, d.mem)
  {
    hide Load32;
    SlotAddress(x, c, i);
    Displacement(x.env.slots[i].off);
    AgreesStore(x.env, x.z, st, c.ebp, c.mem, i, c.eax);
  }

  ghost predicate Pushed(x: Ctx, c: Cpu, t: State, st: Store)
  {
    Exhausted(c, t, 4) ||
    (t.Live? && t.cpu.(mem := c.mem) == c.(pc := c.pc + 1, esp := t.cpu.esp) && t.cpu.esp == c.esp - 4
     && Load32(t.cpu.mem, t.cpu.esp) == c.eax && (forall a :: c.esp <= a ==> t.cpu.mem(a) == c.mem(a))
     && Starts(x, t.cpu, st))
  }

  lemma PushEax(x: Ctx, c: Cpu, st: Store) returns (t: State)
    requires Starts(x, c, st) && At(x.code, c.pc, Enc(Push(Eax)))
    ensures Goes(x.code, Live(c), t) && Pushed(x, c, t, st)
  {
    hide Load32, Enc;
    OneStep(x.code, c, Push(Eax));
    t := Exec(Push(Eax), c);
    if t.Live? {
      assert forall a :: c.esp <= a ==> t.cpu.mem(a) == c.mem(a);
      LoadStore(c.mem, c.esp - 4, c.eax, 0);
      AgreesFrame(x.env, x.z, st, c, t.cpu.mem);
    }
  }

  // ----- calls -----

  /** Control has just entered function `f` with arguments `vs` above the return address. */
  ghost predicate Arrived(entries: Entries, f: string, vs: seq<Word>, c: Cpu)
  {
    && f in entries && c.pc == entries[f] && |vs| < 32
    && c.limit <= c.esp && c.esp + 4 + 4 * |vs| < W
    && forall k :: 0 <= k < |vs| ==> Load32(c.mem, c.esp + 4 + 4 * k) == vs[k]
  }

  /** The function has returned `v`: memory above the `n` arguments is as it was. It used at most
      `need` bytes of stack. */
  ghost predicate CameBack(c: Cpu, t: State, v: Word, n: nat, need: nat)
  {
    Exhausted(c, t, need) ||
    (t.Live? && t.cpu.pc == Load32(c.mem, c.esp) && t.cpu.eax == v && t.cpu.esp == c.esp + 4
     && t.cpu.ebp == c.ebp && t.cpu.limit == c.limit
     && forall a :: c.esp + 4 + 4 * n <= a ==> t.cpu.mem(a) == c.mem(a))
  }

  ghost predicate CallOk(code: seq<Byte>, p: Program, entries: Entries, fuel: nat, f: string, vs: seq<Word>, c: Cpu)
  {
    var o := Invoke(p, f, vs, fuel);
    Arrived(entries, f, vs, c) && o.Returned? && o.v.Some? ==>
      exists t :: Goes(code, Live(c), t) && CameBack(c, t, o.v.value, |vs|, Deep(p, fuel + 1))
  }

  /** Calls with less fuel than `fuel` are compiled correctly. */
  ghost predicate CallsOk(x: Ctx, fuel: nat)
  {
    && (forall d :: d in x.p ==> d.name in x.entries && 0 <= x.entries[d.name] < 0x10_0000)
    && forall k: nat, f, vs, c :: k < fuel ==> CallOk(x.code, x.p, x.entries, k, f, vs, c)
  }

  /** Word `j` of the argument area. */
  function Arg(c: Cpu, j: int): Word { Load32(c.mem, c.esp + 4 * j) }

  /** The outer `a` pairs of `ws` have been exchanged. */
  ghost predicate Exchanged(c: Cpu, ws: seq<Word>, a: nat)
  {
    forall j :: 0 <= j < |ws| ==> Arg(c, j) == Mirrored(ws, a, j)
  }

  function Mirrored(ws: seq<Word>, a: nat, j: nat): Word
    requires j < |ws|
  {
    if j < a || j >= |ws| - a then ws[|ws| - 1 - j] else ws[j]
  }

  ghost predicate SameAbove(c: Cpu, d: Cpu, n: nat)
  {
    && d.esp == c.esp && d.ebp == c.ebp && d.limit == c.limit
    && forall x :: c.esp + 4 * n <= x ==> d.mem(x) == c.mem(x)
  }

  function Swap(n: nat, a: nat): seq<Instr>
    requires a < n
  {
    [LoadSp(Ecx, Wrap(4 * a)), LoadSp(Edx, Wrap(4 * (n - 1 - a))),
     StoreSp(Edx, Wrap(4 * a)), StoreSp(Ecx, Wrap(4 * (n - 1 - a)))]
  }

  lemma StackWord(c: Cpu, n: nat, j: nat, r: Reg)
    requires j < n < 32 && c.limit <= c.esp && c.esp + 4 * n < W
    ensures Exec(LoadSp(r, Wrap(4 * j)), c) == Live(Put(c.(pc := c.pc + 7), r, Arg(c, j)))
    ensures Exec(StoreSp(r, Wrap(4 * j)), c)
         == Live(c.(pc := c.pc + 7, mem := Store32(c.mem, c.esp + 4 * j, Get(c, r))))
  {
    hide Load32, Store32;
    Displacement(4 * j);
  }

  lemma SwapRuns(c: Cpu, n: nat, a: nat) returns (d: Cpu)
    requires a < n / 2 && n < 32 && c.limit <= c.esp && c.esp + 4 * n < W
    ensures ExecAll(Swap(n, a), Live(c)) == Live(d)
    ensures SameAbove(c, d, n)
    ensures forall j :: 0 <= j < n ==> Arg(d, j) == Arg(c, if j == a || j == n - 1 - a then n - 1 - j else j)
  {
    hide ExecAll, Exec, Load32, Store32;
    var b := n - 1 - a;
    var i1, i2, i3, i4 := Swap(n, a)[0], Swap(n, a)[1], Swap(n, a)[2], Swap(n, a)[3];
    StackWord(c, n, a, Ecx);
    assert [i1] + [i2, i3, i4] == Swap(n, a);
    var t1 := Peel(i1, [i2, i3, i4], c);
    StackWord(t1.cpu, n, b, Edx);
    StackWord(Exec(i2, t1.cpu).cpu, n, a, Edx);
    var t2, t3 := Peel3(i2, i3, i4, t1.cpu);
    StackWord(t3.cpu, n, b, Ecx);
    var m1 := Store32(c.mem, c.esp + 4 * a, Arg(c, b));
    d := Exec(i4, t3.cpu).cpu;
    assert d.mem == Store32(m1, c.esp + 4 * b, Arg(c, a));
    forall j | 0 <= j < n
      ensures Arg(d, j) == Arg(c, if j == a || j == b then n - 1 - j else j)
    {
      LoadStore(c.mem, c.esp + 4 * a, Arg(c, b), c.esp + 4 * j);
      LoadStore(m1, c.esp + 4 * b, Arg(c, a), c.esp + 4 * j);
    }
    StoreElsewhere(c.mem, c.esp + 4 * a, Arg(c, b));
    StoreElsewhere(m1, c.esp + 4 * b, Arg(c, a));
  }

  lemma StoreElsewhere(m: Mem, a: int, v: Word)
    ensures forall x :: x < a || a + 4 <= x ==> Store32(m, a, v)(x) == m(x)
  {
  }

  /** The exchange loop reverses the argument words, whatever their number below 32. */
  lemma {:induction false} ReverseRuns(code: seq<Byte>, c: Cpu, ws: seq<Word>, a: nat) returns (d: Cpu)
    requires |ws| < 32 && a <= |ws| / 2 && At(code, c.pc, Asm(Codegen.Reverse(|ws|, a)))
    requires c.limit <= c.esp && c.esp + 4 * |ws| < W && Exchanged(c, ws, a)
    ensures Goes(code, Live(c), Live(d)) && d.pc == c.pc + Len(Codegen.Reverse(|ws|, a))
    ensures SameAbove(c, d, |ws|) && forall j :: 0 <= j < |ws| ==> Arg(d, j) == ws[|ws| - 1 - j]
    decreases |ws| - a
  {
    hide Asm, Exec, Arg, At, Goes;
    var n := |ws|;
    if a >= n / 2 {
      d := c;
      Here(code, Live(c));
      assert Codegen.Reverse(n, a) == [];
      LenNone();
    } else {
      var four, rest := Swap(n, a), Codegen.Reverse(n, a + 1);
      assert Codegen.Reverse(n, a) == four + rest;
      AsmAppend(four, rest);
      AtSplit(code, c.pc, Asm(four), Asm(rest));
      Straight(code, c, four);
      var e := SwapRuns(c, n, a);
      ExchangedMore(c, e, ws, a);
      d := ReverseRuns(code, e, ws, a + 1);
      Chain(code, Live(c), Live(e), Live(d));
    }
  }

  lemma ExchangedMore(c: Cpu, d: Cpu, ws: seq<Word>, a: nat)
    requires a < |ws| / 2 && Exchanged(c, ws, a)
    requires forall j :: 0 <= j < |ws| ==> Arg(d, j) == Arg(c, if j == a || j == |ws| - 1 - a then |ws| - 1 - j else j)
    ensures Exchanged(d, ws, a + 1)
  {
    var n := |ws|;
    forall j | 0 <= j < n
      ensures Arg(d, j) == Mirrored(ws, a + 1, j)
    {
      var i := if j == a || j == n - 1 - a then n - 1 - j else j;
      assert Arg(d, j) == Arg(c, i);
      assert Arg(c, i) == Mirrored(ws, a, i);
    }
  }

  lemma LenNone()
    ensures Len([]) == 0
  {
  }

  // ----- expressions -----

  /** Words between the stack pointer and the zone are temporaries, which later code keeps. */
  lemma KeptLoad(z: Zone, open: Offsets, c: Cpu, m: Mem, a: int)
    requires Kept(open, c, m) && Within(open, z) && c.esp <= a && a + 4 <= c.ebp + z.bot && z.bot <= 0
    ensures Load32(m, a) == Load32(c.mem, a)
  {
  }

  /** What is needed to run the code of `e` from `c`. */
  ghost predicate ReadyE(x: Ctx, e: Expr, c: Cpu, st: Store, fuel: nat)
  {
    && Starts(x, c, st) && CallsOk(x, fuel) && WfE(e) && c.pc >= 0
    && At(x.code, c.pc, CodeE(e, x.env, c.pc, x.entries))
    && Eval(x.p, e, x.env.names, st, fuel).Done? && WritesE(e, x.env) <= x.open
  }

  /** The code of `e` runs to its end and leaves the value of `e` in eax. */
  lemma {:induction false} ExprRuns(x: Ctx, e: Expr, c: Cpu, st: Store, fuel: nat) returns (t: State)
    requires ReadyE(x, e, c, st, fuel)
    ensures Goes(x.code, Live(c), t)
    ensures var r := Eval(x.p, e, x.env.names, st, fuel);
      Evaluated(x, c, t, SizeE(e), r.value, r.st, NeedE(e) + Deep(x.p, fuel))
    decreases e, 1
  {
    hide *;
    match e
    case Num(n) => t := NumRuns(x, e, c, st, fuel);
    case Var(_) => t := VarRuns(x, e, c, st, fuel);
    case Un(_, _) => t := UnRuns(x, e, c, st, fuel);
    case Bin(_, _, _) => t := BinRuns(x, e, c, st, fuel);
    case Cond(_, _, _) => t := CondRuns(x, e, c, st, fuel);
    case Call(_, _) => t := CallRuns(x, e, c, st, fuel);
    case Bump(_, _, _) => t := BumpRuns(x, e, c, st, fuel);
  }

  lemma StartsAfter(x: Ctx, c: Cpu, d: Cpu, st: Store, st': Store)
    requires Starts(x, c, st) && Stays(x.open, c, d) && Agrees(x.env, st', c.ebp, d.mem)
    ensures Starts(x, d, st')
  {
  }

  lemma NumRuns(x: Ctx, e: Expr, c: Cpu, st: Store, fuel: nat) returns (t: State)
    requires e.Num? && ReadyE(x, e, c, st, fuel)
    ensures Goes(x.code, Live(c), t)
    ensures var r := Eval(x.p, e, x.env.names, st, fuel);
      Evaluated(x, c, t, SizeE(e), r.value, r.st, NeedE(e) + Deep(x.p, fuel))
  {
    hide CallsOk, At, Enc;
    OneStep(x.code, c, MovImm(e.n));
    t := Exec(MovImm(e.n), c);
  }

  lemma VarRuns(x: Ctx, e: Expr, c: Cpu, st: Store, fuel: nat) returns (t: State)
    requires e.Var? && ReadyE(x, e, c, st, fuel)
    ensures Goes(x.code, Live(c), t)
    ensures var r := Eval(x.p, e, x.env.names, st, fuel);
      Evaluated(x, c, t, SizeE(e), r.value, r.st, NeedE(e) + Deep(x.p, fuel))
  {
    hide CallsOk, At, Enc, Exec, OffsetOf, Load32;
    LoadVar(x, c, st, e.x);
    OneStep(x.code, c, LoadBp(Eax, OffsetOf(x.env, e.x)));
    t := Exec(LoadBp(Eax, OffsetOf(x.env, e.x)), c);
  }

  lemma UnParts(x: Ctx, e: Expr, c: Cpu, st: Store, fuel: nat)
    requires e.Un? && ReadyE(x, e, c, st, fuel)
    ensures ReadyE(x, e.e, c, st, fuel) && At(x.code, c.pc + SizeE(e.e), Asm(UnCode(e.uop)))
    ensures SizeE(e) == SizeE(e.e) + Len(UnCode(e.uop))
    ensures var r := Eval(x.p, e.e, x.env.names, st, fuel);
      Eval(x.p, e, x.env.names, st, fuel) == Done(UnVal(e.uop, r.value), r.st)
  {
    hide CallsOk, At, Asm, UnCode, Starts;
    AtSplit(x.code, c.pc, CodeE(e.e, x.env, c.pc, x.entries), Asm(UnCode(e.uop)));
  }

  lemma {:induction false} UnRuns(x: Ctx, e: Expr, c: Cpu, st: Store, fuel: nat) returns (t: State)
    requires e.Un? && ReadyE(x, e, c, st, fuel)
    ensures Goes(x.code, Live(c), t)
    ensures var r := Eval(x.p, e, x.env.names, st, fuel);
      Evaluated(x, c, t, SizeE(e), r.value, r.st, NeedE(e) + Deep(x.p, fuel))
    decreases e, 0
  {
    hide ReadyE, At, ExecAll, Asm, Kept, Agrees, Eval, SizeE, Exec, Goes;
    UnParts(x, e, c, st, fuel);
    t := ExprRuns(x, e.e, c, st, fuel);
    if t.Live? {
      var d := t.cpu;
      Operators.UnRuns(e.uop, d);
      Straight(x.code, d, UnCode(e.uop));
      t := ExecAll(UnCode(e.uop), Live(d));
      StaysSame(x.open, c, d, t.cpu);
      Chain(x.code, Live(c), Live(d), t);
    }
  }

  lemma StaysSame(open: Offsets, c: Cpu, d: Cpu, e: Cpu)
    requires Stays(open, c, d) && SameFrame(d, e)
    ensures Stays(open, c, e)
  {
  }

  lemma BinParts(x: Ctx, e: Expr, c: Cpu, st: Store, fuel: nat)
    requires e.Bin? && ReadyE(x, e, c, st, fuel)
    ensures NeedE(e) == Max(NeedE(e.l), 4 + NeedE(e.r)) && WritesE(e.r, x.env) <= x.open
    ensures ReadyE(x, e.l, c, st, fuel) && WfE(e.r) && c.pc >= 0 && Eval(x.p, e.l, x.env.names, st, fuel).Done?
    ensures var p1 := c.pc + SizeE(e.l) + 1;
      && At(x.code, c.pc + SizeE(e.l), Enc(Push(Eax)))
      && At(x.code, p1, CodeE(e.r, x.env, p1, x.entries))
      && At(x.code, p1 + SizeE(e.r), Enc(Pop(Ebx)) + Asm(BinTail(e.op)))
      && SizeE(e) == SizeE(e.l) + 1 + SizeE(e.r) + 1 + Len(BinTail(e.op))
    ensures var r1 := Eval(x.p, e.l, x.env.names, st, fuel); var r2 := Eval(x.p, e.r, x.env.names, r1.st, fuel);
      r2.Done? && !Traps(e.op, r1.value, r2.value)
      && Eval(x.p, e, x.env.names, st, fuel) == Done(BinVal(e.op, r1.value, r2.value), r2.st)
  {
    hide CallsOk, At, Asm, Enc, BinTail, Starts, Traps, BinVal, Deep;
    var Bin(op, l, r) := e;
    var cl := CodeE(l, x.env, c.pc, x.entries);
    var cr := CodeE(r, x.env, c.pc + SizeE(l) + 1, x.entries);
    var last := Enc(Pop(Ebx)) + Asm(BinTail(op));
    AtSplit(x.code, c.pc, cl + Enc(Push(Eax)), cr + last);
    AtSplit(x.code, c.pc, cl, Enc(Push(Eax)));
    AtSplit(x.code, c.pc + |cl| + 1, cr, last);
  }

  lemma {:induction false} BinRuns(x: Ctx, e: Expr, c: Cpu, st: Store, fuel: nat) returns (t: State)
    requires e.Bin? && ReadyE(x, e, c, st, fuel)
    ensures Goes(x.code, Live(c), t)
    ensures var r := Eval(x.p, e, x.env.names, st, fuel);
      Evaluated(x, c, t, SizeE(e), r.value, r.st, NeedE(e) + Deep(x.p, fuel))
    decreases e, 0
  {
    hide ReadyE, Starts, CallsOk, WfE, At, CodeE, Eval, SizeE, Asm, BinTail, BinVal, Traps, Load32, Kept, Agrees,
         Len, Goes;
    BinParts(x, e, c, st, fuel);
    t := ExprRuns(x, e.l, c, st, fuel);
    if t.Live? {
      var c1, r1 := t.cpu, Eval(x.p, e.l, x.env.names, st, fuel);
      t := Second(x, e.l, e.r, c, c1, st, fuel);
      Chain(x.code, Live(c), Live(c1), t);
      if t.Live? {
        var c3 := t.cpu;
        var d := Apply(x, e.op, c3, r1.value);
        StaysPop(x.open, c, c3, d);
        Chain(x.code, Live(c), Live(c3), Live(d));
        t := Live(d);
      }
    }
  }

  /** `d` has one more word on the stack than `c` had. */
  ghost predicate StaysAbove(open: Offsets, c: Cpu, d: Cpu)
  {
    d.esp == c.esp - 4 && d.ebp == c.ebp && d.limit == c.limit && c.esp < W && Kept(open, c, d.mem)
  }

  lemma StaysPop(open: Offsets, c: Cpu, c3: Cpu, d: Cpu)
    requires StaysAbove(open, c, c3)
    requires d.esp == c3.esp + 4 && d.ebp == c3.ebp && d.limit == c3.limit && d.mem == c3.mem
    ensures Stays(open, c, d)
  {
  }

  /** Pushes the first value and evaluates the second expression on top of it. */
  lemma {:induction false} Second(x: Ctx, l: Expr, r: Expr, c: Cpu, c1: Cpu, st: Store, fuel: nat) returns (t: State)
    requires var r1 := Eval(x.p, l, x.env.names, st, fuel);
      ReadyE(x, l, c, st, fuel) && Evaluated(x, c, Live(c1), SizeE(l), r1.value, r1.st, 0)
      && Eval(x.p, r, x.env.names, r1.st, fuel).Done?
    requires WritesE(r, x.env) <= x.open && WfE(r) && At(x.code, c.pc + SizeE(l), Enc(Push(Eax)))
    requires var p1 := c.pc + SizeE(l) + 1; p1 >= 0 && At(x.code, p1, CodeE(r, x.env, p1, x.entries))
    ensures Goes(x.code, Live(c1), t)
    ensures var r1 := Eval(x.p, l, x.env.names, st, fuel); var r2 := Eval(x.p, r, x.env.names, r1.st, fuel);
      Exhausted(c, t, 4 + NeedE(r) + Deep(x.p, fuel)) ||
      (t.Live? && t.cpu.pc == c.pc + SizeE(l) + 1 + SizeE(r) && t.cpu.eax == r2.value && StaysAbove(x.open, c, t.cpu)
       && Load32(t.cpu.mem, t.cpu.esp) == r1.value && Agrees(x.env, r2.st, c.ebp, t.cpu.mem))
    decreases r, 2
  {
    hide At, CodeE, Eval, SizeE, Load32, Kept, Agrees, Laid, CallsOk, WfE, Goes;
    var r1 := Eval(x.p, l, x.env.names, st, fuel);
    StartsAfter(x, c, c1, st, r1.st);
    t := PushEax(x, c1, r1.st);
    if t.Live? {
      var c2 := t.cpu;
      t := ExprRuns(x, r, c2, r1.st, fuel);
      Chain(x.code, Live(c1), Live(c2), t);
      if t.Live? {
        KeptLoad(x.z, x.open, c2, t.cpu.mem, c2.esp);
        KeptThroughPush(x.open, c, c1, c2, t.cpu);
      }
    }
  }

  /** Pops the left operand and applies the operator. */
  lemma Apply(x: Ctx, op: BinOp, c: Cpu, a: Word) returns (d: Cpu)
    requires At(x.code, c.pc, Enc(Pop(Ebx)) + Asm(BinTail(op)))
    requires c.esp + 4 < W && Load32(c.mem, c.esp) == a && !Traps(op, a, c.eax)
    ensures Goes(x.code, Live(c), Live(d))
    ensures d.pc == c.pc + 1 + Len(BinTail(op)) && d.eax == BinVal(op, a, c.eax)
    ensures d.esp == c.esp + 4 && d.ebp == c.ebp && d.limit == c.limit && d.mem == c.mem
  {
    hide At, Load32, Enc, Asm, ExecAll, BinTail, BinVal, Goes;
    AtSplit(x.code, c.pc, Enc(Pop(Ebx)), Asm(BinTail(op)));
    OneStep(x.code, c, Pop(Ebx));
    var c1 := Exec(Pop(Ebx), c).cpu;
    Operators.BinRuns(op, c1);
    AllFall(op);
    Straight(x.code, c1, BinTail(op));
    d := ExecAll(BinTail(op), Live(c1)).cpu;
    Chain(x.code, Live(c), Live(c1), Live(d));
  }

  lemma AllFall(op: BinOp)
    ensures forall k :: 0 <= k < |BinTail(op)| ==> Falls(BinTail(op)[k])
  {
  }

  /** Evaluation, a push, evaluation above the pushed word. */
  lemma KeptThroughPush(open: Offsets, c: Cpu, c1: Cpu, c2: Cpu, c3: Cpu)
    requires Stays(open, c, c1) && Stays(open, c2, c3)
    requires c2.esp == c1.esp - 4 && c2.ebp == c1.ebp && c2.limit == c1.limit
    requires forall a :: c1.esp <= a ==> c2.mem(a) == c1.mem(a)
    ensures StaysAbove(open, c, c3)
  {
  }

  lemma CondCodeParts(code: seq<Byte>, pc: int, q: seq<Byte>, y: seq<Byte>, n: seq<Byte>)
    requires At(code, pc, Codegen.CondCode(q, y, n))
    ensures At(code, pc, q) && At(code, pc + |q|, Enc(Alu(TEST, Eax, Eax)) + Enc(Jcc(E, Wrap(|y| + 5))))
    ensures At(code, pc + |q| + 8, y) && At(code, pc + |q| + 8 + |y|, Enc(Jmp(Wrap(|n|))))
    ensures At(code, pc + |q| + 8 + |y| + 5, n)
  {
    hide At, Enc;
    var test, jump := Enc(Alu(TEST, Eax, Eax)) + Enc(Jcc(E, Wrap(|y| + 5))), Enc(Jmp(Wrap(|n|)));
    AtSplit(code, pc, q + test, y + jump + n);
    AtSplit(code, pc, q, test);
    AtSplit(code, pc + |q| + 8, y + jump, n);
    AtSplit(code, pc + |q| + 8, y, jump);
  }

  lemma AtFits(code: seq<Byte>, pc: int, bytes: seq<Byte>)
    requires At(code, pc, bytes)
    ensures 0 <= pc && pc + |bytes| <= |code|
  {
  }

  lemma CondAt(x: Ctx, e: Expr, pc: nat)
    requires e.Cond? && At(x.code, pc, CodeE(e, x.env, pc, x.entries))
    ensures var pt := pc + SizeE(e.c) + 8; var pf := pt + SizeE(e.t) + 5;
      && At(x.code, pc, CodeE(e.c, x.env, pc, x.entries))
      && At(x.code, pc + SizeE(e.c), Enc(Alu(TEST, Eax, Eax)) + Enc(Jcc(E, Wrap(SizeE(e.t) + 5))))
      && At(x.code, pt, CodeE(e.t, x.env, pt, x.entries))
      && At(x.code, pt + SizeE(e.t), Enc(Jmp(Wrap(SizeE(e.f)))))
      && At(x.code, pf, CodeE(e.f, x.env, pf, x.entries))
      && SizeE(e) == SizeE(e.c) + 8 + SizeE(e.t) + 5 + SizeE(e.f) <= |x.code|
  {
    hide Enc, Codegen.CondCode, At, Wrap;
    AtFits(x.code, pc, CodeE(e, x.env, pc, x.entries));
    var pt := pc + SizeE(e.c) + 8;
    CondCodeParts(x.code, pc, CodeE(e.c, x.env, pc, x.entries), CodeE(e.t, x.env, pt, x.entries),
                  CodeE(e.f, x.env, pt + SizeE(e.t) + 5, x.entries));
  }

  lemma CondEval(p: Program, e: Expr, names: seq<Name>, st: Store, fuel: nat)
    requires e.Cond? && Eval(p, e, names, st, fuel).Done?
    ensures var r1 := Eval(p, e.c, names, st, fuel);
      r1.Done? && Eval(p, e, names, st, fuel) == Eval(p, if r1.value != 0 then e.t else e.f, names, r1.st, fuel)
  {
  }

  lemma {:induction false} CondRuns(x: Ctx, e: Expr, c: Cpu, st: Store, fuel: nat) returns (t: State)
    requires e.Cond? && ReadyE(x, e, c, st, fuel)
    ensures Goes(x.code, Live(c), t)
    ensures var r := Eval(x.p, e, x.env.names, st, fuel);
      Evaluated(x, c, t, SizeE(e), r.value, r.st, NeedE(e) + Deep(x.p, fuel))
    decreases e, 0
  {
    hide At, Enc, CodeE, Eval, SizeE, CallsOk, Laid, Agrees, Kept, Wrap, Goes, Deep, Within;
    CondAt(x, e, c.pc);
    CondEval(x.p, e, x.env.names, st, fuel);
    assert WfE(e.c) && WfE(e.t) && WfE(e.f);
    t := ExprRuns(x, e.c, c, st, fuel);
    if t.Live? {
      var c1, r1 := t.cpu, Eval(x.p, e.c, x.env.names, st, fuel);
      var c2 := Branch(x.code, c1, SizeE(e.t) + 5);
      Chain(x.code, Live(c), Live(c1), Live(c2));
      StartsAfter(x, c, c2, st, r1.st);
      t := ExprRuns(x, if r1.value != 0 then e.t else e.f, c2, r1.st, fuel);
      Chain(x.code, Live(c), Live(c2), t);
      if t.Live? {
        StaysTrans(x.open, c, c2, t.cpu);
        if r1.value != 0 {
          var c3 := t.cpu;
          t := JumpBy(x.code, c3, SizeE(e.f));
          Chain(x.code, Live(c), Live(c3), t);
        }
      }
    }
  }

  /** `test eax, eax; je skip`: falls through exactly when eax is not zero. */
  lemma Branch(code: seq<Byte>, c: Cpu, skip: nat) returns (d: Cpu)
    requires At(code, c.pc, Enc(Alu(TEST, Eax, Eax)) + Enc(Jcc(E, Wrap(skip)))) && skip < H
    ensures Goes(code, Live(c), Live(d))
    ensures d == c.(pc := c.pc + 8 + if c.eax == 0 then skip else 0, flags := d.flags)
  {
    hide At, Enc, Logic32, Goes;
    AtSplit(code, c.pc, Enc(Alu(TEST, Eax, Eax)), Enc(Jcc(E, Wrap(skip))));
    OneStep(code, c, Alu(TEST, Eax, Eax));
    var c1 := Exec(Alu(TEST, Eax, Eax), c).cpu;
    OneStep(code, c1, Jcc(E, Wrap(skip)));
    TestFlags(c.eax);
    Displacement(skip);
    d := Exec(Jcc(E, Wrap(skip)), c1).cpu;
    Chain(code, Live(c), Live(c1), Live(d));
  }

  lemma JumpBy(code: seq<Byte>, c: Cpu, rel: int) returns (t: State)
    requires At(code, c.pc, Enc(Jmp(Wrap(rel)))) && -H <= rel < H
    ensures Goes(code, Live(c), t) && t == Live(c.(pc := c.pc + 5 + rel))
  {
    hide At, Enc;
    OneStep(code, c, Jmp(Wrap(rel)));
    Displacement(rel);
    t := Exec(Jmp(Wrap(rel)), c);
  }

  lemma BumpRuns(x: Ctx, e: Expr, c: Cpu, st: Store, fuel: nat) returns (t: State)
    requires e.Bump? && ReadyE(x, e, c, st, fuel)
    ensures Goes(x.code, Live(c), t)
    ensures var r := Eval(x.p, e, x.env.names, st, fuel);
      Evaluated(x, c, t, SizeE(e), r.value, r.st, NeedE(e) + Deep(x.p, fuel))
  {
    hide CallsOk, At, Exec, Asm, Enc, Load32, OffsetOf, Bumping, Laid, Agrees, Kept, Goes, Deep, Within;
    var Bump(name, up, prefix) := e;
    if prefix {
      var d := Bumps(x, c, st, name, up);
      t := Live(d);
    } else {
      var load, bump := LoadBp(Eax, OffsetOf(x.env, name)), Asm(Bumping(x.env, name, up));
      AtSplit(x.code, c.pc, Enc(load) + Enc(Push(Eax)), bump + Enc(Pop(Eax)));
      AtSplit(x.code, c.pc, Enc(load), Enc(Push(Eax)));
      AtSplit(x.code, c.pc + 7, bump, Enc(Pop(Eax)));
      LenBumping(x.env, name, up);
      LoadVar(x, c, st, name);
      OneStep(x.code, c, load);
      var c1 := Exec(load, c).cpu;
      t := PushEax(x, c1, st);
      Chain(x.code, Live(c), Live(c1), t);
      if t.Live? {
        var c2 := t.cpu;
        var c3 := Bumps(x, c2, st, name, up);
        Chain(x.code, Live(c), Live(c2), Live(c3));
        KeptLoad(x.z, x.open, c2, c3.mem, c2.esp);
        t := PopEax(x.code, c3);
        Chain(x.code, Live(c), Live(c3), t);
        KeptThroughPush(x.open, c, c1, c2, c3);
        StaysPop(x.open, c, c3, t.cpu);
      }
    }
  }

  lemma PopEax(code: seq<Byte>, c: Cpu) returns (t: State)
    requires At(code, c.pc, Enc(Pop(Eax))) && c.esp + 4 < W
    ensures Goes(code, Live(c), t) && t == Live(c.(pc := c.pc + 1, esp := c.esp + 4, eax := Load32(c.mem, c.esp)))
  {
    hide At, Enc, Load32;
    OneStep(code, c, Pop(Eax));
    t := Exec(Pop(Eax), c);
  }

  lemma BumpingParts(x: Ctx, pc: int, name: string, up: bool)
    requires At(x.code, pc, Asm(Bumping(x.env, name, up)))
    ensures At(x.code, pc, Enc(LoadBp(Eax, OffsetOf(x.env, name))))
    ensures At(x.code, pc + 6, Enc(if up then Inc(Eax) else Dec(Eax)))
    ensures At(x.code, pc + 7, Enc(StoreBp(Eax, OffsetOf(x.env, name))))
  {
    hide At, Enc, Asm, OffsetOf;
    var i1, i2, i3 := LoadBp(Eax, OffsetOf(x.env, name)), if up then Inc(Eax) else Dec(Eax),
      StoreBp(Eax, OffsetOf(x.env, name));
    Asm3(i1, i2, i3);
    AtSplit(x.code, pc, Enc(i1), Enc(i2) + Enc(i3));
    AtSplit(x.code, pc + 6, Enc(i2), Enc(i3));
  }

  /** Load, increment or decrement, store. */
  lemma Bumps(x: Ctx, c: Cpu, st: Store, name: string, up: bool) returns (d: Cpu)
    requires Starts(x, c, st) && Lookup(x.env.names, name) in st && BytesOf(x.env, name) <= x.open
    requires At(x.code, c.pc, Asm(Bumping(x.env, name, up)))
    ensures Goes(x.code, Live(c), Live(d)) && d.pc == c.pc + 13
    ensures var i := Lookup(x.env.names, name); var v := Bumped(st[i], up);
      d.eax == v && Stays(x.open, c, d) && Agrees(x.env, st[i := v], c.ebp, d.mem)
  {
    hide At, Enc, Asm, Load32, Store32, Bumping, Kept, Laid, Framed, Agrees, OffsetOf, Starts, Goes;
    StartsAgree(x, c, st);
    var i := Lookup(x.env.names, name);
    BumpingParts(x, c.pc, name, up);
    LoadVar(x, c, st, name);
    OneStep(x.code, c, LoadBp(Eax, OffsetOf(x.env, name)));
    var c1 := c.(pc := c.pc + 6, eax := st[i]);
    var bump := if up then Inc(Eax) else Dec(Eax);
    OneStep(x.code, c1, bump);
    var c2 := Exec(bump, c1).cpu;
    Chain(x.code, Live(c), Live(c1), Live(c2));
    SameStarts(x, c, c2, st);
    d := StoreStep(x, c2, st, name);
    StaysSameStart(x.open, c, c2, d);
    Chain(x.code, Live(c), Live(c2), Live(d));
  }

  lemma StartsAgree(x: Ctx, c: Cpu, st: Store)
    requires Starts(x, c, st)
    ensures |x.env.slots| == |x.env.names| && forall i :: i in st ==> i < |x.env.names| && x.env.names[i].scalar
  {
  }

  lemma SameStarts(x: Ctx, c: Cpu, d: Cpu, st: Store)
    requires Starts(x, c, st) && SameFrame(c, d)
    ensures Starts(x, d, st)
  {
  }

  lemma StaysSameStart(open: Offsets, c: Cpu, d: Cpu, e: Cpu)
    requires SameFrame(c, d) && Stays(open, d, e)
    ensures Stays(open, c, e)
  {
  }

  /** Stores eax in a scalar variable. */
  lemma StoreStep(x: Ctx, c: Cpu, st: Store, name: string) returns (d: Cpu)
    requires Starts(x, c, st) && At(x.code, c.pc, Enc(StoreBp(Eax, OffsetOf(x.env, name))))
    requires BytesOf(x.env, name) <= x.open
    requires var i := Lookup(x.env.names, name); i >= 0 && x.env.names[i].scalar
    ensures Goes(x.code, Live(c), Live(d)) && d.pc == c.pc + 6 && d.eax == c.eax
    ensures Stays(x.open, c, d) && Agrees(x.env, st[Lookup(x.env.names, name) := c.eax], c.ebp, d.mem)
  {
    hide At, Enc, Load32, Store32, Exec;
    StoreVar(x, c, st, Lookup(x.env.names, name));
    OneStep(x.code, c, StoreBp(Eax, OffsetOf(x.env, name)));
    d := Exec(StoreBp(Eax, OffsetOf(x.env, name)), c).cpu;
  }

  /** The arguments have been pushed, the first one highest. */
  ghost predicate ArgsPushed(x: Ctx, c: Cpu, t: State, size: nat, vs: seq<Word>, st: Store, need: nat)
  {
    Exhausted(c, t, need) ||
    (t.Live? && t.cpu.pc == c.pc + size && t.cpu.esp == c.esp - 4 * |vs| && t.cpu.ebp == c.ebp && t.cpu.limit == c.limit
     && Kept(x.open, c, t.cpu.mem) && Starts(x, t.cpu, st)
     && forall j :: 0 <= j < |vs| ==> Arg(t.cpu, j) == vs[|vs| - 1 - j])
  }

  ghost predicate ReadyArgs(x: Ctx, es: Exprs, c: Cpu, st: Store, fuel: nat)
  {
    && Starts(x, c, st) && CallsOk(x, fuel) && WfArgs(es) && c.pc >= 0
    && At(x.code, c.pc, CodeArgs(es, x.env, c.pc, x.entries))
    && EvalArgs(x.p, es, x.env.names, st, fuel).Done? && WritesArgs(es, x.env) <= x.open
  }

  lemma ArgsAt(x: Ctx, es: Exprs, pc: nat)
    requires es.ECons? && At(x.code, pc, CodeArgs(es, x.env, pc, x.entries))
    ensures SizeArgs(es) == SizeE(es.head) + 1 + SizeArgs(es.tail)
    ensures var p1 := pc + SizeE(es.head) + 1;
      && At(x.code, pc, CodeE(es.head, x.env, pc, x.entries))
      && At(x.code, pc + SizeE(es.head), Enc(Push(Eax)))
      && At(x.code, p1, CodeArgs(es.tail, x.env, p1, x.entries))
  {
    hide At, Enc, CodeE, SizeE;
    var ce := CodeE(es.head, x.env, pc, x.entries);
    var ct := CodeArgs(es.tail, x.env, pc + SizeE(es.head) + 1, x.entries);
    AtSplit(x.code, pc, ce + Enc(Push(Eax)), ct);
    AtSplit(x.code, pc, ce, Enc(Push(Eax)));
  }

  lemma ArgsEval(p: Program, es: Exprs, names: seq<Name>, st: Store, fuel: nat)
    requires es.ECons? && EvalArgs(p, es, names, st, fuel).Done?
    ensures var r1 := Eval(p, es.head, names, st, fuel); r1.Done?
    ensures var r1 := Eval(p, es.head, names, st, fuel); var r2 := EvalArgs(p, es.tail, names, r1.st, fuel);
      r2.Done? && EvalArgs(p, es, names, st, fuel) == Done([r1.value] + r2.value, r2.st)
  {
    hide Eval;
  }

  lemma ArgsNone(x: Ctx, es: Exprs, c: Cpu, st: Store, fuel: nat)
    requires es.ENil? && ReadyArgs(x, es, c, st, fuel)
    ensures Goes(x.code, Live(c), Live(c)) && ArgsPushed(x, c, Live(c), SizeArgs(es), [], st, 0)
    ensures EvalArgs(x.p, es, x.env.names, st, fuel) == Done([], st)
  {
    Here(x.code, Live(c));
  }

  lemma {:induction false} ArgsRun(x: Ctx, es: Exprs, c: Cpu, st: Store, fuel: nat) returns (t: State)
    requires ReadyArgs(x, es, c, st, fuel)
    ensures Goes(x.code, Live(c), t)
    ensures var r := EvalArgs(x.p, es, x.env.names, st, fuel);
      ArgsPushed(x, c, t, SizeArgs(es), r.value, r.st, NeedArgs(es) + Deep(x.p, fuel))
    decreases es, 0
  {
    hide CallsOk, At, Exec, Enc, Load32, SizeE, Arg, Eval, EvalArgs, CodeE, CodeArgs, SizeArgs, Laid, Kept, Agrees,
         Goes, NeedE, WritesE, Deep, Within;
    match es
    case ENil =>
      t := Live(c);
      ArgsNone(x, es, c, st, fuel);
    case ECons(e, tail) =>
      ArgsAt(x, es, c.pc);
      ArgsEval(x.p, es, x.env.names, st, fuel);
      t := ExprRuns(x, e, c, st, fuel);
      if t.Live? {
        var c1, r1 := t.cpu, Eval(x.p, e, x.env.names, st, fuel);
        var r2 := EvalArgs(x.p, tail, x.env.names, r1.st, fuel);
        StartsAfter(x, c, c1, st, r1.st);
        t := PushEax(x, c1, r1.st);
        Chain(x.code, Live(c), Live(c1), t);
        if t.Live? {
          var c2 := t.cpu;
          t := ArgsRun(x, tail, c2, r1.st, fuel);
          Chain(x.code, Live(c), Live(c2), t);
          if t.Live? {
            ArgsJoin(x, c, c1, c2, t.cpu, r1.value, r2.value);
          }
        }
      }
  }

  /** The head argument still lies above those of the tail. */
  lemma ArgsJoin(x: Ctx, c: Cpu, c1: Cpu, c2: Cpu, d: Cpu, v: Word, vs: seq<Word>)
    requires Framed(x.z, c) && Within(x.open, x.z) && Stays(x.open, c, c1) && Kept(x.open, c2, d.mem)
    requires c2.esp == c1.esp - 4 && c2.ebp == c1.ebp && Load32(c2.mem, c2.esp) == v
    requires forall a :: c1.esp <= a ==> c2.mem(a) == c1.mem(a)
    requires d.esp == c2.esp - 4 * |vs| && d.ebp == c2.ebp
    requires forall j :: 0 <= j < |vs| ==> Arg(d, j) == vs[|vs| - 1 - j]
    ensures Kept(x.open, c, d.mem)
    ensures var ws := [v] + vs; forall j :: 0 <= j < |ws| ==> Arg(d, j) == ws[|ws| - 1 - j]
  {
    hide Load32;
    KeptLoad(x.z, x.open, c2, d.mem, c2.esp);
  }

  lemma ApplyParts(code: seq<Byte>, pc: int, args: seq<Byte>, n: nat, call: Instr)
    requires call.Call? && At(code, pc, ApplyCode(args, n, call))
    ensures var p1 := pc + |args|; var p2 := p1 + Len(Codegen.Reverse(n, 0));
      && At(code, pc, args) && At(code, p1, Asm(Codegen.Reverse(n, 0))) && At(code, p2, Enc(call))
      && At(code, p2 + 5, Asm(PopArgs(n)))
  {
    hide At, Enc, Asm;
    var swap, last := Asm(Codegen.Reverse(n, 0)), Asm(PopArgs(n));
    AtSplit(code, pc, args, swap + (Enc(call) + last));
    AtSplit(code, pc + |args|, swap, Enc(call) + last);
    AtSplit(code, pc + |args| + |swap|, Enc(call), last);
  }

  lemma CallAt(x: Ctx, e: Expr, pc: nat)
    requires e.Call? && e.fn in x.entries && At(x.code, pc, CodeE(e, x.env, pc, x.entries))
    ensures var n := Count(e.args); var p1 := pc + SizeArgs(e.args); var p2 := p1 + Len(Codegen.Reverse(n, 0));
      && At(x.code, pc, CodeArgs(e.args, x.env, pc, x.entries))
      && At(x.code, p1, Asm(Codegen.Reverse(n, 0)))
      && At(x.code, p2, Enc(X86.Call(Rel(p2 + 5, x.entries[e.fn])))) && At(x.code, p2 + 5, Asm(PopArgs(n)))
      && SizeE(e) == SizeArgs(e.args) + Len(Codegen.Reverse(n, 0)) + 5 + (if n == 0 then 0 else 3)
      && p2 + 5 <= |x.code|
  {
    hide Enc, Asm, ApplyCode, Codegen.Reverse, Rel, At;
    AtFits(x.code, pc, CodeE(e, x.env, pc, x.entries));
    var n := Count(e.args);
    var end := pc + SizeArgs(e.args) + Len(Codegen.Reverse(n, 0)) + 5;
    ApplyParts(x.code, pc, CodeArgs(e.args, x.env, pc, x.entries), n, CallCode(e.fn, end, x.entries));
  }

  lemma CallEval(p: Program, e: Expr, names: seq<Name>, st: Store, fuel: nat)
    requires e.Call? && Eval(p, e, names, st, fuel).Done?
    ensures fuel > 0 && EvalArgs(p, e.args, names, st, fuel).Done?
    ensures var r1 := EvalArgs(p, e.args, names, st, fuel);
      var o := Invoke(p, e.fn, r1.value, fuel - 1);
      o.Returned? && o.v.Some? && Eval(p, e, names, st, fuel) == Done(o.v.value, r1.st)
    ensures Find(p, e.fn).Some? && |EvalArgs(p, e.args, names, st, fuel).value| == Count(e.args)
  {
    hide RunAll, EvalArgs;
  }

  /** The call instruction and the whole run of the callee. */
  lemma Calls(x: Ctx, f: string, vs: seq<Word>, c: Cpu, fuel: nat) returns (t: State)
    requires CallsOk(x, fuel) && fuel > 0 && f in x.entries && 0 <= x.entries[f] < 0x10_0000
    requires 0 <= c.pc < 0x10_0000 && At(x.code, c.pc, Enc(X86.Call(Rel(c.pc + 5, x.entries[f]))))
    requires var o := Invoke(x.p, f, vs, fuel - 1); o.Returned? && o.v.Some?
    requires |vs| < 32 && c.limit <= c.esp && c.esp + 4 * |vs| < W
    requires forall j :: 0 <= j < |vs| ==> Arg(c, j) == vs[j]
    ensures Goes(x.code, Live(c), t)
    ensures Exhausted(c, t, 4 + Deep(x.p, fuel)) ||
      (t.Live? && t.cpu.pc == c.pc + 5 && t.cpu.eax == Invoke(x.p, f, vs, fuel - 1).v.value
       && SameAbove(c, t.cpu, |vs|))
  {
    hide At, Enc, Invoke, Load32, Goes;
    var call := X86.Call(Rel(c.pc + 5, x.entries[f]));
    OneStep(x.code, c, call);
    Displacement(x.entries[f] - (c.pc + 5));
    t := Exec(call, c);
    if t.Live? {
      var d := t.cpu;
      LoadStore(c.mem, c.esp - 4, c.pc + 5, 0);
      forall k | 0 <= k < |vs|
        ensures Load32(d.mem, d.esp + 4 + 4 * k) == vs[k]
      {
        LoadStore(c.mem, c.esp - 4, c.pc + 5, c.esp + 4 * k);
        assert Arg(c, k) == vs[k];
      }
      assert CallOk(x.code, x.p, x.entries, fuel - 1, f, vs, d);
      var o := Invoke(x.p, f, vs, fuel - 1);
      t :| Goes(x.code, Live(d), t) && CameBack(d, t, o.v.value, |vs|, Deep(x.p, fuel));
      Chain(x.code, Live(c), Live(d), t);
    }
  }

  /** The byte immediate that pops the arguments is exact for fewer than 32 of them, and only then. */
  lemma PopsExactly(c: Cpu, n: nat)
    requires 0 < n && 4 * n < H && c.esp + 4 * n < W
    ensures ExecAll(PopArgs(n), Live(c)).Live?
    ensures ExecAll(PopArgs(n), Live(c)).cpu.esp == c.esp + 4 * n <==> n < 32
  {
    hide ExecAll;
    Peel1(AddImm(Esp, 4 * n % 256), c);
    ByteExact(n);
  }

  /** After a call with 32 arguments the stack pointer is 256 too low. */
  lemma PopsTooLittle(c: Cpu)
    requires c.esp + 128 < W && 128 <= c.esp
    ensures ExecAll(PopArgs(32), Live(c)).Live? && ExecAll(PopArgs(32), Live(c)).cpu.esp == c.esp + 128 - 256
  {
    hide ExecAll;
    Peel1(AddImm(Esp, 128), c);
  }

  lemma ByteExact(n: nat)
    ensures -128 <= Signed(SignExtend(4 * n % 256)) < 128 && (n < 32 ==> Signed(SignExtend(4 * n % 256)) == 4 * n)
  {
  }

  lemma PopsArgs(code: seq<Byte>, c: Cpu, n: nat) returns (d: Cpu)
    requires n < 32 && At(code, c.pc, Asm(PopArgs(n))) && c.esp + 4 * n < W
    ensures Goes(code, Live(c), Live(d)) && d.pc == c.pc + (if n == 0 then 0 else 3)
    ensures d.eax == c.eax && d.esp == c.esp + 4 * n && d.ebp == c.ebp && d.limit == c.limit && d.mem == c.mem
  {
    hide At, Enc;
    if n == 0 {
      d := c;
      Here(code, Live(c));
    } else {
      Asm1(AddImm(Esp, 4 * n % 256));
      OneStep(code, c, AddImm(Esp, 4 * n % 256));
      d := Exec(AddImm(Esp, 4 * n % 256), c).cpu;
    }
  }

  lemma {:induction false} CallRuns(x: Ctx, e: Expr, c: Cpu, st: Store, fuel: nat) returns (t: State)
    requires e.Call? && ReadyE(x, e, c, st, fuel)
    ensures Goes(x.code, Live(c), t)
    ensures var r := Eval(x.p, e, x.env.names, st, fuel);
      Evaluated(x, c, t, SizeE(e), r.value, r.st, NeedE(e) + Deep(x.p, fuel))
    decreases e, 0
  {
    hide At, Enc, Asm, Len, CodeE, CodeArgs, Eval, EvalArgs, SizeE, SizeArgs, Invoke, Arg, Kept, Agrees, Laid,
         Codegen.Reverse, CallOk, Load32, Rel, Goes;
    CallEval(x.p, e, x.env.names, st, fuel);
    CallAt(x, e, c.pc);
    var r1, n := EvalArgs(x.p, e.args, x.env.names, st, fuel), Count(e.args);
    t := ArgsRun(x, e.args, c, st, fuel);
    if t.Live? {
      var c1 := t.cpu;
      var c2 := Reversed(x.code, c1, r1.value);
      Chain(x.code, Live(c), Live(c1), Live(c2));
      t := Calls(x, e.fn, r1.value, c2, fuel);
      Chain(x.code, Live(c), Live(c2), t);
      if t.Live? {
        var c3 := t.cpu;
        var d := PopsArgs(x.code, c3, n);
        Chain(x.code, Live(c), Live(c3), Live(d));
        CallKeeps(x, c, c1, c2, c3, d, n, r1.st);
        t := Live(d);
      }
    }
  }

  /** Before the exchange the words are `vs` backwards, after it they are `vs`. */
  lemma Reversed(code: seq<Byte>, c: Cpu, vs: seq<Word>) returns (d: Cpu)
    requires |vs| < 32 && At(code, c.pc, Asm(Codegen.Reverse(|vs|, 0)))
    requires c.limit <= c.esp && c.esp + 4 * |vs| < W
    requires forall j :: 0 <= j < |vs| ==> Arg(c, j) == vs[|vs| - 1 - j]
    ensures Goes(code, Live(c), Live(d)) && d.pc == c.pc + Len(Codegen.Reverse(|vs|, 0)) && SameAbove(c, d, |vs|)
    ensures forall j :: 0 <= j < |vs| ==> Arg(d, j) == vs[j]
  {
    hide At, Asm, Codegen.Reverse, Load32;
    var ws := seq(|vs|, i requires 0 <= i < |vs| => vs[|vs| - 1 - i]);
    d := ReverseRuns(code, c, ws, 0);
  }

  /** Nothing at or above the caller's stack pointer changes after its arguments are evaluated. */
  lemma CallKeeps(x: Ctx, c: Cpu, c1: Cpu, c2: Cpu, c3: Cpu, d: Cpu, n: nat, st: Store)
    requires Framed(x.z, c) && Kept(x.open, c, c1.mem) && c1.esp == c.esp - 4 * n && c1.ebp == c.ebp
    requires c1.limit == c.limit
    requires Starts(x, c1, st) && SameAbove(c1, c2, n) && SameAbove(c2, c3, n)
    requires d.esp == c3.esp + 4 * n && d.ebp == c3.ebp && d.limit == c3.limit && d.mem == c3.mem
    ensures Stays(x.open, c, d) && Agrees(x.env, st, c.ebp, d.mem)
  {
    hide Load32;
    AgreesFrame(x.env, x.z, st, c1.(esp := c.esp), d.mem);
  }
}
