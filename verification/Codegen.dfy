/** The code CupidC emits for each construct, with every jump and call displacement
    already holding its final value, and the stack frame it assigns to locals. */
module Codegen {
  import opened Basics
  import opened X86
  import opened Machine
  import opened Cupid

  // ----- stack frames -----

  /** A local or parameter at [ebp+off]. */
  datatype Slot = Slot(off: int, size: nat)

  /** Compile-time scope: declared names with their slots, the current and the deepest local offset. */
  datatype Env = Env(names: seq<Name>, slots: seq<Slot>, lo: int, deepest: int)

  function Min(a: int, b: int): int { if a < b then a else b }

  /** Rounds up to a multiple of four. */
  function Align4(n: nat): nat { (n + 3) / 4 * 4 }

  /** A declaration of `size` bytes takes the bytes just below the current offset. */
  function Declare(env: Env, name: Name, size: nat): Env
  {
    var lo := env.lo - size;
    Env(env.names + [name], env.slots + [Slot(lo, size)], lo, Min(env.deepest, lo))
  }

  /** The environment after a statement; only blocks restore names and offset. */
  function Scope(s: Stmt, env: Env): Env
  {
    match s
    case Decl(x, _) => Declare(env, Name(x, true), 4)
    case DeclArray(x, n) => Declare(env, Name(x, false), Align4(4 * n))
    case If(_, t) => Scope(t, env)
    case IfElse(_, t, f) => Scope(f, Scope(t, env))
    case While(_, body) => Scope(body, env)
    case For(start, _, step, body) => Scope(body, Scope(step, Scope(start, env)))
    case Block(ss) => env.(deepest := ScopeAll(ss, env).deepest)
    case _ => env
  }

  function ScopeAll(ss: Stmts, env: Env): Env
  {
    match ss case SNil => env case SCons(s, tail) => ScopeAll(tail, Scope(s, env))
  }

  function ParamSlots(n: nat): (r: seq<Slot>)
    ensures |r| == n
  {
    seq(n, i => Slot(8 + 4 * i, 4))
  }

  function FuncEnv(params: seq<string>): Env
  {
    Env(ParamNames(params), ParamSlots(|params|), 0, 0)
  }

  /** The frame reserved by the prologue: a positive multiple of 16. */
  function FrameSize(deepest: int): nat
    requires deepest <= 0
  {
    var n := (-deepest + 15) / 16 * 16;
    if n == 0 then 16 else n
  }

  /** Where the slot of `x` lies; 0 if `x` is not declared (then the parser reports an error). */
  function OffsetOf(env: Env, x: string): Word
  {
    var i := Lookup(env.names, x);
    if 0 <= i < |env.slots| then Wrap(env.slots[i].off) else 0
  }

  predicate IsScalar(env: Env, x: string)
  {
    var i := Lookup(env.names, x);
    i < 0 || env.names[i].scalar
  }

  // ----- sizes -----

  function Len(code: seq<Instr>): nat { |Asm(code)| }

  function SizeE(e: Expr): nat
  {
    match e
    case Num(_) => 5
    case Var(_) => 6
    case Un(op, e1) => SizeE(e1) + Len(UnCode(op))
    case Bin(op, l, r) => SizeE(l) + 1 + SizeE(r) + 1 + Len(BinTail(op))
    case Cond(c, t, f) => SizeE(c) + 8 + SizeE(t) + 5 + SizeE(f)
    case Call(_, args) => SizeArgs(args) + Len(Reverse(Count(args), 0)) + 5 + (if args.ENil? then 0 else 3)
    case Bump(_, _, prefix) => if prefix then 13 else 21
  }

  function SizeArgs(es: Exprs): nat
  {
    match es case ENil => 0 case ECons(e, tail) => SizeE(e) + 1 + SizeArgs(tail)
  }

  function SizeS(s: Stmt): nat
  {
    match s
    case Decl(_, None) => 11
    case Decl(_, Some(e)) => SizeE(e) + 6
    case Assign(_, None, e) => SizeE(e) + 6
    case Assign(_, Some(op), e) => SizeE(e) + 10 + Len(BinTail(op)) + 6
    case BumpStmt(_, _) => 13
    case ExprStmt(e) => SizeE(e)
    case If(c, t) => SizeE(c) + 9 + SizeS(t)
    case IfElse(c, t, f) => SizeE(c) + 9 + SizeS(t) + 5 + SizeS(f)
    case While(c, body) => SizeE(c) + 9 + SizeS(body) + 5
    case For(start, cond, step, body) => SizeS(start) + SizeTest(cond) + 5 + SizeS(step) + 5 + SizeS(body) + 5
    case Break => 5
    case Continue => 5
    case Return(None) => 4
    case Return(Some(e)) => SizeE(e) + 4
    case Block(ss) => SizeSs(ss)
    case DeclArray(_, _) => 0
    case Empty => 0
  }

  function SizeTest(cond: Option<Expr>): nat
  {
    match cond case None => 0 case Some(c) => SizeE(c) + 9
  }

  function SizeSs(ss: Stmts): nat
  {
    match ss case SNil => 0 case SCons(s, tail) => SizeS(s) + SizeSs(tail)
  }

  // ----- expressions -----

  function UnCode(op: UnOp): seq<Instr>
  {
    match op
    case Minus => [X86.Neg(Eax)]
    case BitNot => [X86.Not(Eax)]
    case LogNot => [CmpImm(Eax, 0), Set(E, Eax), Movzx(Eax, Eax)]
  }

  /** The operation itself: ebx holds the left operand and eax the right one. */
  function BinTail(op: BinOp): seq<Instr>
  {
    match op
    case Add => [Alu(ADD, Eax, Ebx)]
    case Sub => [Alu(SUB, Ebx, Eax), Mov(Eax, Ebx)]
    case Mul => [Imul(Eax, Ebx)]
    case Div => [Mov(Ecx, Eax), Mov(Eax, Ebx), Cdq, Idiv(Ecx)]
    case Mod => [Mov(Ecx, Eax), Mov(Eax, Ebx), Cdq, Idiv(Ecx), Mov(Eax, Edx)]
    case Eq => Comparison(E)
    case Ne => Comparison(NE)
    case Lt => Comparison(L)
    case Gt => Comparison(G)
    case Le => Comparison(LE)
    case Ge => Comparison(GE)
    case BitAnd => [Alu(AND, Eax, Ebx)]
    case BitOr => [Alu(OR, Eax, Ebx)]
    case BitXor => [Alu(XOR, Eax, Ebx)]
    case ShL => [Mov(Ecx, Eax), Mov(Eax, Ebx), Shl(Eax)]
    case ShR => [Mov(Ecx, Eax), Mov(Eax, Ebx), Sar(Eax)]
    case LogAnd => [Alu(TEST, Ebx, Ebx), Set(E, Ecx), Alu(TEST, Eax, Eax), Set(E, Eax),
                    OrByte(Eax, Ecx), Set(E, Eax), Movzx(Eax, Eax)]
    case LogOr => [Alu(OR, Eax, Ebx), Alu(TEST, Eax, Eax), Set(NE, Eax), Movzx(Eax, Eax)]
  }

  function Comparison(c: X86.Cond): seq<Instr>
  {
    [Alu(CMP, Ebx, Eax), Set(c, Eax), Movzx(Eax, Eax)]
  }

  function Bumping(env: Env, x: string, up: bool): seq<Instr>
  {
    [LoadBp(Eax, OffsetOf(env, x)), if up then Inc(Eax) else Dec(Eax), StoreBp(Eax, OffsetOf(env, x))]
  }

  /** Exchanges argument words a and n-1-a, a+1 and n-2-a, ... on the stack. */
  function Reverse(n: nat, a: nat): seq<Instr>
    decreases n - a
  {
    if a >= n / 2 then []
    else [LoadSp(Ecx, Wrap(4 * a)), LoadSp(Edx, Wrap(4 * (n - 1 - a))),
          StoreSp(Edx, Wrap(4 * a)), StoreSp(Ecx, Wrap(4 * (n - 1 - a)))] + Reverse(n, a + 1)
  }

  /** Pops `n` argument words; the immediate is cut to a byte. */
  function PopArgs(n: nat): seq<Instr>
  {
    if n == 0 then [] else [AddImm(Esp, 4 * n % 256)]
  }

  /** Displacement from the end of an instruction to `target`. */
  function Rel(end: int, target: int): Word { Wrap(target - end) }

  /** Entry offsets of functions. */
  type Entries = map<string, int>

  function CallCode(f: string, end: int, entries: Entries): Instr
  {
    X86.Call(if f in entries then Rel(end, entries[f]) else 0)
  }

  // Code of a composite expression from the code of its parts.

  function BinCode(l: seq<Byte>, op: BinOp, r: seq<Byte>): (code: seq<Byte>)
    ensures |code| == |l| + 1 + |r| + 1 + Len(BinTail(op))
  {
    l + Enc(Push(Eax)) + (r + (Enc(Pop(Ebx)) + Asm(BinTail(op))))
  }

  function CondCode(c: seq<Byte>, t: seq<Byte>, f: seq<Byte>): (code: seq<Byte>)
    ensures |code| == |c| + 8 + |t| + 5 + |f|
  {
    c + (Enc(Alu(TEST, Eax, Eax)) + Enc(Jcc(E, Wrap(|t| + 5)))) + (t + Enc(Jmp(Wrap(|f|))) + f)
  }

  function ApplyCode(args: seq<Byte>, n: nat, call: Instr): (code: seq<Byte>)
    ensures call.Call? ==> |code| == |args| + Len(Reverse(n, 0)) + 5 + (if n == 0 then 0 else 3)
  {
    LenPopArgs(n);
    args + (Asm(Reverse(n, 0)) + (Enc(call) + Asm(PopArgs(n))))
  }

  function BumpCode(env: Env, x: string, up: bool, prefix: bool): (code: seq<Byte>)
    ensures |code| == if prefix then 13 else 21
  {
    hide Enc, Asm, OffsetOf;
    LenBumping(env, x, up);
    if prefix then Asm(Bumping(env, x, up))
    else Enc(LoadBp(Eax, OffsetOf(env, x))) + Enc(Push(Eax)) + (Asm(Bumping(env, x, up)) + Enc(Pop(Eax)))
  }

  /** Code for `e` placed at offset `pos`; the result is left in eax. */
  function CodeE(e: Expr, env: Env, pos: nat, entries: Entries): (code: seq<Byte>)
    ensures |code| == SizeE(e)
    decreases e
  {
    hide Enc, BinTail, UnCode, Reverse, Asm, BinCode, CondCode, ApplyCode, BumpCode;
    match e
    case Num(n) => Enc(MovImm(n))
    case Var(x) => Enc(if IsScalar(env, x) then LoadBp(Eax, OffsetOf(env, x)) else LeaBp(Eax, OffsetOf(env, x)))
    case Un(op, e1) => CodeE(e1, env, pos, entries) + Asm(UnCode(op))
    case Bin(op, l, r) => BinCode(CodeE(l, env, pos, entries), op, CodeE(r, env, pos + SizeE(l) + 1, entries))
    case Cond(c, t, f) =>
      var pt := pos + SizeE(c) + 8;
      CondCode(CodeE(c, env, pos, entries), CodeE(t, env, pt, entries), CodeE(f, env, pt + SizeE(t) + 5, entries))
    case Call(f, args) =>
      var end := pos + SizeArgs(args) + Len(Reverse(Count(args), 0)) + 5;
      ApplyCode(CodeArgs(args, env, pos, entries), Count(args), CallCode(f, end, entries))
    case Bump(x, up, prefix) => BumpCode(env, x, up, prefix)
  }

  function CodeArgs(es: Exprs, env: Env, pos: nat, entries: Entries): (code: seq<Byte>)
    ensures |code| == SizeArgs(es)
    decreases es
  {
    match es
    case ENil => []
    case ECons(e, tail) =>
      CodeE(e, env, pos, entries) + Enc(Push(Eax)) + CodeArgs(tail, env, pos + SizeE(e) + 1, entries)
  }

  // ----- statements -----

  /** Where break and continue jump to; the target of break may not be known yet. */
  datatype Exits = Exits(brk: Option<int>, cont: int)

  /** A break whose target is unknown holds 0 until it is patched. */
  function BreakRel(end: int, exits: Exits): Word
  {
    match exits.brk case None => 0 case Some(target) => Rel(end, target)
  }

  function Test(skip: int): seq<Byte> { Enc(CmpImm(Eax, 0)) + Enc(Jcc(E, Wrap(skip))) }

  const Epilogue: seq<Instr> := [Mov(Esp, Ebp), Pop(Ebp), Ret]

  function Update(env: Env, x: string, op: BinOp): (code: seq<Byte>)
    ensures |code| == 10 + Len(BinTail(op))
  {
    hide Enc, Asm, OffsetOf;
    Enc(Push(Eax)) + Enc(LoadBp(Eax, OffsetOf(env, x))) + (Enc(Mov(Ebx, Eax)) + Enc(Pop(Eax)) + Asm(BinTail(op)))
  }

  function Storing(value: seq<Byte>, off: Word): (code: seq<Byte>)
    ensures |code| == |value| + 6
  {
    value + Enc(StoreBp(Eax, off))
  }

  function Returning(value: seq<Byte>): (code: seq<Byte>)
    ensures |code| == |value| + 4
  {
    LenEpilogue();
    value + Asm(Epilogue)
  }

  function IfCode(c: seq<Byte>, t: seq<Byte>): (code: seq<Byte>)
    ensures |code| == |c| + 9 + |t|
  {
    c + Test(|t|) + t
  }

  function IfElseCode(c: seq<Byte>, t: seq<Byte>, f: seq<Byte>): (code: seq<Byte>)
    ensures |code| == |c| + 9 + |t| + 5 + |f|
  {
    c + Test(|t| + 5) + (t + Enc(Jmp(Wrap(|f|))) + f)
  }

  function WhileCode(c: seq<Byte>, body: seq<Byte>): (code: seq<Byte>)
    ensures |code| == |c| + 9 + |body| + 5
  {
    c + Test(|body| + 5) + (body + Enc(Jmp(Wrap(-(|c| + 9 + |body| + 5)))))
  }

  /** `test` is the code of the condition, if there is one. The step stands before the body:
      the test jumps over it, and the end of the body jumps back to it. */
  function ForCode(test: Option<seq<Byte>>, step: seq<Byte>, body: seq<Byte>): (code: seq<Byte>)
    ensures |code| == (if test.None? then 0 else |test.value| + 9) + 5 + |step| + 5 + |body| + 5
  {
    hide Enc;
    var rest := 5 + |step| + 5 + |body| + 5;
    var head := if test.None? then [] else test.value + Test(rest);
    head + Enc(Jmp(Wrap(|step| + 5)))
    + (step + Enc(Jmp(Wrap(-(|head| + 5 + |step| + 5)))) + (body + Enc(Jmp(Wrap(-(|step| + 5 + |body| + 5))))))
  }

  function CodeS(s: Stmt, env: Env, pos: nat, exits: Exits, entries: Entries): (code: seq<Byte>)
    ensures |code| == SizeS(s)
    decreases s, 1
  {
    hide Enc, Asm, IfCode, IfElseCode, WhileCode, ForCode, Update, CodeE, SizeE, Scope, BumpCode, OffsetOf, BinTail,
         Storing, Returning;
    match s
    case Decl(x, None) => Storing(Enc(MovImm(0)), Wrap(env.lo - 4))
    case Decl(x, Some(e)) => Storing(CodeE(e, Scope(s, env), pos, entries), Wrap(env.lo - 4))
    case DeclArray(_, _) => []
    case Assign(x, None, e) => Storing(CodeE(e, env, pos, entries), OffsetOf(env, x))
    case Assign(x, Some(op), e) => Storing(CodeE(e, env, pos, entries) + Update(env, x, op), OffsetOf(env, x))
    case BumpStmt(x, up) => BumpCode(env, x, up, true)
    case ExprStmt(e) => CodeE(e, env, pos, entries)
    case If(c, t) => IfCode(CodeE(c, env, pos, entries), CodeS(t, env, pos + SizeE(c) + 9, exits, entries))
    case IfElse(c, t, f) =>
      var pt := pos + SizeE(c) + 9;
      IfElseCode(CodeE(c, env, pos, entries), CodeS(t, env, pt, exits, entries),
                 CodeS(f, Scope(t, env), pt + SizeS(t) + 5, exits, entries))
    case While(c, body) =>
      WhileCode(CodeE(c, env, pos, entries),
                CodeS(body, env, pos + SizeE(c) + 9, Exits(Some(pos + SizeS(s)), pos), entries))
    case For(_, _, _, _) => CodeFor(s, env, pos, exits, entries)
    case Break => Enc(Jmp(BreakRel(pos + 5, exits)))
    case Continue => Enc(Jmp(Rel(pos + 5, exits.cont)))
    case Return(None) => Returning([])
    case Return(Some(e)) => Returning(CodeE(e, env, pos, entries))
    case Block(ss) => CodeSs(ss, env, pos, exits, entries)
    case Empty => []
  }

  function CodeFor(s: Stmt, env: Env, pos: nat, exits: Exits, entries: Entries): (code: seq<Byte>)
    requires s.For?
    ensures |code| == SizeS(s)
    decreases s, 0
  {
    hide ForCode;
    var For(start, cond, step, body) := s;
    var env1 := Scope(start, env);
    var test := pos + SizeS(start);
    var inc := test + SizeTest(cond) + 5;
    var enter := inc + SizeS(step) + 5;
    CodeS(start, env, pos, exits, entries)
    + ForCode(if cond.None? then None else Some(CodeE(cond.value, env1, test, entries)),
              CodeS(step, env1, inc, exits, entries),
              CodeS(body, Scope(step, env1), enter, Exits(Some(pos + SizeS(s)), inc), entries))
  }

  function CodeSs(ss: Stmts, env: Env, pos: nat, exits: Exits, entries: Entries): (code: seq<Byte>)
    ensures |code| == SizeSs(ss)
    decreases ss
  {
    match ss
    case SNil => []
    case SCons(s, tail) =>
      CodeS(s, env, pos, exits, entries) + CodeSs(tail, Scope(s, env), pos + SizeS(s), exits, entries)
  }

  lemma LenEpilogue()
    ensures Len(Epilogue) == 4
  {
    hide Enc;
    Asm3(Mov(Esp, Ebp), Pop(Ebp), Ret);
  }

  lemma LenBumping(env: Env, x: string, up: bool)
    ensures Len(Bumping(env, x, up)) == 13
  {
    hide Asm, Enc;
    Asm3(LoadBp(Eax, OffsetOf(env, x)), if up then Inc(Eax) else Dec(Eax), StoreBp(Eax, OffsetOf(env, x)));
  }

  lemma LenPopArgs(n: nat)
    ensures Len(PopArgs(n)) == if n == 0 then 0 else 3
  {
    if n != 0 { Asm1(AddImm(Esp, 4 * n % 256)); }
  }

  // ----- functions -----

  function Prologue(frame: nat): seq<Instr>
  {
    [Push(Ebp), Mov(Ebp, Esp), SubImm(Esp, Wrap(frame))]
  }

  function SizeF(f: Func): nat { 9 + SizeSs(f.body) + 9 }

  function FuncFrame(f: Func): nat
  {
    var d := ScopeAll(f.body, FuncEnv(f.params)).deepest;
    if d <= 0 then FrameSize(d) else 16
  }

  function CodeF(f: Func, pos: nat, entries: Entries): (code: seq<Byte>)
    ensures |code| == SizeF(f)
  {
    hide Enc, Asm, CodeSs, FuncFrame;
    LenEpilogue();
    Asm3(Push(Ebp), Mov(Ebp, Esp), SubImm(Esp, Wrap(FuncFrame(f))));
    Asm(Prologue(FuncFrame(f)))
    + (CodeSs(f.body, FuncEnv(f.params), pos + 9, Exits(Some(0), 0), entries) + (Enc(MovImm(0)) + Asm(Epilogue)))
  }

  /** Functions are laid out one after the other. */
  function EntriesFrom(p: Program, pos: nat): Entries
  {
    if p == [] then map[] else EntriesFrom(p[1..], pos + SizeF(p[0]))[p[0].name := pos]
  }

  function CodeP(p: Program, pos: nat, entries: Entries): seq<Byte>
  {
    if p == [] then [] else CodeF(p[0], pos, entries) + CodeP(p[1..], pos + SizeF(p[0]), entries)
  }

  function Compile(p: Program): seq<Byte> { CodeP(p, 0, EntriesFrom(p, 0)) }

  lemma {:induction false} AsmAppend(a: seq<Instr>, b: seq<Instr>)
    ensures Asm(a + b) == Asm(a) + Asm(b)
  {
    if a == [] {
      assert a + b == b;
    } else {
      assert (a + b)[1..] == a[1..] + b;
      AsmAppend(a[1..], b);
    }
  }
}
