/** Execution of encoded instructions. */
module Machine {
  import opened Basics
  import opened X86

  type Mem = int -> Byte

  /** Flags after a compare, test or byte `or`; other instructions leave them undefined. */
  datatype Flags = Undefined | Flags(zf: bool, sf: bool, of: bool)

  datatype Cpu = Cpu(pc: int, eax: Word, ecx: Word, edx: Word, ebx: Word, esp: Word, ebp: Word,
                     flags: Flags, mem: Mem, limit: Word)

  datatype State = Live(cpu: Cpu) | Overflow | Fault

  function Get(c: Cpu, r: Reg): Word
  {
    match r
    case Eax => c.eax case Ecx => c.ecx case Edx => c.edx
    case Ebx => c.ebx case Esp => c.esp case Ebp => c.ebp
  }

  function Put(c: Cpu, r: Reg, v: Word): Cpu
  {
    match r
    case Eax => c.(eax := v) case Ecx => c.(ecx := v) case Edx => c.(edx := v)
    case Ebx => c.(ebx := v) case Esp => c.(esp := v) case Ebp => c.(ebp := v)
  }

  /** Only eax, ecx, edx and ebx have a low byte. */
  predicate HasLow(r: Reg) { r != Esp && r != Ebp }

  function PutLow(c: Cpu, r: Reg, b: Byte): Cpu
  {
    Put(c, r, Get(c, r) - Get(c, r) % 256 + b)
  }

  // ----- memory -----

  function Load32(m: Mem, a: int): Word
  {
    FromLe32(m(a), m(a + 1), m(a + 2), m(a + 3))
  }

  function Store32(m: Mem, a: int, v: Word): Mem
  {
    x => if a <= x < a + 4 then Le32(v)[x - a] else m(x)
  }

  lemma LoadStore(m: Mem, a: int, v: Word, b: int)
    ensures Load32(Store32(m, a, v), a) == v
    ensures b + 4 <= a || a + 4 <= b ==> Load32(Store32(m, a, v), b) == Load32(m, b)
  {
    LeRoundTrip(v);
  }

  ghost predicate InStack(c: Cpu, a: int) { c.limit <= a && a + 4 <= W }

  // ----- flags -----

  function SubFlags(a: Word, b: Word): Flags
  {
    var d := Signed(a) - Signed(b);
    Flags(a == b, Wrap(a - b) >= H, !(-H <= d < H))
  }

  function LogicFlags(r: Word): Flags { Flags(r == 0, r >= H, false) }

  predicate Holds(c: Cond, zf: bool, sf: bool, of: bool)
  {
    match c
    case E => zf
    case NE => !zf
    case L => sf != of
    case GE => sf == of
    case LE => zf || sf != of
    case G => !zf && sf == of
  }

  /** The signed order that the condition codes name after `cmp a, b`. */
  predicate Compares(c: Cond, a: int, b: int)
  {
    match c
    case E => a == b
    case NE => a != b
    case L => a < b
    case GE => a >= b
    case LE => a <= b
    case G => a > b
  }

  lemma SubFlagsCompare(c: Cond, a: Word, b: Word)
    ensures var f := SubFlags(a, b); Holds(c, f.zf, f.sf, f.of) == Compares(c, Signed(a), Signed(b))
  {
  }

  // ----- one instruction -----

  ghost function ExecAlu(op: AluOp, d: Cpu, dst: Reg, a: Word, b: Word): Cpu
  {
    match op
    case ADD => Put(d, dst, Wrap(a + b)).(flags := Undefined)
    case SUB => Put(d, dst, Wrap(a - b)).(flags := SubFlags(a, b))
    case CMP => d.(flags := SubFlags(a, b))
    case AND => var r := Logic32(And, a, b); Put(d, dst, r).(flags := LogicFlags(r))
    case OR => var r := Logic32(Or, a, b); Put(d, dst, r).(flags := LogicFlags(r))
    case XOR => var r := Logic32(Xor, a, b); Put(d, dst, r).(flags := LogicFlags(r))
    case TEST => d.(flags := LogicFlags(Logic32(And, a, b)))
  }

  /** Signed division of edx:eax; quotients that do not fit trap. */
  ghost function ExecIdiv(d: Cpu, divisor: int): State
  {
    var n := Signed(d.edx) * W + d.eax;
    if divisor == 0 then Fault
    else
      var q := TruncDiv(n, divisor);
      if -H <= q < H then Live(d.(eax := Wrap(q), edx := Wrap(TruncRem(n, divisor)), flags := Undefined))
      else Fault
  }

  ghost function ExecPush(c: Cpu, d: Cpu, v: Word): State
  {
    if c.esp - 4 < c.limit then Overflow
    else Live(d.(esp := c.esp - 4, mem := Store32(c.mem, c.esp - 4, v)))
  }

  /** Runs one instruction of cpu `c`; `d` is `c` with the program counter moved past it. */
  ghost function Exec(i: Instr, c: Cpu): State
  {
    var d := c.(pc := c.pc + Size(i));
    match i
    case MovImm(v) => Live(d.(eax := v))
    case Mov(dst, s) => Live(Put(d, dst, Get(c, s)))
    case Alu(op, dst, s) => Live(ExecAlu(op, d, dst, Get(c, dst), Get(c, s)))
    case Imul(dst, s) => Live(Put(d, dst, Wrap(Get(c, dst) * Get(c, s))).(flags := Undefined))
    case Cdq => Live(d.(edx := if c.eax < H then 0 else W - 1))
    case Idiv(r) => ExecIdiv(d, Signed(Get(c, r)))
    case Not(r) => Live(Put(d, r, W - 1 - Get(c, r)))
    case Neg(r) => Live(Put(d, r, Wrap(0 - Get(c, r))).(flags := Undefined))
    case Shl(r) => Live(Put(d, r, ShiftLeft(Get(c, r), c.ecx % 256)).(flags := Undefined))
    case Sar(r) => Live(Put(d, r, ShiftArith(Get(c, r), c.ecx % 256)).(flags := Undefined))
    case Set(cond, r) =>
      if !HasLow(r) || c.flags.Undefined? then Fault
      else Live(PutLow(d, r, Bool(Holds(cond, c.flags.zf, c.flags.sf, c.flags.of))))
    case Movzx(dst, s) => if HasLow(s) then Live(Put(d, dst, Get(c, s) % 256)) else Fault
    case OrByte(dst, s) =>
      if !HasLow(dst) || !HasLow(s) then Fault
      else
        Pow2At8();
        var r := Bitwise(Or, Get(c, dst) % 256, Get(c, s) % 256, 8);
        Live(PutLow(d, dst, r).(flags := Flags(r == 0, r >= 128, false)))
    case CmpImm(r, v) => Live(d.(flags := SubFlags(Get(c, r), SignExtend(v))))
    case AddImm(r, v) => Live(Put(d, r, Wrap(Get(c, r) + SignExtend(v))).(flags := Undefined))
    case SubImm(r, v) =>
      if r == Esp && c.esp - v < c.limit then Overflow
      else Live(Put(d, r, Wrap(Get(c, r) - v)).(flags := SubFlags(Get(c, r), v)))
    case Inc(r) => Live(Put(d, r, Wrap(Get(c, r) + 1)).(flags := Undefined))
    case Dec(r) => Live(Put(d, r, Wrap(Get(c, r) - 1)).(flags := Undefined))
    case Push(r) => ExecPush(c, d, Get(c, r))
    case Pop(r) => if c.esp + 4 < W then Live(Put(d.(esp := c.esp + 4), r, Load32(c.mem, c.esp))) else Fault
    case LoadBp(r, disp) =>
      var a := c.ebp + Signed(disp);
      if InStack(c, a) then Live(Put(d, r, Load32(c.mem, a))) else Fault
    case StoreBp(r, disp) =>
      var a := c.ebp + Signed(disp);
      if InStack(c, a) then Live(d.(mem := Store32(c.mem, a, Get(c, r)))) else Fault
    case LeaBp(r, disp) => Live(Put(d, r, Wrap(c.ebp + disp)))
    case LoadSp(r, disp) =>
      var a := c.esp + Signed(disp);
      if InStack(c, a) then Live(Put(d, r, Load32(c.mem, a))) else Fault
    case StoreSp(r, disp) =>
      var a := c.esp + Signed(disp);
      if InStack(c, a) then Live(d.(mem := Store32(c.mem, a, Get(c, r)))) else Fault
    case Jmp(rel) => Live(d.(pc := d.pc + Signed(rel)))
    case Jcc(cond, rel) =>
      if c.flags.Undefined? then Fault
      else if Holds(cond, c.flags.zf, c.flags.sf, c.flags.of) then Live(d.(pc := d.pc + Signed(rel)))
      else Live(d)
    case Call(rel) =>
      if 0 <= d.pc < W then ExecPush(c, d.(pc := d.pc + Signed(rel)), d.pc) else Fault
    case Ret => if c.esp + 4 < W then Live(d.(esp := c.esp + 4, pc := Load32(c.mem, c.esp))) else Fault
  }

  function SignExtend(b: Byte): Word { if b < 128 then b else b + W - 256 }

  lemma Pow2At8()
    ensures Pow2(8) == 256
  {
  }

  // ----- runs -----

  ghost function Step(code: seq<Byte>, s: State): State
  {
    if !s.Live? then s
    else match Decode(code, s.cpu.pc)
      case None => Fault
      case Some(i) => Exec(i, s.cpu)
  }

  ghost function Steps(code: seq<Byte>, s: State, n: nat): State
    decreases n
  {
    if n == 0 then s else Steps(code, Step(code, s), n - 1)
  }

  /** The run from `s` passes through `t`. */
  ghost predicate Goes(code: seq<Byte>, s: State, t: State)
  {
    exists n: nat :: Steps(code, s, n) == t
  }

  lemma {:induction false} StepsAdd(code: seq<Byte>, s: State, m: nat, n: nat)
    ensures Steps(code, s, m + n) == Steps(code, Steps(code, s, m), n)
    decreases m
  {
    if m > 0 { StepsAdd(code, Step(code, s), m - 1, n); }
  }

  lemma Chain(code: seq<Byte>, s: State, t: State, u: State)
    requires Goes(code, s, t) && Goes(code, t, u)
    ensures Goes(code, s, u)
  {
    var m: nat :| Steps(code, s, m) == t;
    var n: nat :| Steps(code, t, n) == u;
    StepsAdd(code, s, m, n);
  }

  lemma OneStep(code: seq<Byte>, c: Cpu, i: Instr)
    requires At(code, c.pc, Enc(i))
    ensures Goes(code, Live(c), Exec(i, c))
  {
    DecodeInvertsEncode(code, c.pc, i);
    assert Steps(code, Step(code, Live(c)), 0) == Exec(i, c);
    assert Steps(code, Live(c), 1) == Exec(i, c);
  }

  // ----- straight-line code -----

  predicate Falls(i: Instr) { !i.Jmp? && !i.Jcc? && !i.Call? && !i.Ret? }

  function Asm(code: seq<Instr>): seq<Byte>
    decreases code
  {
    if code == [] then [] else Enc(code[0]) + Asm(code[1..])
  }

  lemma Asm1(a: Instr)
    ensures Asm([a]) == Enc(a)
  {
  }

  lemma Asm2(a: Instr, b: Instr)
    ensures Asm([a, b]) == Enc(a) + Enc(b)
  {
    assert [a, b][1..] == [b];
    Asm1(b);
  }

  lemma Asm3(a: Instr, b: Instr, c: Instr)
    ensures Asm([a, b, c]) == Enc(a) + (Enc(b) + Enc(c))
  {
    assert [a, b, c][1..] == [b, c];
    Asm2(b, c);
  }

  ghost function ExecAll(code: seq<Instr>, s: State): State
    decreases code
  {
    if code == [] || !s.Live? then s else ExecAll(code[1..], Exec(code[0], s.cpu))
  }

  lemma FallsNext(i: Instr, c: Cpu)
    requires Falls(i)
    ensures Exec(i, c).Live? ==> Exec(i, c).cpu.pc == c.pc + Size(i)
  {
    hide Size, Load32, Store32, Logic32, SubFlags;
  }

  lemma {:induction false} Straight(code: seq<Byte>, c: Cpu, instrs: seq<Instr>)
    requires At(code, c.pc, Asm(instrs))
    requires forall k :: 0 <= k < |instrs| ==> Falls(instrs[k])
    ensures Goes(code, Live(c), ExecAll(instrs, Live(c)))
    ensures var t := ExecAll(instrs, Live(c)); t.Live? ==> t.cpu.pc == c.pc + |Asm(instrs)|
    decreases instrs
  {
    hide Exec;
    if instrs == [] {
      assert Steps(code, Live(c), 0) == Live(c);
    } else {
      var i, rest := instrs[0], instrs[1..];
      AtSplit(code, c.pc, Enc(i), Asm(rest));
      OneStep(code, c, i);
      var t := Exec(i, c);
      if t.Live? {
        FallsNext(i, c);
        Straight(code, t.cpu, rest);
        Chain(code, Live(c), t, ExecAll(rest, t));
      }
    }
  }
}
