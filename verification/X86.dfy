/** The part of the 32-bit x86 that CupidC emits code for: instructions, their byte
    encoding, and a machine that fetches and decodes those bytes.

    The machine is stricter than the hardware, so a run here is a run there:
    a push or call below `limit` stops with `Overflow`, any other access outside the
    stack, a division trap, an undecodable byte or a branch on flags that the last
    flag-writing instruction left undefined stops with `Fault`. */
module X86 {
  import opened Basics

  const W: int := 0x1_0000_0000
  const H: int := 0x8000_0000

  // ----- words -----

  function Wrap(x: int): Word { x % W }

  /** The two's complement reading of a word. */
  function Signed(w: Word): int { if w < H then w else w - W }

  function Bool(b: bool): Word { if b then 1 else 0 }

  function Pow2(n: nat): nat { if n == 0 then 1 else 2 * Pow2(n - 1) }

  datatype Logic = And | Or | Xor

  predicate LogicBit(op: Logic, a: bool, b: bool)
  {
    match op
    case And => a && b
    case Or => a || b
    case Xor => a != b
  }

  /** The bitwise operation on the low `n` bits. */
  function Bitwise(op: Logic, a: nat, b: nat, n: nat): (r: nat)
    ensures r < Pow2(n)
  {
    if n == 0 then 0
    else Bool(LogicBit(op, a % 2 == 1, b % 2 == 1)) + 2 * Bitwise(op, a / 2, b / 2, n - 1)
  }

  lemma Pow2At32()
    ensures Pow2(32) == W
  {
    assert Pow2(8) == 256;
    assert Pow2(16) == 65536 by { assert Pow2(12) == 4096; }
    assert Pow2(24) == 0x100_0000 by { assert Pow2(20) == 0x10_0000; }
    assert Pow2(28) == 0x1000_0000;
  }

  function Logic32(op: Logic, a: Word, b: Word): Word
  {
    Pow2At32();
    Bitwise(op, a, b, 32)
  }

  /** C's division: the quotient truncated toward zero. */
  function TruncDiv(a: int, b: int): int
    requires b != 0
  {
    if a >= 0 then (if b > 0 then a / b else -(a / -b))
    else if b > 0 then -(-a / b) else -a / -b
  }

  function TruncRem(a: int, b: int): int
    requires b != 0
  {
    a - b * TruncDiv(a, b)
  }

  /** Shifts use the low five bits of the count, as the hardware does. */
  function ShiftLeft(a: Word, count: Word): Word { Wrap(a * Pow2(count % 32)) }

  lemma Pow2Positive(n: nat)
    ensures Pow2(n) > 0
  {
  }

  function ShiftArith(a: Word, count: Word): Word
  {
    Pow2Positive(count % 32);
    Wrap(Signed(a) / Pow2(count % 32))
  }

  // ----- instructions -----

  datatype Reg = Eax | Ecx | Edx | Ebx | Esp | Ebp

  function RegCode(r: Reg): (c: nat)
    ensures c < 6
  {
    match r case Eax => 0 case Ecx => 1 case Edx => 2 case Ebx => 3 case Esp => 4 case Ebp => 5
  }

  datatype Cond = E | NE | L | GE | LE | G

  function CondCode(c: Cond): (n: nat)
    ensures 4 <= n < 16
  {
    match c case E => 4 case NE => 5 case L => 12 case GE => 13 case LE => 14 case G => 15
  }

  datatype AluOp = ADD | OR | AND | SUB | XOR | CMP | TEST

  function AluCode(op: AluOp): Byte
  {
    match op
    case ADD => 0x01 case OR => 0x09 case AND => 0x21 case SUB => 0x29
    case XOR => 0x31 case CMP => 0x39 case TEST => 0x85
  }

  datatype Instr =
    | MovImm(imm: Word)                     // mov eax, imm32
    | Mov(dst: Reg, src: Reg)
    | Alu(op: AluOp, dst: Reg, src: Reg)
    | Imul(dst: Reg, src: Reg)
    | Cdq
    | Idiv(dst: Reg)
    | Not(dst: Reg)
    | Neg(dst: Reg)
    | Shl(dst: Reg)                         // shl dst, cl
    | Sar(dst: Reg)                         // sar dst, cl
    | Set(cond: Cond, dst: Reg)             // setcc on the low byte of dst
    | Movzx(dst: Reg, src: Reg)             // movzx dst, low byte of src
    | OrByte(dst: Reg, src: Reg)            // or on the low bytes
    | CmpImm(dst: Reg, imm8: Byte)
    | AddImm(dst: Reg, imm8: Byte)          // imm8 is sign-extended
    | SubImm(dst: Reg, imm: Word)
    | Inc(dst: Reg)
    | Dec(dst: Reg)
    | Push(src: Reg)
    | Pop(dst: Reg)
    | LoadBp(dst: Reg, disp: Word)          // mov dst, [ebp+disp32]
    | StoreBp(src: Reg, disp: Word)         // mov [ebp+disp32], src
    | LeaBp(dst: Reg, disp: Word)           // lea dst, [ebp+disp32]
    | LoadSp(dst: Reg, disp: Word)          // mov dst, [esp+disp32]
    | StoreSp(src: Reg, disp: Word)         // mov [esp+disp32], src
    | Jmp(rel: Word)
    | Jcc(cond: Cond, rel: Word)
    | Call(rel: Word)
    | Ret

  // ----- encoding -----

  /** Little-endian 32-bit immediate. */
  function Le32(v: Word): (s: seq<Byte>)
    ensures |s| == 4
  {
    [v % 256, v / 0x100 % 256, v / 0x1_0000 % 256, v / 0x100_0000]
  }

  function FromLe32(b0: Byte, b1: Byte, b2: Byte, b3: Byte): Word
  {
    b0 + 0x100 * b1 + 0x1_0000 * b2 + 0x100_0000 * b3
  }

  /** A ModRM byte: two mode bits, three register bits, three r/m bits. */
  function ModRM(mode: nat, reg: nat, rm: nat): Byte
    requires mode < 4 && reg < 8 && rm < 8
  {
    64 * mode + 8 * reg + rm
  }

  /** The shapes of instruction encoding used: an opcode byte `op` (or 0x0F and `op`),
      then a ModRM byte, a SIB byte, a displacement or an immediate. */
  datatype Form =
    | Plain(op: Byte)
    | PlainImm(op: Byte, imm: Word)
    | Rm(op: Byte, reg: nat, rm: nat)
    | RmImm8(op: Byte, reg: nat, rm: nat, imm8: Byte)
    | RmImm(op: Byte, reg: nat, rm: nat, imm: Word)
    | BpDisp(op: Byte, reg: nat, imm: Word)
    | SpDisp(op: Byte, reg: nat, imm: Word)
    | Two(op: Byte, reg: nat, rm: nat)
    | TwoImm(op: Byte, imm: Word)

  predicate IsPlain(op: Byte) { op == 0xC3 || op == 0x99 || 0x40 <= op < 0x60 }
  predicate IsPlainImm(op: Byte) { op == 0xB8 || op == 0xE8 || op == 0xE9 }
  predicate HasModRM(op: Byte) { !IsPlain(op) && !IsPlainImm(op) && op != 0x0F }

  /** The opcode determines the form, so forms can be told apart when decoding. */
  predicate WellFormed(f: Form)
  {
    match f
    case Plain(op) => IsPlain(op)
    case PlainImm(op, _) => IsPlainImm(op)
    case Rm(op, reg, rm) => HasModRM(op) && op != 0x81 && op != 0x83 && reg < 8 && rm < 8
    case RmImm8(op, reg, rm, _) => op == 0x83 && reg < 8 && rm < 8
    case RmImm(op, reg, rm, _) => op == 0x81 && reg < 8 && rm < 8
    case BpDisp(op, reg, _) => HasModRM(op) && reg < 8
    case SpDisp(op, reg, _) => HasModRM(op) && reg < 8
    case Two(op, reg, rm) => !(0x80 <= op < 0x90) && reg < 8 && rm < 8
    case TwoImm(op, _) => 0x80 <= op < 0x90
  }

  function FormSize(f: Form): (n: nat)
    ensures 1 <= n <= 7
  {
    match f
    case Plain(_) => 1
    case PlainImm(_, _) => 5
    case Rm(_, _, _) => 2
    case RmImm8(_, _, _, _) => 3
    case RmImm(_, _, _, _) => 6
    case BpDisp(_, _, _) => 6
    case SpDisp(_, _, _) => 7
    case Two(_, _, _) => 3
    case TwoImm(_, _) => 6
  }

  function EncForm(f: Form): (s: seq<Byte>)
    requires WellFormed(f)
    ensures |s| == FormSize(f)
  {
    match f
    case Plain(op) => [op]
    case PlainImm(op, v) => [op] + Le32(v)
    case Rm(op, reg, rm) => [op, ModRM(3, reg, rm)]
    case RmImm8(op, reg, rm, v) => [op, ModRM(3, reg, rm), v]
    case RmImm(op, reg, rm, v) => [op, ModRM(3, reg, rm)] + Le32(v)
    case BpDisp(op, reg, v) => [op, ModRM(2, reg, 5)] + Le32(v)
    case SpDisp(op, reg, v) => [op, ModRM(2, reg, 4), 0x24] + Le32(v)
    case Two(op, reg, rm) => [0x0F, op, ModRM(3, reg, rm)]
    case TwoImm(op, v) => [0x0F, op] + Le32(v)
  }

  function Size(i: Instr): (n: nat)
    ensures 1 <= n <= 7
  {
    match i
    case Cdq | Inc(_) | Dec(_) | Push(_) | Pop(_) | Ret => 1
    case Mov(_, _) | Alu(_, _, _) | Idiv(_) | Not(_) | Neg(_) | Shl(_) | Sar(_) | OrByte(_, _) => 2
    case Imul(_, _) | Set(_, _) | Movzx(_, _) | CmpImm(_, _) | AddImm(_, _) => 3
    case MovImm(_) | Jmp(_) | Call(_) => 5
    case SubImm(_, _) | LoadBp(_, _) | StoreBp(_, _) | LeaBp(_, _) | Jcc(_, _) => 6
    case LoadSp(_, _) | StoreSp(_, _) => 7
  }

  function FormOf(i: Instr): (f: Form)
    ensures WellFormed(f)
  {
    match i
    case MovImm(v) => PlainImm(0xB8, v)
    case Mov(d, s) => Rm(0x89, RegCode(s), RegCode(d))
    case Alu(op, d, s) => Rm(AluCode(op), RegCode(s), RegCode(d))
    case Imul(d, s) => Two(0xAF, RegCode(d), RegCode(s))
    case Cdq => Plain(0x99)
    case Idiv(r) => Rm(0xF7, 7, RegCode(r))
    case Not(r) => Rm(0xF7, 2, RegCode(r))
    case Neg(r) => Rm(0xF7, 3, RegCode(r))
    case Shl(r) => Rm(0xD3, 4, RegCode(r))
    case Sar(r) => Rm(0xD3, 7, RegCode(r))
    case Set(c, r) => Two(0x90 + CondCode(c), 0, RegCode(r))
    case Movzx(d, s) => Two(0xB6, RegCode(d), RegCode(s))
    case OrByte(d, s) => Rm(0x08, RegCode(s), RegCode(d))
    case CmpImm(r, v) => RmImm8(0x83, 7, RegCode(r), v)
    case AddImm(r, v) => RmImm8(0x83, 0, RegCode(r), v)
    case SubImm(r, v) => RmImm(0x81, 5, RegCode(r), v)
    case Inc(r) => Plain(0x40 + RegCode(r))
    case Dec(r) => Plain(0x48 + RegCode(r))
    case Push(r) => Plain(0x50 + RegCode(r))
    case Pop(r) => Plain(0x58 + RegCode(r))
    case LoadBp(r, d) => BpDisp(0x8B, RegCode(r), d)
    case StoreBp(r, d) => BpDisp(0x89, RegCode(r), d)
    case LeaBp(r, d) => BpDisp(0x8D, RegCode(r), d)
    case LoadSp(r, d) => SpDisp(0x8B, RegCode(r), d)
    case StoreSp(r, d) => SpDisp(0x89, RegCode(r), d)
    case Jmp(v) => PlainImm(0xE9, v)
    case Jcc(c, v) => TwoImm(0x80 + CondCode(c), v)
    case Call(v) => PlainImm(0xE8, v)
    case Ret => Plain(0xC3)
  }

  function Enc(i: Instr): (s: seq<Byte>)
    ensures |s| == Size(i)
  {
    FormSizes(i);
    EncForm(FormOf(i))
  }

  lemma FormSizes(i: Instr)
    ensures FormSize(FormOf(i)) == Size(i)
  {
  }

  // ----- decoding -----

  function RegOf(code: nat): Option<Reg>
  {
    if code == 0 then Some(Eax) else if code == 1 then Some(Ecx) else if code == 2 then Some(Edx)
    else if code == 3 then Some(Ebx) else if code == 4 then Some(Esp) else if code == 5 then Some(Ebp)
    else None
  }

  function CondOf(code: nat): Option<Cond>
  {
    if code == 4 then Some(E) else if code == 5 then Some(NE) else if code == 12 then Some(L)
    else if code == 13 then Some(GE) else if code == 14 then Some(LE) else if code == 15 then Some(G)
    else None
  }

  function AluOf(code: Byte): Option<AluOp>
  {
    if code == 0x01 then Some(ADD) else if code == 0x09 then Some(OR) else if code == 0x21 then Some(AND)
    else if code == 0x29 then Some(SUB) else if code == 0x31 then Some(XOR) else if code == 0x39 then Some(CMP)
    else if code == 0x85 then Some(TEST) else None
  }

  /** Splits seven bytes of lookahead into the fields of an encoding form. */
  function ParseForm(b: seq<Byte>): Option<Form>
    requires |b| == 7
  {
    var op := b[0];
    var mode, reg, rm := b[1] / 64, b[1] / 8 % 8, b[1] % 8;
    if IsPlain(op) then Some(Plain(op))
    else if IsPlainImm(op) then Some(PlainImm(op, FromLe32(b[1], b[2], b[3], b[4])))
    else if op == 0x0F then
      if 0x80 <= b[1] < 0x90 then Some(TwoImm(b[1], FromLe32(b[2], b[3], b[4], b[5])))
      else if b[2] / 64 == 3 then Some(Two(b[1], b[2] / 8 % 8, b[2] % 8)) else None
    else if mode == 3 then
      if op == 0x83 then Some(RmImm8(op, reg, rm, b[2]))
      else if op == 0x81 then Some(RmImm(op, reg, rm, FromLe32(b[2], b[3], b[4], b[5])))
      else Some(Rm(op, reg, rm))
    else if mode == 2 && rm == 5 then Some(BpDisp(op, reg, FromLe32(b[2], b[3], b[4], b[5])))
    else if mode == 2 && rm == 4 && b[2] == 0x24 then Some(SpDisp(op, reg, FromLe32(b[3], b[4], b[5], b[6])))
    else None
  }

  function InstrOf(f: Form): Option<Instr>
  {
    match f
    case Plain(op) =>
      if op == 0xC3 then Some(Ret) else if op == 0x99 then Some(Cdq)
      else (match RegOf(op % 8)
            case None => None
            case Some(r) =>
              if 0x40 <= op < 0x48 then Some(Inc(r)) else if 0x48 <= op < 0x50 then Some(Dec(r))
              else if 0x50 <= op < 0x58 then Some(Push(r)) else if 0x58 <= op < 0x60 then Some(Pop(r)) else None)
    case PlainImm(op, v) =>
      if op == 0xB8 then Some(MovImm(v)) else if op == 0xE9 then Some(Jmp(v))
      else if op == 0xE8 then Some(Call(v)) else None
    case Rm(op, reg, rm) => (match RegOf(rm) case None => None case Some(m) => RegInstr(op, reg, m))
    case RmImm8(op, reg, rm, v) =>
      (match RegOf(rm)
       case None => None
       case Some(m) => if reg == 7 then Some(CmpImm(m, v)) else if reg == 0 then Some(AddImm(m, v)) else None)
    case RmImm(op, reg, rm, v) =>
      (match RegOf(rm) case None => None case Some(m) => if reg == 5 then Some(SubImm(m, v)) else None)
    case BpDisp(op, reg, v) =>
      (match RegOf(reg)
       case None => None
       case Some(r) =>
         if op == 0x8B then Some(LoadBp(r, v)) else if op == 0x89 then Some(StoreBp(r, v))
         else if op == 0x8D then Some(LeaBp(r, v)) else None)
    case SpDisp(op, reg, v) =>
      (match RegOf(reg)
       case None => None
       case Some(r) => if op == 0x8B then Some(LoadSp(r, v)) else if op == 0x89 then Some(StoreSp(r, v)) else None)
    case Two(op, reg, rm) =>
      (match (RegOf(reg), RegOf(rm))
       case (Some(r), Some(m)) =>
         if op == 0xAF then Some(Imul(r, m))
         else if op == 0xB6 then Some(Movzx(r, m))
         else if 0x90 <= op < 0xA0 && r == Eax then
           (match CondOf(op - 0x90) case None => None case Some(c) => Some(Set(c, m)))
         else None
       case _ => None)
    case TwoImm(op, v) =>
      if op < 0x80 then None
      else (match CondOf(op - 0x80) case None => None case Some(c) => Some(Jcc(c, v)))
  }

  function RegInstr(op: Byte, reg: nat, m: Reg): Option<Instr>
  {
    if op == 0xF7 then
      if reg == 7 then Some(Idiv(m)) else if reg == 2 then Some(Not(m)) else if reg == 3 then Some(Neg(m)) else None
    else if op == 0xD3 then
      if reg == 4 then Some(Shl(m)) else if reg == 7 then Some(Sar(m)) else None
    else match RegOf(reg)
      case None => None
      case Some(r) =>
        if op == 0x89 then Some(Mov(m, r))
        else if op == 0x08 then Some(OrByte(m, r))
        else (match AluOf(op) case None => None case Some(a) => Some(Alu(a, m, r)))
  }

  /** The seven bytes at `pc`, the code buffer being followed by zeroes. */
  function Window(code: seq<Byte>, pc: nat): (b: seq<Byte>)
    ensures |b| == 7
  {
    seq(7, (k: nat) => if pc + k < |code| then code[pc + k] else 0)
  }

  function Decode(code: seq<Byte>, pc: int): Option<Instr>
  {
    if !(0 <= pc < |code|) then None
    else match ParseForm(Window(code, pc)) case None => None case Some(f) => InstrOf(f)
  }

  /** `bytes` stand in `code` from offset `pc` on. */
  ghost predicate At(code: seq<Byte>, pc: int, bytes: seq<Byte>)
  {
    0 <= pc && pc + |bytes| <= |code| && code[pc..pc + |bytes|] == bytes
  }

  lemma AtSplit(code: seq<Byte>, pc: int, a: seq<Byte>, b: seq<Byte>)
    requires At(code, pc, a + b)
    ensures At(code, pc, a) && At(code, pc + |a|, b)
  {
    var ab := a + b;
    assert code[pc..pc + |a|] == ab[..|a|];
    assert code[pc + |a|..pc + |ab|] == ab[|a|..];
  }

  lemma LeRoundTrip(v: Word)
    ensures var s := Le32(v); FromLe32(s[0], s[1], s[2], s[3]) == v
  {
    var a := v / 0x100;
    var b := a / 0x100;
    assert v == 0x100 * a + v % 0x100 && a == 0x100 * b + a % 0x100;
    assert b == v / 0x1_0000 && b / 0x100 == v / 0x100_0000;
  }

  lemma ModRMFields(mode: nat, reg: nat, rm: nat)
    requires mode < 4 && reg < 8 && rm < 8
    ensures var b := ModRM(mode, reg, rm); b / 64 == mode && b / 8 % 8 == reg && b % 8 == rm
  {
    Eighth(8 * mode + reg, rm);
    Eighth(mode, reg);
  }

  lemma Eighth(a: nat, r: nat)
    requires r < 8
    ensures (8 * a + r) / 8 == a && (8 * a + r) % 8 == r
  {
  }

  /** Decoding inverts encoding, whatever follows the instruction. */
  lemma DecodeInvertsEncode(code: seq<Byte>, pc: int, i: Instr)
    requires At(code, pc, Enc(i))
    ensures Decode(code, pc) == Some(i)
  {
    var b, e := Window(code, pc), Enc(i);
    assert forall k :: 0 <= k < |e| ==> b[k] == code[pc..pc + |e|][k];
    assert forall k :: 0 <= k < |e| ==> b[k] == e[k];
    FormRoundTrip(b, FormOf(i));
    InstrRoundTrip(i);
  }

  lemma FormRoundTrip(b: seq<Byte>, f: Form)
    requires WellFormed(f) && |b| == 7
    requires forall k :: 0 <= k < |EncForm(f)| ==> b[k] == EncForm(f)[k]
    ensures ParseForm(b) == Some(f)
  {
    var e := EncForm(f);
    if !f.Plain? && !f.Rm? && !f.RmImm8? && !f.Two? { LeRoundTrip(f.imm); }
    match f
    case Plain(op) =>
    case PlainImm(op, v) => assert e[1..] == Le32(v);
    case Rm(op, reg, rm) => ModRMFields(3, reg, rm);
    case RmImm8(op, reg, rm, v) => ModRMFields(3, reg, rm);
    case RmImm(op, reg, rm, v) => ModRMFields(3, reg, rm); assert e[2..] == Le32(v);
    case BpDisp(op, reg, v) => ModRMFields(2, reg, 5); assert e[2..] == Le32(v);
    case SpDisp(op, reg, v) => ModRMFields(2, reg, 4); assert e[3..] == Le32(v);
    case Two(op, reg, rm) => ModRMFields(3, reg, rm);
    case TwoImm(op, v) => assert e[2..] == Le32(v);
  }

  lemma RegRoundTrip(r: Reg)
    ensures RegOf(RegCode(r)) == Some(r)
  {
  }

  lemma CondRoundTrip(c: Cond)
    ensures CondOf(CondCode(c)) == Some(c)
  {
  }

  lemma AluRoundTrip(op: AluOp, m: Reg, r: Reg)
    ensures RegInstr(AluCode(op), RegCode(r), m) == Some(Alu(op, m, r))
  {
    RegRoundTrip(r);
  }

  lemma PlainRoundTrip(base: Byte, r: Reg)
    requires base == 0x40 || base == 0x48 || base == 0x50 || base == 0x58
    ensures (base + RegCode(r)) % 8 == RegCode(r)
  {
  }

  lemma PlainBack(i: Instr)
    requires i.Inc? || i.Dec? || i.Push? || i.Pop? || i.Ret? || i.Cdq?
    ensures InstrOf(FormOf(i)) == Some(i)
  {
    hide RegOf, RegCode;
    if !i.Ret? && !i.Cdq? {
      var r := if i.Push? then i.src else i.dst;
      RegCodeFits(r);
      RegRoundTrip(r);
      PlainRoundTrip(0x40, r);
      PlainRoundTrip(0x48, r);
      PlainRoundTrip(0x50, r);
      PlainRoundTrip(0x58, r);
    }
  }

  lemma RegCodeFits(r: Reg)
    ensures RegCode(r) < 8
  {
  }

  lemma PairBack(i: Instr)
    requires i.Mov? || i.OrByte? || i.Imul? || i.Movzx? || i.Alu?
    ensures InstrOf(FormOf(i)) == Some(i)
  {
    hide RegOf, RegCode, CondOf, AluOf, AluCode, RegInstr;
    RegRoundTrip(i.dst);
    RegRoundTrip(i.src);
    if i.Alu? { AluRoundTrip(i.op, i.dst, i.src); }
    if i.Mov? || i.OrByte? { MoveBack(i.dst, i.src); }
  }

  lemma MoveBack(m: Reg, r: Reg)
    ensures RegInstr(0x89, RegCode(r), m) == Some(Mov(m, r)) && RegInstr(0x08, RegCode(r), m) == Some(OrByte(m, r))
  {
    hide AluOf;
    RegRoundTrip(r);
  }

  lemma CondBack(i: Instr)
    requires i.Set? || i.Jcc?
    ensures InstrOf(FormOf(i)) == Some(i)
  {
    hide CondOf, CondCode;
    CondRoundTrip(i.cond);
    CondCodeFits(i.cond);
    if i.Set? { RegRoundTrip(i.dst); }
  }

  lemma CondCodeFits(c: Cond)
    ensures CondCode(c) < 16
  {
  }

  lemma InstrRoundTrip(i: Instr)
    ensures InstrOf(FormOf(i)) == Some(i)
  {
    if i.Inc? || i.Dec? || i.Push? || i.Pop? || i.Ret? || i.Cdq? {
      PlainBack(i);
    } else if i.Mov? || i.OrByte? || i.Imul? || i.Movzx? || i.Alu? {
      PairBack(i);
    } else if i.Set? || i.Jcc? {
      CondBack(i);
    } else if i.MovImm? || i.Jmp? || i.Call? {
    } else {
      hide RegOf, RegCode, CondOf, AluOf;
      RegRoundTrip(if i.StoreBp? || i.StoreSp? then i.src else i.dst);
    }
  }
}
