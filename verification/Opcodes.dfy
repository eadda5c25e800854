/** The bytes that stand in the code buffer, as the processor's manual lists them. */
module Opcodes {
  import opened Basics
  import opened X86
  import opened Machine
  import opened Cupid
  import opened Codegen

  /** The bytes after the operands of an operator have been loaded: the left one into ebx, the right one into eax. */
  function OperatorBytes(op: BinOp): seq<Byte>
  {
    match op
    case Add => [0x01, 0xD8]
    case Sub => [0x29, 0xC3, 0x89, 0xD8]
    case Mul => [0x0F, 0xAF, 0xC3]
    case Div => [0x89, 0xC1, 0x89, 0xD8, 0x99, 0xF7, 0xF9]
    case Mod => [0x89, 0xC1, 0x89, 0xD8, 0x99, 0xF7, 0xF9, 0x89, 0xD0]
    case Eq => [0x39, 0xC3, 0x0F, 0x94, 0xC0, 0x0F, 0xB6, 0xC0]
    case Ne => [0x39, 0xC3, 0x0F, 0x95, 0xC0, 0x0F, 0xB6, 0xC0]
    case Lt => [0x39, 0xC3, 0x0F, 0x9C, 0xC0, 0x0F, 0xB6, 0xC0]
    case Gt => [0x39, 0xC3, 0x0F, 0x9F, 0xC0, 0x0F, 0xB6, 0xC0]
    case Le => [0x39, 0xC3, 0x0F, 0x9E, 0xC0, 0x0F, 0xB6, 0xC0]
    case Ge => [0x39, 0xC3, 0x0F, 0x9D, 0xC0, 0x0F, 0xB6, 0xC0]
    case BitAnd => [0x21, 0xD8]
    case BitOr => [0x09, 0xD8]
    case BitXor => [0x31, 0xD8]
    case ShL => [0x89, 0xC1, 0x89, 0xD8, 0xD3, 0xE0]
    case ShR => [0x89, 0xC1, 0x89, 0xD8, 0xD3, 0xF8]
    case LogAnd =>
      [0x85, 0xDB, 0x0F, 0x94, 0xC1, 0x85, 0xC0, 0x0F, 0x94, 0xC0, 0x08, 0xC8, 0x0F, 0x94, 0xC0, 0x0F, 0xB6, 0xC0]
    case LogOr => [0x09, 0xD8, 0x85, 0xC0, 0x0F, 0x95, 0xC0, 0x0F, 0xB6, 0xC0]
  }

  lemma AsmMore(i: Instr, rest: seq<Instr>)
    ensures Asm([i] + rest) == Enc(i) + Asm(rest)
  {
    assert ([i] + rest)[1..] == rest;
  }

  lemma AluBytes()
    ensures Enc(Alu(ADD, Eax, Ebx)) == [0x01, 0xD8] && Enc(Alu(SUB, Ebx, Eax)) == [0x29, 0xC3]
    ensures Enc(Alu(AND, Eax, Ebx)) == [0x21, 0xD8] && Enc(Alu(OR, Eax, Ebx)) == [0x09, 0xD8]
    ensures Enc(Alu(XOR, Eax, Ebx)) == [0x31, 0xD8] && Enc(Alu(CMP, Ebx, Eax)) == [0x39, 0xC3]
    ensures Enc(Alu(TEST, Ebx, Ebx)) == [0x85, 0xDB] && Enc(Alu(TEST, Eax, Eax)) == [0x85, 0xC0]
  {
  }

  lemma MovBytes()
    ensures Enc(Mov(Eax, Ebx)) == [0x89, 0xD8] && Enc(Mov(Ecx, Eax)) == [0x89, 0xC1]
    ensures Enc(Mov(Eax, Edx)) == [0x89, 0xD0] && Enc(Mov(Ebx, Eax)) == [0x89, 0xC3]
    ensures Enc(Mov(Esp, Ebp)) == [0x89, 0xEC] && Enc(Mov(Ebp, Esp)) == [0x89, 0xE5]
  {
  }

  lemma UnitBytes()
    ensures Enc(Idiv(Ecx)) == [0xF7, 0xF9] && Enc(X86.Not(Eax)) == [0xF7, 0xD0] && Enc(X86.Neg(Eax)) == [0xF7, 0xD8]
    ensures Enc(CmpImm(Eax, 0)) == [0x83, 0xF8, 0x00]
  {
  }

  lemma ShiftBytes()
    ensures Enc(Shl(Eax)) == [0xD3, 0xE0] && Enc(Sar(Eax)) == [0xD3, 0xF8] && Enc(OrByte(Eax, Ecx)) == [0x08, 0xC8]
    ensures Enc(Cdq) == [0x99]
  {
  }

  lemma StackBytes()
    ensures Enc(Push(Eax)) == [0x50] && Enc(Push(Ebp)) == [0x55] && Enc(Pop(Eax)) == [0x58] && Enc(Pop(Ebx)) == [0x5B]
  {
  }

  lemma PlainBytes()
    ensures Enc(Pop(Ebp)) == [0x5D] && Enc(Ret) == [0xC3]
  {
  }

  lemma BumpBytes()
    ensures Enc(Inc(Eax)) == [0x40] && Enc(Dec(Eax)) == [0x48]
  {
  }

  lemma SetBytes()
    ensures Enc(Set(E, Eax)) == [0x0F, 0x94, 0xC0] && Enc(Set(E, Ecx)) == [0x0F, 0x94, 0xC1]
    ensures Enc(Set(NE, Eax)) == [0x0F, 0x95, 0xC0] && Enc(Set(L, Eax)) == [0x0F, 0x9C, 0xC0]
  {
  }

  lemma MoreSetBytes()
    ensures Enc(Set(GE, Eax)) == [0x0F, 0x9D, 0xC0] && Enc(Set(LE, Eax)) == [0x0F, 0x9E, 0xC0]
    ensures Enc(Set(G, Eax)) == [0x0F, 0x9F, 0xC0]
    ensures Enc(Movzx(Eax, Eax)) == [0x0F, 0xB6, 0xC0] && Enc(Imul(Eax, Ebx)) == [0x0F, 0xAF, 0xC3]
  {
  }

  lemma Asm4(a: Instr, b: Instr, c: Instr, d: Instr)
    ensures Asm([a, b, c, d]) == Enc(a) + (Enc(b) + (Enc(c) + Enc(d)))
  {
    hide Enc;
    Asm3(b, c, d);
    AsmMore(a, [b, c, d]);
    assert [a] + [b, c, d] == [a, b, c, d];
  }

  /** Comparisons and the other operators of up to three instructions. */
  lemma ShortOperators(op: BinOp)
    requires op !in {Div, Mod, LogAnd, LogOr}
    ensures Asm(BinTail(op)) == OperatorBytes(op)
  {
    hide Enc, Asm;
    AluBytes();
    MovBytes();
    SetBytes();
    MoreSetBytes();
    ShiftBytes();
    var t := BinTail(op);
    if |t| == 1 { Asm1(t[0]); } else if |t| == 2 { Asm2(t[0], t[1]); } else { Asm3(t[0], t[1], t[2]); }
  }

  lemma LongOperators(op: BinOp)
    requires op in {Div, Mod, LogOr}
    ensures Asm(BinTail(op)) == OperatorBytes(op)
  {
    hide Enc, Asm;
    AluBytes();
    MovBytes();
    UnitBytes();
    SetBytes();
    MoreSetBytes();
    ShiftBytes();
    var t := BinTail(op);
    Asm4(t[0], t[1], t[2], t[3]);
    if op == Mod {
      assert t[..4] == [t[0], t[1], t[2], t[3]] && t[4..] == [t[4]];
      Asm1(t[4]);
      AsmParts(t, 4);
    } else {
      assert t == [t[0], t[1], t[2], t[3]];
    }
  }

  lemma AndEmits()
    ensures Asm(BinTail(LogAnd)) == OperatorBytes(LogAnd)
  {
    hide Enc, Asm;
    AluBytes();
    SetBytes();
    MoreSetBytes();
    ShiftBytes();
    var t := BinTail(LogAnd);
    assert t[..4] == [t[0], t[1], t[2], t[3]] && t[4..] == [t[4], t[5], t[6]];
    Asm3(t[4], t[5], t[6]);
    Asm4(t[0], t[1], t[2], t[3]);
    AsmParts(t, 4);
  }

  lemma {:induction false} AsmParts(t: seq<Instr>, n: nat)
    requires n <= |t|
    ensures Asm(t) == Asm(t[..n]) + Asm(t[n..])
  {
    hide Enc;
    if n > 0 {
      AsmParts(t[1..], n - 1);
      assert t[1..][..n - 1] == t[..n][1..] && t[1..][n - 1..] == t[n..];
    } else {
      assert t[..0] == [] && t[0..] == t;
    }
  }

  /** The operators, byte for byte. */
  lemma OperatorsEmit(op: BinOp)
    ensures Asm(BinTail(op)) == OperatorBytes(op)
  {
    if op == LogAnd { AndEmits(); } else if op in {Div, Mod, LogOr} { LongOperators(op); } else { ShortOperators(op); }
  }

  /** The four bytes of a number, the lowest first. */
  function Bytes(v: Word): seq<Byte> { [v % 256, v / 0x100 % 256, v / 0x1_0000 % 256, v / 0x100_0000] }

  /** Constants, jumps and calls. */
  lemma NumbersEmit(v: Word)
    ensures Enc(MovImm(v)) == [0xB8] + Bytes(v) && Enc(Jmp(v)) == [0xE9] + Bytes(v)
    ensures Enc(X86.Call(v)) == [0xE8] + Bytes(v) && Enc(Jcc(E, v)) == [0x0F, 0x84] + Bytes(v)
  {
    hide Bytes, Le32;
    BytesAre(v);
  }

  lemma BytesAre(v: Word)
    ensures Le32(v) == Bytes(v)
  {
  }

  lemma VariablesEmit(d: Word)
    ensures Enc(LoadBp(Eax, d)) == [0x8B, 0x85] + Bytes(d) && Enc(StoreBp(Eax, d)) == [0x89, 0x85] + Bytes(d)
    ensures Enc(LeaBp(Eax, d)) == [0x8D, 0x85] + Bytes(d)
  {
    hide Bytes, Le32;
    BytesAre(d);
  }

  lemma StackEmits(d: Word, b: Byte)
    ensures Enc(SubImm(Esp, d)) == [0x81, 0xEC] + Bytes(d) && Enc(AddImm(Esp, b)) == [0x83, 0xC4, b]
  {
  }

  /** Unary operators, prologue and epilogue. */
  lemma FramesEmit(frame: nat)
    ensures Asm(UnCode(Minus)) == [0xF7, 0xD8] && Asm(UnCode(BitNot)) == [0xF7, 0xD0]
    ensures Asm(UnCode(LogNot)) == [0x83, 0xF8, 0x00, 0x0F, 0x94, 0xC0, 0x0F, 0xB6, 0xC0]
    ensures Asm(Prologue(frame)) == [0x55, 0x89, 0xE5, 0x81, 0xEC] + Bytes(Wrap(frame))
    ensures Asm(Epilogue) == [0x89, 0xEC, 0x5D, 0xC3]
  {
    hide Enc, Asm, Bytes, Wrap;
    MovBytes();
    UnitBytes();
    SetBytes();
    MoreSetBytes();
    StackBytes();
    PlainBytes();
    StackEmits(Wrap(frame), 0);
    Asm1(X86.Neg(Eax));
    Asm1(X86.Not(Eax));
    Asm3(CmpImm(Eax, 0), Set(E, Eax), Movzx(Eax, Eax));
    Asm3(Push(Ebp), Mov(Ebp, Esp), SubImm(Esp, Wrap(frame)));
    Asm3(Mov(Esp, Ebp), Pop(Ebp), Ret);
  }

  /** ++ and --. */
  lemma BumpEmits(d: Word, up: bool)
    ensures Asm([LoadBp(Eax, d), if up then Inc(Eax) else Dec(Eax), StoreBp(Eax, d)])
         == [0x8B, 0x85] + Bytes(d) + [if up then 0x40 else 0x48] + [0x89, 0x85] + Bytes(d)
  {
    hide Enc, Asm, Bytes;
    VariablesEmit(d);
    BumpBytes();
    Asm3(LoadBp(Eax, d), if up then Inc(Eax) else Dec(Eax), StoreBp(Eax, d));
  }
}
