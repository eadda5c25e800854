/** The instruction sequences for operators compute the operators. */
module Operators {
  import opened Basics
  import opened X86
  import opened Machine
  import opened Cupid
  import opened Codegen

  // ----- operators -----

  /** Everything an operator must leave alone. */
  ghost predicate SameFrame(c: Cpu, d: Cpu)
  {
    d.esp == c.esp && d.ebp == c.ebp && d.mem == c.mem && d.limit == c.limit
  }

  ghost predicate Computes(code: seq<Instr>, c: Cpu, v: Word)
  {
    var t := ExecAll(code, Live(c));
    t.Live? && t.cpu.eax == v && SameFrame(c, t.cpu)
  }

  /** Peels one instruction off straight-line code. */
  lemma Peel(i: Instr, rest: seq<Instr>, c: Cpu) returns (t: State)
    ensures t == Exec(i, c) && ExecAll([i] + rest, Live(c)) == ExecAll(rest, t)
  {
    hide Exec;
    assert ([i] + rest)[1..] == rest;
    t := Exec(i, c);
  }

  lemma Peel1(i: Instr, c: Cpu)
    ensures ExecAll([i], Live(c)) == Exec(i, c)
  {
    var t := Peel(i, [], c);
    assert [i] + [] == [i];
  }

  lemma Peel2(i: Instr, j: Instr, c: Cpu) returns (t: State)
    ensures t == Exec(i, c) && (t.Live? ==> ExecAll([i, j], Live(c)) == Exec(j, t.cpu))
  {
    hide Exec;
    t := Peel(i, [j], c);
    assert [i] + [j] == [i, j];
    if t.Live? { Peel1(j, t.cpu); }
  }

  lemma Peel3(i: Instr, j: Instr, k: Instr, c: Cpu) returns (t: State, u: State)
    ensures t == Exec(i, c) && (t.Live? ==> u == Exec(j, t.cpu))
    ensures t.Live? && u.Live? ==> ExecAll([i, j, k], Live(c)) == Exec(k, u.cpu)
  {
    hide Exec;
    t := Peel(i, [j, k], c);
    assert [i] + [j, k] == [i, j, k];
    u := t;
    if t.Live? { u := Peel2(j, k, t.cpu); }
  }

  lemma UnRuns(op: UnOp, c: Cpu)
    ensures Computes(UnCode(op), c, UnVal(op, c.eax))
  {
    hide ExecAll;
    match op
    case Minus => Peel1(X86.Neg(Eax), c);
    case BitNot => Peel1(X86.Not(Eax), c);
    case LogNot =>
      var t := Peel(CmpImm(Eax, 0), [Set(E, Eax), Movzx(Eax, Eax)], c);
      assert [CmpImm(Eax, 0)] + [Set(E, Eax), Movzx(Eax, Eax)] == UnCode(LogNot);
      SetZero(t.cpu);
  }

  lemma ComparisonRuns(cond: X86.Cond, c: Cpu)
    ensures Computes(Comparison(cond), c, Bool(Compares(cond, Signed(c.ebx), Signed(c.eax))))
  {
    hide ExecAll, Compares, Holds;
    SubFlagsCompare(cond, c.ebx, c.eax);
    var t, u := Peel3(Alu(CMP, Ebx, Eax), Set(cond, Eax), Movzx(Eax, Eax), c);
  }

  lemma {:induction false} OrIsZero(a: nat, b: nat, n: nat)
    requires a < Pow2(n) && b < Pow2(n)
    ensures Bitwise(Or, a, b, n) == 0 <==> a == 0 && b == 0
  {
    if n > 0 { OrIsZero(a / 2, b / 2, n - 1); }
  }

  lemma {:induction false} AndWithSelf(a: nat, n: nat)
    requires a < Pow2(n)
    ensures Bitwise(And, a, a, n) == a
  {
    if n > 0 { AndWithSelf(a / 2, n - 1); }
  }

  /** `test r, r` compares r with zero. */
  lemma TestFlags(a: Word)
    ensures LogicFlags(Logic32(And, a, a)).zf <==> a == 0
  {
    Pow2At32();
    AndWithSelf(a, 32);
  }

  lemma QuotientBound(m: nat, d: nat)
    requires d > 0
    ensures 0 <= m / d <= m && (d >= 2 ==> 2 * (m / d) <= m)
  {
    var q := m / d;
    assert m == d * q + m % d;
    assert q >= 0;
    if d >= 2 { assert (d - 2) * q >= 0; } else { assert d == 1; }
  }

  lemma QuotientFits(a: int, b: int)
    requires -H <= a < H && b != 0 && !(a == -H && b == -1)
    ensures -H <= TruncDiv(a, b) < H
  {
    QuotientBound(if a >= 0 then a else -a, if b > 0 then b else -b);
  }

  lemma {:induction false} BitwiseCommutes(op: Logic, a: nat, b: nat, n: nat)
    ensures Bitwise(op, a, b, n) == Bitwise(op, b, a, n)
  {
    if n > 0 { BitwiseCommutes(op, a / 2, b / 2, n - 1); }
  }

  /** `mov ecx, eax; mov eax, ebx; cdq; idiv ecx`: quotient in eax, remainder in edx. */
  lemma Divides(c: Cpu, last: seq<Instr>) returns (d: Cpu)
    requires !Traps(Div, c.ebx, c.eax)
    ensures ExecAll([Mov(Ecx, Eax), Mov(Eax, Ebx), Cdq, Idiv(Ecx)] + last, Live(c)) == ExecAll(last, Live(d))
    ensures SameFrame(c, d)
    ensures d.eax == Wrap(TruncDiv(Signed(c.ebx), Signed(c.eax)))
    ensures d.edx == Wrap(TruncRem(Signed(c.ebx), Signed(c.eax)))
  {
    hide ExecAll, TruncDiv, TruncRem, Wrap;
    var i1, i2, i3, i4 := Mov(Ecx, Eax), Mov(Eax, Ebx), Cdq, Idiv(Ecx);
    QuotientFits(Signed(c.ebx), Signed(c.eax));
    assert [i1] + ([i2, i3, i4] + last) == [i1, i2, i3, i4] + last;
    var c1 := Peel(i1, [i2, i3, i4] + last, c);
    assert [i2] + ([i3, i4] + last) == [i2, i3, i4] + last;
    var c2 := Peel(i2, [i3, i4] + last, c1.cpu);
    assert [i3] + ([i4] + last) == [i3, i4] + last;
    var c3 := Peel(i3, [i4] + last, c2.cpu);
    Extended(c.ebx);
    var c4 := Peel(i4, last, c3.cpu);
    d := c4.cpu;
  }

  /** cdq: edx:eax holds the sign-extended eax. */
  lemma Extended(a: Word)
    ensures Signed(if a < H then 0 else W - 1) * W + a == Signed(a)
  {
  }

  lemma DivideRuns(c: Cpu, op: BinOp)
    requires (op == Div || op == Mod) && !Traps(op, c.ebx, c.eax)
    ensures Computes(BinTail(op), c, BinVal(op, c.ebx, c.eax))
  {
    hide TruncDiv, TruncRem, Wrap, Signed, ExecAll;
    var four := [Mov(Ecx, Eax), Mov(Eax, Ebx), Cdq, Idiv(Ecx)];
    var last := if op == Div then [] else [Mov(Eax, Edx)];
    assert BinTail(op) == four + last;
    var d := Divides(c, last);
    if op == Div { ExecNone(d); } else { Peel1(Mov(Eax, Edx), d); }
  }

  lemma ExecNone(c: Cpu)
    ensures ExecAll([], Live(c)) == Live(c)
  {
  }

  lemma ShiftRuns(c: Cpu, op: BinOp)
    requires op == ShL || op == ShR
    ensures Computes(BinTail(op), c, BinVal(op, c.ebx, c.eax))
  {
    hide ExecAll, Wrap, Signed;
    if op == ShL {
      var t, u := Peel3(Mov(Ecx, Eax), Mov(Eax, Ebx), Shl(Eax), c);
    } else {
      var t, u := Peel3(Mov(Ecx, Eax), Mov(Eax, Ebx), Sar(Eax), c);
    }
    CountOf(c.eax);
  }

  lemma CountOf(a: Word)
    ensures a % 256 % 32 == a % 32
  {
  }

  /** `test eax, eax; setne al; movzx eax, al`. */
  lemma NonZero(c: Cpu)
    ensures Computes([Alu(TEST, Eax, Eax), Set(NE, Eax), Movzx(Eax, Eax)], c, Bool(c.eax != 0))
  {
    hide ExecAll, Logic32;
    var _, _ := Peel3(Alu(TEST, Eax, Eax), Set(NE, Eax), Movzx(Eax, Eax), c);
    TestFlags(c.eax);
  }

  lemma LogOrRuns(c: Cpu)
    ensures Computes(BinTail(LogOr), c, BinVal(LogOr, c.ebx, c.eax))
  {
    hide ExecAll, Logic32;
    var t := Peel(Alu(OR, Eax, Ebx), [Alu(TEST, Eax, Eax), Set(NE, Eax), Movzx(Eax, Eax)], c);
    assert [Alu(OR, Eax, Ebx)] + [Alu(TEST, Eax, Eax), Set(NE, Eax), Movzx(Eax, Eax)] == BinTail(LogOr);
    NonZero(t.cpu);
    OrOfWords(c.eax, c.ebx);
  }

  lemma OrOfWords(a: Word, b: Word)
    ensures Logic32(Or, a, b) == 0 <==> a == 0 && b == 0
  {
    Pow2At32();
    OrIsZero(a, b, 32);
  }

  /** The first half of &&: each operand's low byte becomes 1 exactly when it was zero. */
  lemma LogAndHead(c: Cpu, last: seq<Instr>) returns (d: Cpu)
    ensures ExecAll([Alu(TEST, Ebx, Ebx), Set(E, Ecx), Alu(TEST, Eax, Eax), Set(E, Eax)] + last, Live(c))
         == ExecAll(last, Live(d))
    ensures d.ecx % 256 == Bool(c.ebx == 0) && d.eax % 256 == Bool(c.eax == 0) && SameFrame(c, d)
  {
    hide ExecAll, Logic32;
    var i1, i2, i3, i4 := Alu(TEST, Ebx, Ebx), Set(E, Ecx), Alu(TEST, Eax, Eax), Set(E, Eax);
    TestFlags(c.ebx);
    TestFlags(c.eax);
    assert [i1] + ([i2, i3, i4] + last) == [i1, i2, i3, i4] + last;
    var c1 := Peel(i1, [i2, i3, i4] + last, c);
    assert [i2] + ([i3, i4] + last) == [i2, i3, i4] + last;
    var c2 := Peel(i2, [i3, i4] + last, c1.cpu);
    assert [i3] + ([i4] + last) == [i3, i4] + last;
    var c3 := Peel(i3, [i4] + last, c2.cpu);
    var c4 := Peel(i4, last, c3.cpu);
    d := c4.cpu;
  }

  /** The second half of &&. */
  lemma LogAndLast(d: Cpu)
    ensures Computes([OrByte(Eax, Ecx), Set(E, Eax), Movzx(Eax, Eax)], d, Bool(d.eax % 256 == 0 && d.ecx % 256 == 0))
  {
    hide ExecAll, Bitwise;
    var t := Peel(OrByte(Eax, Ecx), [Set(E, Eax), Movzx(Eax, Eax)], d);
    assert [OrByte(Eax, Ecx)] + [Set(E, Eax), Movzx(Eax, Eax)] == [OrByte(Eax, Ecx), Set(E, Eax), Movzx(Eax, Eax)];
    OrOfBytes(d.eax % 256, d.ecx % 256);
    SetZero(t.cpu);
  }

  lemma SetZero(c: Cpu)
    requires c.flags.Flags?
    ensures Computes([Set(E, Eax), Movzx(Eax, Eax)], c, Bool(c.flags.zf))
  {
    hide ExecAll;
    var _ := Peel2(Set(E, Eax), Movzx(Eax, Eax), c);
  }

  lemma OrOfBytes(a: Byte, b: Byte)
    ensures Bitwise(Or, a, b, 8) == 0 <==> a == 0 && b == 0
  {
    Pow2At8();
    OrIsZero(a, b, 8);
  }

  lemma LogAndRuns(c: Cpu)
    ensures Computes(BinTail(LogAnd), c, BinVal(LogAnd, c.ebx, c.eax))
  {
    hide ExecAll;
    var last := [OrByte(Eax, Ecx), Set(E, Eax), Movzx(Eax, Eax)];
    assert BinTail(LogAnd) == [Alu(TEST, Ebx, Ebx), Set(E, Ecx), Alu(TEST, Eax, Eax), Set(E, Eax)] + last;
    var d := LogAndHead(c, last);
    LogAndLast(d);
  }

  lemma ArithmeticRuns(op: BinOp, c: Cpu)
    requires op == Add || op == Sub || op == Mul
    ensures Computes(BinTail(op), c, BinVal(op, c.ebx, c.eax))
  {
    hide ExecAll, Wrap;
    match op
    case Add => Peel1(Alu(ADD, Eax, Ebx), c);
    case Sub => var _ := Peel2(Alu(SUB, Ebx, Eax), Mov(Eax, Ebx), c);
    case Mul => Peel1(Imul(Eax, Ebx), c);
  }

  lemma ComparesRuns(op: BinOp, c: Cpu)
    requires op in {Eq, Ne, Lt, Gt, Le, Ge}
    ensures Computes(BinTail(op), c, BinVal(op, c.ebx, c.eax))
  {
    hide Computes, Signed;
    match op
    case Eq => ComparisonRuns(E, c); SignedSame(c.ebx, c.eax);
    case Ne => ComparisonRuns(NE, c); SignedSame(c.ebx, c.eax);
    case Lt => ComparisonRuns(L, c);
    case Gt => ComparisonRuns(G, c);
    case Le => ComparisonRuns(LE, c);
    case Ge => ComparisonRuns(GE, c);
  }

  lemma SignedSame(a: Word, b: Word)
    ensures Signed(a) == Signed(b) <==> a == b
  {
  }

  lemma BitsRuns(op: BinOp, c: Cpu)
    requires op == BitAnd || op == BitOr || op == BitXor
    ensures Computes(BinTail(op), c, BinVal(op, c.ebx, c.eax))
  {
    hide ExecAll, Bitwise;
    match op
    case BitAnd => Peel1(Alu(AND, Eax, Ebx), c); BitwiseCommutes(And, c.ebx, c.eax, 32);
    case BitOr => Peel1(Alu(OR, Eax, Ebx), c); BitwiseCommutes(Or, c.ebx, c.eax, 32);
    case BitXor => Peel1(Alu(XOR, Eax, Ebx), c); BitwiseCommutes(Xor, c.ebx, c.eax, 32);
  }

  lemma BinRuns(op: BinOp, c: Cpu)
    requires !Traps(op, c.ebx, c.eax)
    ensures Computes(BinTail(op), c, BinVal(op, c.ebx, c.eax))
  {
    hide *;
    match op
    case Add | Sub | Mul => ArithmeticRuns(op, c);
    case Div | Mod => DivideRuns(c, op);
    case Eq | Ne | Lt | Gt | Le | Ge => ComparesRuns(op, c);
    case BitAnd | BitOr | BitXor => BitsRuns(op, c);
    case ShL | ShR => ShiftRuns(c, op);
    case LogAnd => LogAndRuns(c);
    case LogOr => LogOrRuns(c);
  }
}
