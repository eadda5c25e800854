/** The compiler as it works: fields that each parse step updates, a token of lookahead and a
    fixed code buffer. Every method does to the fields what the functions of `Parser` do to
    the state they stand for. */
module OnePass {
  import opened Basics
  import opened X86
  import opened Machine
  import opened Cupid
  import opened Codegen
  import opened Syntax
  import opened Parser
  import opened ParsePrograms

  /** A displacement that was emitted whole, or not at all because the buffer was full. */
  predicate SiteOk(size: nat, site: nat) { site + 4 <= size || site + 4 > MAX_CODE }

  ghost predicate Marked(s: PState)
  {
    && |s.code| <= MAX_CODE
    && (forall l, k :: 0 <= l < |s.loops| && 0 <= k < |s.loops[l].breaks| ==> SiteOk(|s.code|, s.loops[l].breaks[k]))
    && (forall k :: 0 <= k < |s.patches| ==> SiteOk(|s.code|, s.patches[k].site))
  }

  lemma MarkedSame(s: PState, t: PState)
    requires Marked(s) && t == s.(syms := t.syms, lo := t.lo, deepest := t.deepest, toks := t.toks, status := t.status)
    ensures Marked(t)
  {
  }

  /** Emitting one byte after others. */
  lemma EmitMore(s: PState, a: seq<Byte>, x: Byte)
    requires |s.code| <= MAX_CODE
    ensures Emit(Emit(s, a), [x]) == Emit(s, a + [x])
  {
    if |s.code| + |a| < MAX_CODE {
      assert s.code + a + [x] == s.code + (a + [x]);
    } else {
      var room := MAX_CODE - |s.code|;
      assert (a + [x])[..room] == a[..room];
      if |s.code| + |a| == MAX_CODE { assert a[..room] == a; }
      assert s.code + a[..room] + [x][..0] == s.code + a[..room];
    }
  }

  lemma EmitSize(s: PState, bytes: seq<Byte>)
    requires |s.code| <= MAX_CODE
    ensures |Emit(s, bytes).code| == Min(|s.code| + |bytes|, MAX_CODE)
  {
  }

  lemma SetSymAll(syms: seq<Sym>, x: string, kind: Kind)
    ensures SetSym(syms, x, kind) == SetSym(syms[..|syms|], x, kind) + syms[|syms|..]
  {
    hide SetSym;
    assert syms[..|syms|] == syms;
  }

  /** The search for the innermost symbol, one symbol further out. */
  lemma SetSymStep(syms: seq<Sym>, i: nat, x: string, kind: Kind)
    requires i < |syms|
    ensures SetSym(syms[..i + 1], x, kind) + syms[i + 1..]
         == if syms[i].name == x then syms[i := Sym(x, kind)] else SetSym(syms[..i], x, kind) + syms[i..]
  {
    assert syms[..i + 1][..i] == syms[..i] && [syms[i]] + syms[i + 1..] == syms[i..];
  }

  lemma SetSymNone(syms: seq<Sym>, x: string, kind: Kind)
    ensures SetSym(syms[..0], x, kind) + syms[0..] == syms
  {
  }

  predicate IsCompound(t: Token) { t == KIf || t == KWhile || t == KFor || t == LBrace }

  predicate IsLeave(t: Token) { t == KReturn || t == KBreak || t == KContinue }

  class Compiler {
    var input: seq<Token>
    var cur: Option<Token>
    var peekBuf: Option<Token>
    var hasPeek: bool
    const code: array<Byte>
    var pos: nat
    var status: Status
    var syms: seq<Sym>
    var lo: int
    var deepest: int
    var loops: seq<OpenLoop>
    var patches: seq<Patch>

    constructor (tokens: seq<Token>)
      ensures Valid() && State() == Start(tokens) && fresh(code)
    {
      input, cur, peekBuf, hasPeek := tokens, None, None, false;
      code, pos, status := new Byte[MAX_CODE], 0, Ok;
      syms, lo, deepest, loops, patches := [], 0, 0, [], [];
      new;
      assert Remaining() == tokens && code[..0] == [];
    }

    ghost predicate Buffered()
      reads this, code
    {
      code.Length == MAX_CODE && pos <= MAX_CODE && (hasPeek && peekBuf.None? ==> input == [])
    }

    /** The tokens still to come: a peeked one stands before the input. */
    ghost function Remaining(): seq<Token>
      reads this
    {
      if hasPeek && peekBuf.Some? then [peekBuf.value] + input else input
    }

    ghost function State(): PState
      requires Buffered()
      reads this, code
    {
      PState(Remaining(), code[..pos], status, syms, lo, deepest, loops, patches)
    }

    ghost predicate Valid()
      reads this, code
    {
      Buffered() && Marked(State())
    }

    /** The state holds the fields. */
    lemma Fields()
      requires Valid()
      ensures var s := State();
        && s.status == status && |s.code| == pos && s.syms == syms && s.loops == loops && s.patches == patches
        && s.lo == lo && s.deepest == deepest
    {
    }

    // ----- tokens -----

    /** Takes a token from the input; at its end there is none. */
    method Lex() returns (t: Option<Token>)
      requires Valid() && !hasPeek
      modifies this`input, this`cur
      ensures Valid() && t == cur == Parser.Peek(old(State())) && State() == Parser.Shift(old(State()))
    {
      if input == [] {
        cur := None;
      } else {
        cur, input := Some(input[0]), input[1..];
      }
      t := cur;
    }

    /** The next token is delivered once: a peeked one first. */
    method Next() returns (t: Option<Token>)
      requires Valid()
      modifies this`input, this`cur, this`hasPeek
      ensures Valid() && t == cur == Parser.Peek(old(State())) && State() == Parser.Shift(old(State()))
    {
      if hasPeek {
        hasPeek := false;
        cur := peekBuf;
        assert old(Remaining()) == [] || old(Remaining())[1..] == input;
        return cur;
      }
      t := Lex();
    }

    /** Looking ahead loses no token and repeats none. */
    method Peek() returns (t: Option<Token>)
      requires Valid()
      modifies this`input, this`peekBuf, this`hasPeek, this`cur
      ensures Valid() && t == Parser.Peek(old(State())) && State() == old(State()) && cur == old(cur) && hasPeek
    {
      if hasPeek { return peekBuf; }
      var saved := cur;
      var next := Lex();
      cur, peekBuf, hasPeek := saved, next, true;
      assert Remaining() == old(State()).toks;
      t := peekBuf;
    }

    method Fail()
      requires Valid()
      modifies this`status
      ensures Valid() && State() == Parser.Reject(old(State()))
    {
      if status.Ok? { status := Error; }
    }

    /** The input uses a construct that is not modelled. */
    method LeaveModel()
      requires Valid()
      modifies this`status
      ensures Valid() && State() == Parser.GoOutside(old(State()))
    {
      if status.Ok? { status := Outside; }
    }

    method Expect(want: Token)
      requires Valid()
      modifies this
      ensures Valid() && State() == Parser.Expect(old(State()), want) && pos == old(pos)
    {
      var t := Next();
      if t != Some(want) { Fail(); }
    }

    /** Whether the next token is `want`. */
    method IsNext(want: Token) returns (yes: bool)
      requires Valid()
      modifies this`input, this`peekBuf, this`hasPeek, this`cur
      ensures Valid() && yes == Sees(old(State()), want) && State() == old(State())
    {
      var t := Peek();
      yes := t == Some(want);
    }

    // ----- emission -----

    method Emit8(x: Byte)
      requires Valid()
      modifies this`pos, this`status, code
      ensures Valid() && State() == Parser.Emit(old(State()), [x]) && pos >= old(pos)
    {
      if pos < MAX_CODE {
        code[pos] := x;
        pos := pos + 1;
        assert code[..pos] == old(code[..pos]) + [x];
      } else {
        Fail();
        assert [x][..0] == [] && State().code + [] == State().code;
      }
    }

    method Emit(bytes: seq<Byte>)
      requires Valid()
      modifies this`pos, this`status, code
      ensures Valid() && State() == Parser.Emit(old(State()), bytes) && pos >= old(pos)
    {
      var i := 0;
      assert bytes[..0] == [] && old(State()).code + [] == old(State()).code;
      while i < |bytes|
        invariant 0 <= i <= |bytes| && Valid() && State() == Parser.Emit(old(State()), bytes[..i]) && pos >= old(pos)
      {
        EmitMore(old(State()), bytes[..i], bytes[i]);
        assert bytes[..i + 1] == bytes[..i] + [bytes[i]];
        Emit8(bytes[i]);
        i := i + 1;
      }
      assert bytes[..|bytes|] == bytes;
    }

    /** Emits code that ends in a displacement to be patched; returns where it is. */
    method EmitHole(bytes: seq<Byte>) returns (site: nat)
      requires Valid() && |bytes| >= 4
      modifies this`pos, this`status, code
      ensures Valid() && State() == Parser.Emit(old(State()), bytes) && pos >= old(pos)
      ensures site == old(pos) + |bytes| - 4 && SiteOk(pos, site)
    {
      EmitSize(State(), bytes);
      site := pos + |bytes| - 4;
      Emit(bytes);
    }

    method Patch32(site: nat, v: int)
      requires Valid() && SiteOk(pos, site)
      modifies code
      ensures Valid() && State() == old(State()).(code := Patched(old(State()).code, site, v))
    {
      if site + 4 <= MAX_CODE {
        var bytes := Le32(Wrap(v));
        code[site], code[site + 1], code[site + 2], code[site + 3] := bytes[0], bytes[1], bytes[2], bytes[3];
        assert code[..pos] == Patched(old(code[..pos]), site, v);
      }
      assert forall s: nat :: SiteOk(pos, s) == SiteOk(old(pos), s);
    }

    method PatchJump(site: nat)
      requires Valid() && SiteOk(pos, site)
      modifies code
      ensures Valid() && State() == Parser.PatchJump(old(State()), site)
    {
      Patch32(site, pos - (site + 4));
    }

    // ----- symbols -----

    /** The innermost symbol called `x`. */
    method Find(x: string) returns (k: Option<Kind>)
      ensures k == FindSym(syms, x)
    {
      var i := |syms|;
      assert syms[..i] == syms;
      while i > 0
        invariant 0 <= i <= |syms| && FindSym(syms, x) == FindSym(syms[..i], x)
      {
        i := i - 1;
        assert syms[..i + 1][..i] == syms[..i];
        if syms[i].name == x { return Some(syms[i].kind); }
      }
      k := None;
    }

    method Add(x: string, kind: Kind)
      requires Valid()
      modifies this`syms, this`status
      ensures Valid() && State() == AddSym(old(State()), x, kind)
    {
      if |syms| >= MAX_SYMBOLS {
        Fail();
      } else {
        syms := syms + [Sym(x, kind)];
      }
    }

    method Record(site: nat, x: string)
      requires Valid() && SiteOk(pos, site)
      modifies this`patches
      ensures Valid() && State() == AddPatch(old(State()), site, x)
    {
      if |patches| < MAX_PATCHES { patches := patches + [Patch(site, x)]; }
    }

    // ----- expressions -----

    method EmitCall(f: string)
      requires Valid()
      modifies this, code
      ensures Valid() && State() == Parser.EmitCall(old(State()), f) && pos >= old(pos)
    {
      hide Enc, FindSym, Rel, Parser.Emit, AddPatch, AddSym, Marked;
      var kind := Find(f);
      var site := pos + 1;
      if kind.Some? && kind.value.Variable? {
        Fail();
        return;
      }
      if kind.Some? && kind.value.entry.Some? {
        Emit(Enc(X86.Call(Rel(pos + 5, kind.value.entry.value))));
        return;
      }
      if kind.None? { Add(f, Function(None)); }
      EmitSize(State(), Enc(X86.Call(0)));
      Emit(Enc(X86.Call(0)));
      Record(site, f);
    }

    /** An identifier that has just been read: a call or a variable. */
    method ParseIdent(x: string)
      requires Valid()
      modifies this, code
      ensures Valid() && State() == Parser.ParseIdent(old(State()), x) && pos >= old(pos)
      decreases |State().toks|, 4
    {
      hide Enc, FindSym, Asm, Codegen.Reverse, PopArgs, Parser.ParseArgs, Parser.Emit, Parser.EmitCall, Marked;
      var open := IsNext(LParen);
      if open {
        var _ := Next();
        var close := IsNext(RParen);
        var n := 0;
        if !close { n := ParseArgs(0); }
        Expect(RParen);
        Emit(Asm(Codegen.Reverse(n, 0)));
        EmitCall(x);
        Emit(Asm(PopArgs(n)));
        return;
      }
      var kind := Find(x);
      if kind.None? {
        Fail();
      } else if kind.value.Function? {
        LeaveModel();
      } else if kind.value.scalar {
        Emit(Enc(LoadBp(Eax, Wrap(kind.value.off))));
      } else {
        Emit(Enc(LeaBp(Eax, Wrap(kind.value.off))));
      }
    }

    /** The arguments of a call, each pushed as soon as it is evaluated; `m` were pushed before. */
    method ParseArgs(m: nat) returns (n: nat)
      requires Valid()
      modifies this, code
      ensures Valid() && (State(), n) == Parser.ParseArgs(old(State()), m) && pos >= old(pos)
      decreases |State().toks|, 3
    {
      hide Enc, Parser.ParseExpr, Parser.Emit, Marked;
      n := m;
      while true
        invariant Valid() && Parser.ParseArgs(State(), n) == Parser.ParseArgs(old(State()), m) && pos >= old(pos)
        invariant |State().toks| <= |old(State()).toks|
        decreases |State().toks|
      {
        ParseExpr(1);
        Emit(Enc(Push(Eax)));
        n := n + 1;
        var more := IsNext(Comma);
        if !more { return; }
        var _ := Next();
      }
    }

    method ParsePrimary()
      requires Valid()
      modifies this, code
      ensures Valid() && State() == Parser.ParsePrimary(old(State())) && pos >= old(pos)
      decreases |State().toks|, 0
    {
      hide Enc, FindSym, Asm, UnCode, Parser.ParseExpr, Parser.ParseIdent, Parser.ParsePrefix, Parser.Emit,
           Parser.Expect, Parser.Postfix, Valid, State;
      Fields();
      if !status.Ok? { return; }
      var t := Next();
      if t.None? {
        Fail();
      } else if t.value.TNum? {
        Emit(Enc(MovImm(t.value.v)));
        Postfix(None);
      } else if t.value.TIdent? {
        ParseName(t.value.s);
      } else if t.value == LParen {
        ParseGroup();
      } else if t.value == TBang {
        ParseUnary(LogNot);
      } else if t.value == TTilde {
        ParseUnary(BitNot);
      } else if t.value == TBin(Sub) {
        ParseUnary(Minus);
      } else if t.value.TInc? {
        ParsePrefix(t.value.up);
      } else if t.value == Other || t.value == TBin(Mul) || t.value == TBin(BitAnd) {
        LeaveModel();
      } else {
        Fail();
      }
    }

    method ParseName(x: string)
      requires Valid()
      modifies this, code
      ensures Valid() && pos >= old(pos)
      ensures var s := old(State());
        State() == Parser.Postfix(Parser.ParseIdent(s, x), if Sees(s, LParen) then None else FindSym(s.syms, x))
      decreases |State().toks|, 5
    {
      hide FindSym, Parser.ParseIdent, Parser.Postfix, Valid, State;
      Fields();
      var kind := Find(x);
      var call := IsNext(LParen);
      ParseIdent(x);
      Postfix(if call then None else kind);
    }

    /** A parenthesised expression. */
    method ParseGroup()
      requires Valid()
      modifies this, code
      ensures Valid() && pos >= old(pos)
      ensures var s := old(State());
        State() == if Sees(s, KInt) then GoOutside(s)
                   else Parser.Postfix(Parser.Expect(Parser.ParseExpr(s, 1), RParen), None)
      decreases |State().toks|, 5
    {
      hide Parser.ParseExpr, Parser.Expect, Parser.Postfix, Valid, State;
      var cast := IsNext(KInt);
      if cast { LeaveModel(); return; }
      ParseExpr(1);
      Expect(RParen);
      Postfix(None);
    }

    /** The operand of a unary operator and the operation. */
    method ParseUnary(op: UnOp)
      requires Valid()
      modifies this, code
      ensures Valid() && pos >= old(pos)
      ensures State() == Parser.Postfix(Parser.Emit(Parser.ParsePrimary(old(State())), Asm(UnCode(op))), None)
      decreases |State().toks|, 1
    {
      hide Asm, UnCode, Parser.ParsePrimary, Parser.Emit, Parser.Postfix, Marked;
      ParsePrimary();
      Emit(Asm(UnCode(op)));
      Postfix(None);
    }

    /** ++ or -- before a name. */
    method ParsePrefix(up: bool)
      requires Valid()
      modifies this, code
      ensures Valid() && State() == Parser.ParsePrefix(old(State()), up) && pos >= old(pos)
    {
      hide FindSym, Asm, BumpAt, Parser.Emit, Parser.Postfix, Marked;
      var name := Next();
      if name.None? || !name.value.TIdent? { Fail(); return; }
      var kind := Find(name.value.s);
      if kind.None? { Fail(); return; }
      if kind.value.Variable? { Emit(Asm(BumpAt(kind.value.off, up))); }
      Postfix(None);
    }

    /** ++ or -- after a primary. */
    method Postfix(lvalue: Option<Kind>)
      requires Valid()
      modifies this, code
      ensures Valid() && State() == Parser.Postfix(old(State()), lvalue) && pos >= old(pos)
    {
      hide Enc, Asm, BumpAt, Parser.Emit, Marked;
      if !status.Ok? { return; }
      var t := Peek();
      if t.Some? && t.value.TInc? {
        var _ := Next();
        if lvalue.Some? && lvalue.value.Variable? && lvalue.value.scalar {
          Emit(Enc(Push(Eax)) + (Asm(BumpAt(lvalue.value.off, t.value.up)) + Enc(Pop(Eax))));
        }
      } else if t == Some(LBrack) || t == Some(Other) {
        LeaveModel();
      }
    }

    method ParseExpr(min: nat)
      requires Valid()
      modifies this, code
      ensures Valid() && State() == Parser.ParseExpr(old(State()), min) && pos >= old(pos)
      decreases |State().toks|, 2
    {
      hide Parser.ParsePrimary, Parser.ParseOperators, Parser.ParseTernary, Marked;
      if !status.Ok? { return; }
      var some := Peek();
      ParsePrimary();
      ParseOperators(min);
      ParseTernary(min);
    }

    /** Binary operators of at least precedence `min`, left to right. */
    method ParseOperators(min: nat)
      requires Valid()
      modifies this, code
      ensures Valid() && State() == Parser.ParseOperators(old(State()), min) && pos >= old(pos)
      decreases |State().toks|, 1
    {
      hide Enc, Asm, BinTail, Parser.ParseExpr, Parser.Emit, Marked, Prec;
      while status.Ok?
        invariant Valid() && Parser.ParseOperators(State(), min) == Parser.ParseOperators(old(State()), min)
        invariant pos >= old(pos)
        invariant |State().toks| <= |old(State()).toks|
        decreases |State().toks|
      {
        var t := Peek();
        if t.None? || !t.value.TBin? || Prec(t.value.op) < min { return; }
        var _ := Next();
        Emit(Enc(Push(Eax)));
        ParseExpr(Prec(t.value.op) + 1);
        Emit(Enc(Pop(Ebx)) + Asm(BinTail(t.value.op)));
      }
    }

    method ParseTernary(min: nat)
      requires Valid()
      modifies this, code
      ensures Valid() && State() == Parser.ParseTernary(old(State()), min) && pos >= old(pos)
      decreases |State().toks|, 1
    {
      hide Enc, Parser.ParseExpr, Parser.Emit, Parser.PatchJump, Valid, State;
      Fields();
      var asks := IsNext(Question);
      if !status.Ok? || min > 1 || !asks { return; }
      var jmp := ParseThen();
      var colon := Next();
      if colon != Some(Colon) { Fail(); return; }
      ParseExpr(1);
      PatchJump(jmp);
    }

    /** `? e` of a conditional, and the jump over its other branch, which the failed test leads to. */
    method ParseThen() returns (jmp: nat)
      requires Valid() && Sees(State(), Question)
      modifies this, code
      ensures Valid() && pos >= old(pos) && SiteOk(pos, jmp)
      ensures var s := old(State());
        var s2 := Parser.ParseExpr(Parser.Emit(Shift(s), Enc(Alu(TEST, Eax, Eax)) + Enc(Jcc(E, 0))), 1);
        State() == Parser.PatchJump(Parser.Emit(s2, Enc(Jmp(0))), |s.code| + 4) && jmp == |s2.code| + 1
      ensures |State().toks| < |old(State()).toks|
      decreases |State().toks|, 0
    {
      hide Enc, Parser.ParseExpr, Parser.Emit, Parser.PatchJump, Valid, State;
      var _ := Next();
      Fields();
      var jz := EmitHole(Enc(Alu(TEST, Eax, Eax)) + Enc(Jcc(E, 0)));
      ParseExpr(1);
      Fields();
      jmp := EmitHole(Enc(Jmp(0)));
      PatchJump(jz);
    }

    // ----- declarations and assignments -----

    /** `int`; pointers and other types are not modelled. */
    method ParseType()
      requires Valid()
      modifies this
      ensures Valid() && State() == Parser.ParseType(old(State())) && pos == old(pos)
    {
      hide Marked;
      var t := Next();
      if t == Some(KInt) {
        var next := Peek();
        if next == Some(TBin(Mul)) || next == Some(Other) { LeaveModel(); }
      } else if t == Some(Other) {
        LeaveModel();
      } else {
        Fail();
      }
    }

    /** Takes `n` bytes below the current local offset. */
    method Reserve(n: nat)
      requires Valid()
      modifies this`lo, this`deepest
      ensures Valid() && State() == Alloc(old(State()), n)
    {
      lo := lo - n;
      if lo < deepest { deepest := lo; }
    }

    method ParseDecl()
      requires Valid()
      modifies this, code
      ensures Valid() && State() == Parser.ParseDecl(old(State())) && pos >= old(pos)
    {
      hide Enc, Parser.ParseExpr, Parser.Emit, Parser.Expect, AddSym, Alloc, Parser.ParseArrayDecl, Valid, State;
      var t := Next();
      if t.None? || !t.value.TIdent? { Fail(); return; }
      var x := t.value.s;
      var brack := IsNext(LBrack);
      if brack {
        var _ := Next();
        ParseArrayDecl(x);
        return;
      }
      Fields();
      var off := lo - 4;
      Reserve(4);
      Add(x, Variable(off, true));
      ParseInit(Enc(StoreBp(Eax, Wrap(off))));
      Expect(Semi);
    }

    /** The initial value of a variable, zero if there is none. */
    method ParseInit(store: seq<Byte>)
      requires Valid()
      modifies this, code
      ensures Valid() && pos >= old(pos)
      ensures var s := old(State());
        State() == if Sees(s, TAsg(None)) then Parser.Emit(Parser.ParseExpr(Shift(s), 1), store)
                   else Parser.Emit(s, Enc(MovImm(0)) + store)
    {
      hide Enc, Parser.ParseExpr, Parser.Emit, Valid, State;
      var init := IsNext(TAsg(None));
      if init {
        var _ := Next();
        ParseExpr(1);
        Emit(store);
      } else {
        Emit(Enc(MovImm(0)) + store);
      }
    }

    method ParseArrayDecl(x: string)
      requires Valid()
      modifies this
      ensures Valid() && State() == Parser.ParseArrayDecl(old(State()), x) && pos == old(pos)
    {
      hide Parser.Expect, AddSym, Alloc, Align4, Valid, State;
      var t := Next();
      if t.None? || !t.value.TNum? { Fail(); return; }
      Expect(RBrack);
      var more := IsNext(LBrack);
      if more || t.value.v >= MAX_ARRAY { LeaveModel(); return; }
      var n := Align4(4 * t.value.v);
      Fields();
      var off := lo - n;
      Reserve(n);
      Add(x, Variable(off, false));
      Expect(Semi);
    }

    /** `= e` or `op= e` after the name; the semicolon is left. */
    method ParseAssign(x: string, op: Option<BinOp>)
      requires Valid()
      modifies this, code
      ensures Valid() && State() == Parser.ParseAssign(old(State()), x, op) && pos >= old(pos)
    {
      hide Enc, Parser.ParseExpr, Parser.Emit, FindSym, UpdateAt, Valid, State;
      Fields();
      var kind := Find(x);
      if kind.None? { Fail(); return; }
      var _ := Next();
      ParseExpr(1);
      if kind.value.Function? { LeaveModel(); return; }
      var off := kind.value.off;
      Emit((if op.None? then [] else UpdateAt(off, op.value)) + Enc(StoreBp(Eax, Wrap(off))));
    }

    /** ++ or -- as a statement; an unknown name is passed over silently. */
    method EmitBump(x: string, up: bool)
      requires Valid()
      modifies this, code
      ensures Valid() && State() == Parser.EmitBump(old(State()), x, up) && pos >= old(pos)
    {
      hide Asm, BumpAt, Parser.Emit, FindSym, Valid, State;
      Fields();
      var kind := Find(x);
      if kind.Some? && kind.value.Variable? { Emit(Asm(BumpAt(kind.value.off, up))); }
    }

    // ----- loops -----

    /** Beyond the nesting limit a loop is not recorded. */
    method OpenLoopHere(cont: nat)
      requires Valid()
      modifies this`loops
      ensures Valid() && State() == OpenLoopAt(old(State()), cont)
    {
      if |loops| < MAX_LOOPS { loops := loops + [OpenLoop(cont, [])]; }
    }

    /** Lets the breaks of the loop opened at depth `d` lead here. */
    method CloseLoop(d: nat)
      requires Valid()
      modifies this`loops, code
      ensures Valid() && State() == Parser.CloseLoop(old(State()), d)
    {
      if d >= |loops| { return; }
      var sites := loops[d].breaks;
      assert sites[0..] == sites;
      var i := 0;
      while i < |sites|
        invariant 0 <= i <= |sites| && Valid() && loops == old(loops)
        invariant PatchJumps(State(), sites[i..]) == PatchJumps(old(State()), sites)
      {
        assert sites[i..][1..] == sites[i + 1..];
        PatchJump(sites[i]);
        i := i + 1;
      }
      loops := loops[..d];
    }

    method ParseBreak()
      requires Valid()
      modifies this, code
      ensures Valid() && State() == Parser.ParseBreak(old(State())) && pos >= old(pos)
    {
      hide Enc, Parser.Emit, Parser.Expect;
      var d := |loops|;
      if d == 0 {
        Fail();
      } else {
        ghost var s := State();
        var site := EmitHole(Enc(Jmp(0)));
        var open := loops[d - 1];
        if |open.breaks| < MAX_BREAKS {
          loops := loops[d - 1 := open.(breaks := open.breaks + [site])];
        } else {
          Fail();
        }
      }
      Expect(Semi);
    }

    method ParseContinue()
      requires Valid()
      modifies this, code
      ensures Valid() && State() == Parser.ParseContinue(old(State())) && pos >= old(pos)
    {
      hide Enc, Parser.Emit, Parser.Expect, Rel, Valid, State;
      Fields();
      var d := |loops|;
      if d == 0 { Fail(); } else { Emit(Enc(Jmp(Rel(pos + 5, loops[d - 1].cont)))); }
      Expect(Semi);
    }

    // ----- statements -----

    /** A parenthesised condition and the test of its value; returns the displacement to patch. */
    method ParseCondition() returns (site: nat)
      requires Valid()
      modifies this, code
      ensures Valid() && (State(), site) == Parser.ParseCondition(old(State())) && pos >= old(pos) && SiteOk(pos, site)
    {
      hide Enc, Parser.ParseExpr, Parser.Emit, Parser.Expect, Valid, State;
      Expect(LParen);
      ParseExpr(1);
      Expect(RParen);
      Fields();
      site := EmitHole(Enc(CmpImm(Eax, 0)) + Enc(Jcc(E, 0)));
    }

    method ParseReturn()
      requires Valid()
      modifies this, code
      ensures Valid() && State() == Parser.ParseReturn(old(State())) && pos >= old(pos)
    {
      hide Asm, Parser.ParseExpr, Parser.Emit, Parser.Expect, Valid, State;
      var empty := IsNext(Semi);
      if !empty { ParseExpr(1); }
      Expect(Semi);
      Emit(Asm(Epilogue));
    }

    method ParseStmt()
      requires Valid()
      modifies this, code
      ensures Valid() && State() == Parser.ParseStmt(old(State())) && pos >= old(pos)
      decreases |State().toks|, 5
    {
      hide Parser.ParseExpr, Parser.ParseDecl, Parser.ParseIf, Parser.ParseWhile, Parser.ParseFor, Parser.ParseBlock,
           Parser.ParseReturn,
           Parser.ParseBreak, Parser.ParseContinue, Parser.ParseType, Parser.Expect, Parser.ParseIdentStmt, Valid,
           State;
      Fields();
      if !status.Ok? { return; }
      var t := Peek();
      if t.Some? && (IsCompound(t.value) || IsLeave(t.value)) {
        ParseKeyword(t.value);
        return;
      }
      if t == Some(KInt) {
        ParseLocal();
      } else if t == Some(Semi) {
        var _ := Next();
      } else if t.Some? && t.value.TIdent? {
        var _ := Next();
        ParseIdentStmt(t.value.s);
      } else if t == Some(TBin(Mul)) || t == Some(Other) {
        var _ := Next();
        LeaveModel();
      } else {
        ParseExpr(1);
        Expect(Semi);
      }
    }

    /** A statement that starts with the keyword or brace `t`. */
    method ParseKeyword(t: Token)
      requires Valid() && status.Ok? && Sees(State(), t) && (IsCompound(t) || IsLeave(t))
      modifies this, code
      ensures Valid() && State() == Parser.ParseStmt(old(State())) && pos >= old(pos)
      decreases |State().toks|, 4, 1
    {
      hide Parser.ParseExpr, Parser.ParseDecl, Parser.ParseIf, Parser.ParseWhile, Parser.ParseFor, Parser.ParseBlock,
           Parser.ParseReturn,
           Parser.ParseBreak, Parser.ParseContinue, Parser.ParseType, Parser.Expect, Parser.ParseIdentStmt, Valid,
           State;
      Fields();
      if IsCompound(t) { ParseCompound(t); } else { ParseLeave(t); }
    }

    /** A statement with statements inside, which starts with `t`. */
    method ParseCompound(t: Token)
      requires Valid() && Sees(State(), t) && IsCompound(t)
      modifies this, code
      ensures Valid() && pos >= old(pos)
      ensures var s := Shift(old(State()));
        State() == if t == KIf then Parser.ParseIf(s) else if t == KWhile then Parser.ParseWhile(s)
                   else if t == KFor then Parser.ParseFor(s) else Parser.ParseBlock(s)
      decreases |State().toks|, 4, 0
    {
      hide Parser.ParseIf, Parser.ParseWhile, Parser.ParseFor, Parser.ParseBlock, Valid, State;
      var _ := Next();
      if t == KIf {
        ParseIf();
      } else if t == KWhile {
        ParseWhile();
      } else if t == KFor {
        ParseFor();
      } else {
        ParseBlock();
      }
    }

    /** A statement that leaves the current place, which starts with `t`. */
    method ParseLeave(t: Token)
      requires Valid() && Sees(State(), t) && IsLeave(t)
      modifies this, code
      ensures Valid() && pos >= old(pos)
      ensures var s := Shift(old(State()));
        State() == if t == KReturn then Parser.ParseReturn(s)
                   else if t == KBreak then Parser.ParseBreak(s) else Parser.ParseContinue(s)
    {
      hide Parser.ParseReturn, Parser.ParseBreak, Parser.ParseContinue, Valid, State;
      var _ := Next();
      if t == KReturn {
        ParseReturn();
      } else if t == KBreak {
        ParseBreak();
      } else {
        ParseContinue();
      }
    }

    /** A declaration inside a function. */
    method ParseLocal()
      requires Valid()
      modifies this, code
      ensures Valid() && pos >= old(pos)
      ensures var s := Parser.ParseType(old(State()));
        State() == if Sees(s, LParen) then GoOutside(s) else Parser.ParseDecl(s)
    {
      hide Parser.ParseDecl, Parser.ParseType, Valid, State;
      ParseType();
      var pointer := IsNext(LParen);
      if pointer { LeaveModel(); } else { ParseDecl(); }
    }

    /** A statement that starts with the name `x`. */
    method ParseIdentStmt(x: string)
      requires Valid()
      modifies this, code
      ensures Valid() && State() == Parser.ParseIdentStmt(old(State()), x) && pos >= old(pos)
    {
      hide Parser.ParseAssign, Parser.EmitBump, Parser.ParseIdent, Parser.Expect, Valid, State;
      var t := Peek();
      if t.Some? && t.value.TAsg? {
        ParseAssign(x, t.value.aop);
        Expect(Semi);
      } else if t.Some? && t.value.TInc? {
        var _ := Next();
        EmitBump(x, t.value.up);
        Expect(Semi);
      } else if t == Some(LBrack) || t == Some(Other) {
        LeaveModel();
      } else {
        ParseIdent(x);
        Expect(Semi);
      }
    }

    method ParseIf()
      requires Valid()
      modifies this, code
      ensures Valid() && State() == Parser.ParseIf(old(State())) && pos >= old(pos)
      decreases |State().toks|, 6
    {
      hide Enc, Parser.ParseCondition, Parser.ParseStmt, Parser.Emit, Parser.PatchJump, Valid, State;
      var site := ParseCondition();
      ParseStmt();
      var other := IsNext(KElse);
      if other {
        ParseElse(site);
      } else {
        PatchJump(site);
      }
    }

    /** The else branch; the failed condition at `site` leads to it. */
    method ParseElse(site: nat)
      requires Valid() && SiteOk(pos, site) && Sees(State(), KElse)
      modifies this, code
      ensures Valid() && pos >= old(pos)
      ensures var s := old(State());
        State()
          == Parser.PatchJump(Parser.ParseStmt(Parser.PatchJump(Parser.Emit(Shift(s), Enc(Jmp(0))), site)),
                              |s.code| + 1)
      decreases |State().toks|, 4
    {
      hide Enc, Parser.ParseStmt, Parser.Emit, Parser.PatchJump, Valid, State;
      Fields();
      var _ := Next();
      var over := EmitHole(Enc(Jmp(0)));
      PatchJump(site);
      ParseStmt();
      PatchJump(over);
    }

    method ParseWhile()
      requires Valid()
      modifies this, code
      ensures Valid() && State() == Parser.ParseWhile(old(State())) && pos >= old(pos)
      decreases |State().toks|, 6
    {
      hide Enc, Parser.ParseCondition, Parser.ParseStmt, Parser.Emit, Parser.PatchJump, Parser.CloseLoop, OpenLoopAt,
           Rel, Valid, State;
      Fields();
      var start, depth := pos, |loops|;
      OpenLoopHere(start);
      var site := ParseCondition();
      ParseStmt();
      Fields();
      Emit(Enc(Jmp(Rel(pos + 5, start))));
      PatchJump(site);
      CloseLoop(depth);
    }

    /** The header of a for loop up to its first semicolon. */
    method ParseStart()
      requires Valid()
      modifies this, code
      ensures Valid() && State() == Parser.ParseStart(old(State())) && pos >= old(pos)
    {
      hide Parser.ParseDecl, Parser.ParseType, Parser.ParseAssign, Parser.Expect, Valid, State;
      var t := Peek();
      if t == Some(Semi) {
        var _ := Next();
      } else if t == Some(KInt) {
        ParseType();
        ParseDecl();
      } else if t.Some? && t.value.TIdent? {
        var _ := Next();
        var op := Peek();
        if op.Some? && op.value.TAsg? {
          ParseAssign(t.value.s, op.value.aop);
          Expect(Semi);
        } else {
          LeaveModel();
        }
      } else {
        LeaveModel();
      }
    }

    /** The step of a for loop. */
    method ParseStep()
      requires Valid()
      modifies this, code
      ensures Valid() && State() == Parser.ParseStep(old(State())) && pos >= old(pos)
    {
      hide Parser.ParseAssign, Parser.EmitBump, Valid, State;
      var t := Peek();
      if t == Some(RParen) { return; }
      if t.None? || !t.value.TIdent? { LeaveModel(); return; }
      var _ := Next();
      var op := Peek();
      if op.Some? && op.value.TAsg? {
        ParseAssign(t.value.s, op.value.aop);
      } else if op.Some? && op.value.TInc? {
        var _ := Next();
        EmitBump(t.value.s, op.value.up);
      } else {
        LeaveModel();
      }
    }

    /** The condition of a for loop, if there is one, its test and the semicolon. */
    method ParseHead() returns (site: Option<nat>)
      requires Valid()
      modifies this, code
      ensures Valid() && (State(), site) == Parser.ParseHead(old(State())) && pos >= old(pos)
      ensures (site.Some? ==> SiteOk(pos, site.value))
    {
      hide Enc, Parser.ParseExpr, Parser.Emit, Parser.Expect, Valid, State;
      var empty := IsNext(Semi);
      if empty {
        var _ := Next();
        return None;
      }
      ParseExpr(1);
      Fields();
      var at := EmitHole(Enc(CmpImm(Eax, 0)) + Enc(Jcc(E, 0)));
      Expect(Semi);
      site := Some(at);
    }

    method ParseSteps(test: nat, over: nat)
      requires Valid() && SiteOk(pos, over + 1)
      modifies this, code
      ensures Valid() && State() == Parser.ParseSteps(old(State()), test, over) && pos >= old(pos)
    {
      hide Enc, Parser.ParseStep, Parser.Emit, Parser.Expect, Parser.PatchJump, Rel, Valid, State;
      ParseStep();
      Expect(RParen);
      Fields();
      Emit(Enc(Jmp(Rel(pos + 5, test))));
      PatchJump(over + 1);
    }

    /** Start, condition and step of a for loop. */
    method ParseHeader() returns (site: Option<nat>, inc: nat)
      requires Valid()
      modifies this, code
      ensures Valid() && (State(), site, inc) == Parser.ParseHeader(old(State())) && pos >= old(pos)
      ensures (site.Some? ==> SiteOk(pos, site.value))
    {
      hide Enc, Parser.ParseStart, Parser.ParseHead, Parser.ParseSteps, Parser.Emit, Parser.Expect, OpenLoopAt,
           Valid, State;
      Expect(LParen);
      ParseStart();
      Fields();
      var test := pos;
      site := ParseHead();
      Fields();
      var over := pos;
      var _ := EmitHole(Enc(Jmp(0)));
      Fields();
      inc := pos;
      OpenLoopHere(inc);
      ParseSteps(test, over);
    }

    method ParseFor()
      requires Valid()
      modifies this, code
      ensures Valid() && State() == Parser.ParseFor(old(State())) && pos >= old(pos)
      decreases |State().toks|, 6
    {
      hide Enc, Parser.ParseHeader, Parser.ParseStmt, Parser.Emit, Parser.PatchJump, Parser.CloseLoop, Rel, Valid,
           State;
      Fields();
      var depth := |loops|;
      var site, inc := ParseHeader();
      ParseStmt();
      Fields();
      Emit(Enc(Jmp(Rel(pos + 5, inc))));
      if site.Some? { PatchJump(site.value); }
      CloseLoop(depth);
    }

    /** Statements up to a closing brace or the end of the input. */
    method ParseStmts()
      requires Valid()
      modifies this, code
      ensures Valid() && State() == Parser.ParseStmts(old(State())) && pos >= old(pos)
      decreases |State().toks|, 6
    {
      hide Parser.ParseStmt, Marked;
      while status.Ok?
        invariant Valid() && Parser.ParseStmts(State()) == Parser.ParseStmts(old(State())) && pos >= old(pos)
        invariant |State().toks| <= |old(State()).toks|
        decreases |State().toks|
      {
        var t := Peek();
        if t.None? || t == Some(RBrace) { return; }
        ParseStmt();
      }
    }

    /** A block closes its scope. */
    method ParseBlock()
      requires Valid()
      modifies this, code
      ensures Valid() && State() == Parser.ParseBlock(old(State())) && pos >= old(pos)
      decreases |State().toks|, 7
    {
      hide Parser.ParseStmts, Parser.Expect, Marked;
      var count, saved := |syms|, lo;
      ParseStmts();
      Expect(RBrace);
      ghost var s := State();
      if count <= |syms| { syms := syms[..count]; }
      lo := saved;
      MarkedSame(s, State());
    }

    // ----- functions and programs -----

    /** Changes the innermost symbol called `x`. */
    method Rebind(x: string, kind: Kind)
      requires Valid()
      modifies this`syms
      ensures Valid() && State() == old(State()).(syms := SetSym(old(syms), x, kind))
    {
      hide SetSym, Marked;
      ghost var was := State();
      var i := |syms|;
      SetSymAll(syms, x, kind);
      while i > 0
        invariant 0 <= i <= |syms| && syms == was.syms && State() == was
        invariant SetSym(syms, x, kind) == SetSym(syms[..i], x, kind) + syms[i..]
      {
        i := i - 1;
        SetSymStep(syms, i, x, kind);
        if syms[i].name == x {
          syms := syms[i := Sym(x, kind)];
          MarkedSame(was, State());
          return;
        }
      }
      SetSymNone(syms, x, kind);
      MarkedSame(was, State());
    }

    /** Parameters from offset `from` on, up to the closing parenthesis; false if a name is missing. */
    method ParseParams(from: int) returns (named: bool)
      requires Valid()
      modifies this
      ensures Valid() && (State(), named) == Parser.ParseParams(old(State()), from) && pos == old(pos)
    {
      hide Parser.ParseType, AddSym, Marked;
      var off := from;
      while true
        invariant Valid() && Parser.ParseParams(State(), off) == Parser.ParseParams(old(State()), from)
        invariant pos == old(pos)
        decreases |State().toks|
      {
        ParseType();
        var t := Next();
        if t.None? || !t.value.TIdent? {
          Fail();
          return false;
        }
        Add(t.value.s, Variable(off, true));
        var more := IsNext(Comma);
        if !more { return true; }
        var _ := Next();
        off := off + 4;
      }
    }

    /** The parenthesised parameters; locals start over. */
    method ParseSignature() returns (named: bool)
      requires Valid()
      modifies this
      ensures Valid() && (State(), named) == Parser.ParseSignature(old(State())) && pos == old(pos)
    {
      hide Parser.ParseParams, Parser.Expect, Marked;
      Expect(LParen);
      ghost var s := State();
      lo, deepest := 0, 0;
      MarkedSame(s, State());
      var empty := IsNext(RParen);
      named := true;
      if !empty { named := ParseParams(8); }
      if named { Expect(RParen); }
    }

    /** The body between prologue and epilogue; the frame size is patched once it is known. */
    method ParseBody()
      requires Valid()
      modifies this, code
      ensures Valid() && State() == Parser.ParseBody(old(State())) && pos >= old(pos)
    {
      hide Enc, Asm, FrameSize, Parser.Emit, Parser.Expect, Parser.ParseStmts, Patched, Valid, State;
      Fields();
      PrologueSize();
      var site := EmitHole(Asm(Prologue(256)));
      Expect(LBrace);
      ParseStmts();
      Expect(RBrace);
      Fields();
      Patch32(site, if deepest <= 0 then FrameSize(deepest) else 16);
      Emit(Enc(MovImm(0)) + Asm(Epilogue));
    }

    method ParseFunction()
      requires Valid()
      modifies this, code
      ensures Valid() && State() == Parser.ParseFunction(old(State())) && pos >= old(pos)
    {
      hide Parser.ParseType, AddSym, SetSym, FindSym, Parser.ParseSignature, Parser.ParseBody, Marked;
      ParseType();
      var t := Next();
      if t.None? || !t.value.TIdent? { Fail(); return; }
      var f, kind := t.value.s, Function(Some(pos));
      var known := Find(f);
      if known.None? { Add(f, kind); } else { Rebind(f, kind); }
      var count := |syms|;
      var named := ParseSignature();
      if !named { return; }
      ParseBody();
      ghost var s := State();
      if count <= |syms| { syms := syms[..count]; }
      MarkedSame(s, State());
      Add(f, kind);
    }

    /** Functions up to the end of the input, as far as it starts with one: a type, a name, a parenthesis. */
    method ParseProgram()
      requires Valid()
      modifies this, code
      ensures Valid() && State() == Parser.ParseProgram(old(State()))
    {
      hide Parser.ParseFunction, Marked;
      while status.Ok?
        invariant Valid() && Parser.ParseProgram(State()) == Parser.ParseProgram(old(State()))
        decreases |State().toks|, if status.Ok? then 1 else 0
      {
        var t := Peek();
        if t.None? { return; }
        if t == Some(KInt) {
          if |input| >= 2 && input[0] != TBin(Mul) && input[1] == LParen {
            ParseFunction();
          } else {
            LeaveModel();
          }
        } else if t == Some(Other) {
          LeaveModel();
        } else {
          Fail();
        }
      }
    }

    /** Patches recorded calls with the entries of the functions finally bound to their names. */
    method Resolve()
      requires Valid()
      modifies this, code
      ensures Valid() && State() == Parser.Resolve(old(State()), old(patches))
    {
      hide FindSym, Patched;
      assert patches[0..] == patches;
      var i := 0;
      while i < |patches|
        invariant 0 <= i <= |patches| && Valid() && patches == old(patches)
        invariant Parser.Resolve(State(), patches[i..]) == Parser.Resolve(old(State()), patches)
      {
        var p := patches[i];
        assert patches[i..][1..] == patches[i + 1..];
        var kind := Find(p.name);
        if kind.Some? && kind.value.Function? && kind.value.entry.Some? {
          Patch32(p.site, kind.value.entry.value - (p.site + 4));
        } else {
          Fail();
        }
        i := i + 1;
      }
    }

    method Compile()
      requires Valid()
      modifies this, code
      ensures Valid() && (var s := Parser.ParseProgram(old(State())); State() == Parser.Resolve(s, s.patches))
    {
      hide Parser.ParseProgram, Parser.Resolve, Marked;
      ParseProgram();
      Resolve();
    }
  }

  lemma PrologueSize()
    ensures |Asm(Prologue(256))| == 9
  {
    hide Enc, Asm;
    Asm3(Push(Ebp), Mov(Ebp, Esp), SubImm(Esp, Wrap(256)));
  }

  /** Compiling the text of a program leaves exactly its code in the buffer. */
  method CompileText(tokens: seq<Token>, ghost p: Program) returns (c: Compiler)
    requires Parsable(p) && tokens == PrintP(p)
    ensures fresh(c) && c.Valid() && c.status.Ok? && c.code[..c.pos] == Codegen.Compile(p)
  {
    hide PrintP, Parsable, Parser.ParseProgram, Parser.Resolve, Codegen.Compile, Marked;
    ParseCompiles(p);
    c := new Compiler(tokens);
    c.Compile();
  }
}
