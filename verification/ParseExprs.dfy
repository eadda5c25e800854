/** Parsing a printed expression emits the code of that expression. */
module ParseExprs {
  import opened Basics
  import opened X86
  import opened Machine
  import opened Cupid
  import opened Codegen
  import opened Syntax
  import opened Parser

  // ----- what an expression adds to the compiler state -----

  function Calls(e: Expr): nat
  {
    match e
    case Un(_, e1) => Calls(e1)
    case Bin(_, l, r) => Calls(l) + Calls(r)
    case Cond(c, t, f) => Calls(c) + Calls(t) + Calls(f)
    case Call(_, args) => CallsIn(args) + 1
    case _ => 0
  }

  function CallsIn(es: Exprs): nat
  {
    match es case ENil => 0 case ECons(e, tail) => Calls(e) + CallsIn(tail)
  }

  /** The displacements of calls to functions that are not known yet. */
  function SitesE(e: Expr, pos: nat, known: Entries): seq<Patch>
  {
    match e
    case Un(_, e1) => SitesE(e1, pos, known)
    case Bin(_, l, r) => SitesE(l, pos, known) + SitesE(r, pos + SizeE(l) + 1, known)
    case Cond(c, t, f) =>
      SitesE(c, pos, known) + SitesE(t, pos + SizeE(c) + 8, known) + SitesE(f, pos + SizeE(c) + 8 + SizeE(t) + 5, known)
    case Call(f, args) =>
      SitesArgs(args, pos, known)
      + if f in known then [] else [Patch(pos + SizeArgs(args) + Len(Reverse(Count(args), 0)) + 1, f)]
    case _ => []
  }

  function SitesArgs(es: Exprs, pos: nat, known: Entries): seq<Patch>
  {
    match es case ENil => [] case ECons(e, tail) => SitesE(e, pos, known) + SitesArgs(tail, pos + SizeE(e) + 1, known)
  }

  /** Calling an unknown name declares it as a function without a body. */
  function Declared(syms: seq<Sym>, f: string): seq<Sym>
  {
    if FindSym(syms, f).None? then syms + [Sym(f, Function(None))] else syms
  }

  function SymsE(e: Expr, syms: seq<Sym>): seq<Sym>
  {
    match e
    case Un(_, e1) => SymsE(e1, syms)
    case Bin(_, l, r) => SymsE(r, SymsE(l, syms))
    case Cond(c, t, f) => SymsE(f, SymsE(t, SymsE(c, syms)))
    case Call(f, args) => Declared(SymsArgs(args, syms), f)
    case _ => syms
  }

  function SymsArgs(es: Exprs, syms: seq<Sym>): seq<Sym>
  {
    match es case ENil => syms case ECons(e, tail) => SymsArgs(tail, SymsE(e, syms))
  }

  // ----- the state of the compiler and the scope it stands for -----

  function VarKind(env: Env, x: string): Option<Kind>
  {
    var i := Lookup(env.names, x);
    if 0 <= i < |env.slots| then Some(Variable(env.slots[i].off, env.names[i].scalar)) else None
  }

  predicate FuncKind(kind: Option<Kind>, known: Entries, f: string)
  {
    if f in known then known[f] >= 0 && kind == Some(Function(Some(known[f])))
    else kind == None || kind == Some(Function(None))
  }

  /** A variable of that name is in scope, and hides a function of that name. */
  predicate InScope(env: Env, x: string) { Lookup(env.names, x) >= 0 }

  /** The symbol table finds the variables in scope and the functions known so far;
      `fns` are the names of the functions. */
  ghost predicate Stands(syms: seq<Sym>, env: Env, known: Entries, fns: set<string>)
  {
    && |env.slots| == |env.names|
    && (forall x :: InScope(env, x) || x !in fns ==> FindSym(syms, x) == VarKind(env, x))
    && (forall f :: f in fns && !InScope(env, f) ==> FuncKind(FindSym(syms, f), known, f))
  }

  /** Variables are declared, increments apply to scalars, calls name functions that no variable hides. */
  predicate Resolved(e: Expr, env: Env, fns: set<string>)
  {
    match e
    case Num(_) => true
    case Var(x) => InScope(env, x)
    case Un(_, e1) => Resolved(e1, env, fns)
    case Bin(_, l, r) => Resolved(l, env, fns) && Resolved(r, env, fns)
    case Cond(c, t, f) => Resolved(c, env, fns) && Resolved(t, env, fns) && Resolved(f, env, fns)
    case Call(f, args) => f in fns && !InScope(env, f) && ResolvedArgs(args, env, fns)
    case Bump(x, _, _) => InScope(env, x) && env.names[Lookup(env.names, x)].scalar
  }

  predicate ResolvedArgs(es: Exprs, env: Env, fns: set<string>)
  {
    match es case ENil => true case ECons(e, tail) => Resolved(e, env, fns) && ResolvedArgs(tail, env, fns)
  }

  /** What stays fixed while one expression is parsed. */
  datatype View = View(env: Env, known: Entries, fns: set<string>)

  ghost predicate Room(s: PState, size: nat, calls: nat)
  {
    |s.code| + size <= MAX_CODE && |s.syms| + calls <= MAX_SYMBOLS && |s.patches| + calls <= MAX_PATCHES
  }

  ghost predicate Ready(s: PState, z: View, size: nat, calls: nat)
  {
    s.status.Ok? && Stands(s.syms, z.env, z.known, z.fns) && Room(s, size, calls)
  }

  /** The state after `e` has been read from `s`, with `rest` still to come. */
  function After(s: PState, e: Expr, z: View, rest: seq<Token>): PState
  {
    s.(toks := rest, code := s.code + CodeE(e, z.env, |s.code|, z.known),
       patches := s.patches + SitesE(e, |s.code|, z.known), syms := SymsE(e, s.syms))
  }

  lemma FindLast(syms: seq<Sym>, f: string, x: string, kind: Kind)
    ensures FindSym(syms + [Sym(f, kind)], x) == if x == f then Some(kind) else FindSym(syms, x)
  {
    assert (syms + [Sym(f, kind)])[..|syms|] == syms;
  }

  lemma DeclaredStands(syms: seq<Sym>, f: string, z: View)
    requires Stands(syms, z.env, z.known, z.fns) && f in z.fns && !InScope(z.env, f)
    ensures Stands(Declared(syms, f), z.env, z.known, z.fns) && |Declared(syms, f)| <= |syms| + 1
  {
    hide FindSym, VarKind, InScope;
    var more := syms + [Sym(f, Function(None))];
    forall x
      ensures FindSym(more, x) == if x == f then Some(Function(None)) else FindSym(syms, x)
    {
      FindLast(syms, f, x, Function(None));
    }
  }

  lemma {:induction false} SymsStand(e: Expr, syms: seq<Sym>, z: View)
    requires Stands(syms, z.env, z.known, z.fns) && Resolved(e, z.env, z.fns)
    ensures Stands(SymsE(e, syms), z.env, z.known, z.fns) && |SymsE(e, syms)| <= |syms| + Calls(e)
  {
    hide Stands, Declared, Lookup;
    match e
    case Un(_, e1) => SymsStand(e1, syms, z);
    case Bin(_, l, r) => SymsStand(l, syms, z); SymsStand(r, SymsE(l, syms), z);
    case Cond(c, t, f) =>
      SymsStand(c, syms, z);
      SymsStand(t, SymsE(c, syms), z);
      SymsStand(f, SymsE(t, SymsE(c, syms)), z);
    case Call(f, args) => SymsArgsStand(args, syms, z); DeclaredStands(SymsArgs(args, syms), f, z);
    case _ =>
  }

  lemma {:induction false} SymsArgsStand(es: Exprs, syms: seq<Sym>, z: View)
    requires Stands(syms, z.env, z.known, z.fns) && ResolvedArgs(es, z.env, z.fns)
    ensures Stands(SymsArgs(es, syms), z.env, z.known, z.fns) && |SymsArgs(es, syms)| <= |syms| + CallsIn(es)
  {
    hide Stands;
    match es
    case ENil =>
    case ECons(e, tail) => SymsStand(e, syms, z); SymsArgsStand(tail, SymsE(e, syms), z);
  }

  lemma {:induction false} SitesBound(e: Expr, pos: nat, known: Entries)
    ensures |SitesE(e, pos, known)| <= Calls(e)
  {
    hide SizeE, Reverse, Asm;
    match e
    case Un(_, e1) => SitesBound(e1, pos, known);
    case Bin(_, l, r) => SitesBound(l, pos, known); SitesBound(r, pos + SizeE(l) + 1, known);
    case Cond(c, t, f) =>
      SitesBound(c, pos, known);
      SitesBound(t, pos + SizeE(c) + 8, known);
      SitesBound(f, pos + SizeE(c) + 8 + SizeE(t) + 5, known);
    case Call(_, args) => SitesArgsBound(args, pos, known);
    case _ =>
  }

  lemma {:induction false} SitesArgsBound(es: Exprs, pos: nat, known: Entries)
    ensures |SitesArgs(es, pos, known)| <= CallsIn(es)
  {
    hide SizeE, SitesE;
    match es
    case ENil =>
    case ECons(e, tail) => SitesBound(e, pos, known); SitesArgsBound(tail, pos + SizeE(e) + 1, known);
  }

  /** After one part there is room for the others. */
  lemma ReadyAfter(s: PState, e: Expr, z: View, rest: seq<Token>, size: nat, calls: nat)
    requires Ready(s, z, SizeE(e) + size, Calls(e) + calls) && Resolved(e, z.env, z.fns)
    ensures Ready(After(s, e, z, rest), z, size, calls)
  {
    hide Stands, CodeE, SitesE, SymsE, SizeE, Calls;
    SymsStand(e, s.syms, z);
    SitesBound(e, |s.code|, z.known);
  }

  // ----- patching -----

  lemma SetJcc(a: seq<Byte>, b: seq<Byte>, v: int)
    ensures Patched(a + Enc(Jcc(E, 0)) + b, |a| + 2, v) == a + Enc(Jcc(E, Wrap(v))) + b
  {
    hide Enc, Patched, Wrap, Le32;
    JccBytes(0);
    JccBytes(Wrap(v));
    SetWord(a + [0x0F, 0x84], b, v);
    assert a + ([0x0F, 0x84] + Le32(0)) + b == a + [0x0F, 0x84] + Le32(0) + b;
    assert a + ([0x0F, 0x84] + Le32(Wrap(v))) + b == a + [0x0F, 0x84] + Le32(Wrap(v)) + b;
  }

  lemma SetJmp(a: seq<Byte>, b: seq<Byte>, v: int)
    ensures Patched(a + Enc(Jmp(0)) + b, |a| + 1, v) == a + Enc(Jmp(Wrap(v))) + b
  {
    hide Enc, Patched, Wrap, Le32;
    JmpBytes(0);
    JmpBytes(Wrap(v));
    SetWord(a + [0xE9], b, v);
    assert a + ([0xE9] + Le32(0)) + b == a + [0xE9] + Le32(0) + b;
    assert a + ([0xE9] + Le32(Wrap(v))) + b == a + [0xE9] + Le32(Wrap(v)) + b;
  }

  lemma JccBytes(v: Word)
    ensures Enc(Jcc(E, v)) == [0x0F, 0x84] + Le32(v)
  {
  }

  lemma JmpBytes(v: Word)
    ensures Enc(Jmp(v)) == [0xE9] + Le32(v)
  {
  }

  /** Patching rewrites the four bytes it is aimed at and no others. */
  lemma SetWord(a: seq<Byte>, b: seq<Byte>, v: int)
    ensures Patched(a + Le32(0) + b, |a|, v) == a + Le32(Wrap(v)) + b
  {
    var code := a + Le32(0) + b;
    assert code[..|a|] == a && code[|a| + 4..] == b;
  }

  // ----- round trip -----

  /** Tokens that can follow an expression. */
  predicate Tame(rest: seq<Token>)
  {
    || rest == [] || rest[0].TBin? || rest[0].RParen? || rest[0].Comma?
    || rest[0].Question? || rest[0].Colon? || rest[0].Semi?
  }

  /** Tokens that end a whole expression. */
  predicate Ends(rest: seq<Token>) { Tame(rest) && (rest != [] ==> !rest[0].TBin? && !rest[0].Question?) }

  function FirstPrec(rest: seq<Token>): nat
  {
    if rest != [] && rest[0].TBin? then Prec(rest[0].op) else 0
  }

  /** Operators that bind less tightly than `min` are left to the caller. */
  lemma OperatorsStop(s: PState, min: nat)
    requires FirstPrec(s.toks) < min
    ensures ParseOperators(s, min) == s
  {
  }

  lemma PostfixNone(s: PState, lvalue: Option<Kind>)
    requires Tame(s.toks)
    ensures Postfix(s, lvalue) == s
  {
  }

  lemma EmitFits(s: PState, bytes: seq<Byte>)
    requires |s.code| + |bytes| <= MAX_CODE
    ensures Emit(s, bytes) == s.(code := s.code + bytes)
  {
  }

  /** No printed expression starts like a cast. */
  lemma {:induction false} FirstToken(e: Expr, k: nat)
    ensures Print(e, k) != [] && Print(e, k)[0] != KInt
    decreases e, if NeedsParens(e, k) then 1 else 0
  {
    if !NeedsParens(e, k) {
      match e
      case Bin(op, l, _) => FirstToken(l, Prec(op));
      case Cond(c, _, _) => FirstToken(c, 1);
      case _ =>
    }
  }

  ghost predicate Sets(s: PState, e: Expr, k: nat, z: View, rest: seq<Token>)
  {
    s.toks == Print(e, k) + rest && Ready(s, z, SizeE(e), Calls(e)) && Resolved(e, z.env, z.fns) && Tame(rest)
  }

  lemma NumParses(s: PState, e: Expr, z: View, rest: seq<Token>)
    requires e.Num? && Sets(s, e, 11, z, rest)
    ensures ParsePrimary(s) == After(s, e, z, rest)
  {
    hide Stands, Enc;
    assert Print(e, 11) == Bare(e) == [TNum(e.n)];
    assert s.toks[1..] == rest;
    EmitFits(Shift(s), Enc(MovImm(e.n)));
    PostfixNone(After(s, e, z, rest), None);
  }

  /** A variable once its name has been read. */
  lemma VarIdent(s: PState, e: Expr, z: View, rest: seq<Token>)
    requires e.Var? && Sets(s, e, 11, z, rest)
    ensures s.toks == [TIdent(e.x)] + rest && Shift(s).toks == rest && ParseIdent(Shift(s), e.x) == After(s, e, z, rest)
  {
    hide Enc, FindSym;
    assert Print(e, 11) == Bare(e) == [TIdent(e.x)];
    assert s.toks[1..] == rest;
    EmitFits(Shift(s), CodeE(e, z.env, |s.code|, z.known));
  }

  lemma VarParses(s: PState, e: Expr, z: View, rest: seq<Token>)
    requires e.Var? && Sets(s, e, 11, z, rest)
    ensures ParsePrimary(s) == After(s, e, z, rest)
  {
    hide ParseIdent, After, Stands, FindSym, Postfix, Print;
    VarIdent(s, e, z, rest);
    AfterHas(s, e, z, rest);
    PostfixNone(After(s, e, z, rest), FindSym(s.syms, e.x));
  }

  lemma BumpParses(s: PState, e: Expr, z: View, rest: seq<Token>)
    requires e.Bump? && Sets(s, e, 11, z, rest)
    ensures ParsePrimary(s) == After(s, e, z, rest)
  {
    hide Enc, Asm, FindSym;
    var off := z.env.slots[Lookup(z.env.names, e.x)].off;
    LenBumping(z.env, e.x, e.up);
    assert Bumping(z.env, e.x, e.up) == BumpAt(off, e.up);
    assert Print(e, 11) == Bare(e);
    if e.prefix {
      assert s.toks[1..] == [TIdent(e.x)] + rest && s.toks[1..][1..] == rest;
      EmitFits(Shift(Shift(s)), Asm(BumpAt(off, e.up)));
      PostfixNone(After(s, e, z, rest), None);
    } else {
      BumpAfter(s, e, z, rest, off);
    }
  }

  /** x++: the old value is loaded before the operator is seen. */
  lemma PostfixPrint(e: Expr, rest: seq<Token>)
    requires e.Bump? && !e.prefix
    ensures var t := Print(e, 11) + rest;
      t == [TIdent(e.x), TInc(e.up)] + rest && t[1..] == [TInc(e.up)] + rest && t[1..][1..] == rest
  {
    assert Print(e, 11) == Bare(e) == [TIdent(e.x), TInc(e.up)];
  }

  lemma PostfixCode(e: Expr, env: Env, pos: nat, known: Entries, off: int)
    requires e.Bump? && !e.prefix && Bumping(env, e.x, e.up) == BumpAt(off, e.up) && OffsetOf(env, e.x) == Wrap(off)
    ensures CodeE(e, env, pos, known)
         == Enc(LoadBp(Eax, Wrap(off))) + (Enc(Push(Eax)) + (Asm(BumpAt(off, e.up)) + Enc(Pop(Eax))))
    ensures SizeE(e) == 21 && SitesE(e, pos, known) == []
  {
    hide Enc, Asm, Bumping, BumpAt, OffsetOf, Wrap;
    var load, bump := Enc(LoadBp(Eax, Wrap(off))), Asm(BumpAt(off, e.up)) + Enc(Pop(Eax));
    assert load + Enc(Push(Eax)) + bump == load + (Enc(Push(Eax)) + bump);
  }

  lemma IdentLoads(s: PState, x: string, off: int)
    requires FindSym(s.syms, x) == Some(Variable(off, true)) && !Sees(s, LParen)
    ensures ParseIdent(s, x) == Emit(s, Enc(LoadBp(Eax, Wrap(off))))
  {
    hide FindSym, Enc, Emit, Wrap, ParseArgs;
  }

  lemma BumpAfter(s: PState, e: Expr, z: View, rest: seq<Token>, off: int)
    requires e.Bump? && !e.prefix && Sets(s, e, 11, z, rest)
    requires Bumping(z.env, e.x, e.up) == BumpAt(off, e.up) && FindSym(s.syms, e.x) == Some(Variable(off, true))
    requires OffsetOf(z.env, e.x) == Wrap(off) && Len(BumpAt(off, e.up)) == 13
    ensures ParsePrimary(s) == After(s, e, z, rest)
  {
    hide Enc, Asm, FindSym, Stands, Bumping, BumpAt, OffsetOf, Lookup, Emit, ParseExpr, Wrap, ParseIdent, Print,
         CodeE, Calls, Resolved;
    var load := Enc(LoadBp(Eax, Wrap(off)));
    var bump := Enc(Push(Eax)) + (Asm(BumpAt(off, e.up)) + Enc(Pop(Eax)));
    PostfixPrint(e, rest);
    var s1 := Shift(s);
    PostfixCode(e, z.env, |s.code|, z.known, off);
    IdentLoads(s1, e.x, off);
    EmitFits(s1, load);
    var s2 := s1.(code := s1.code + load);
    EmitFits(Shift(s2), bump);
    assert s.code + load + bump == s.code + (load + bump);
    assert s.patches + [] == s.patches;
  }

  lemma UnAfter(s: PState, e: Expr, z: View, rest: seq<Token>)
    requires e.Un?
    ensures After(s, e, z, rest) == After(s, e.e, z, rest).(code := After(s, e.e, z, rest).code + Asm(UnCode(e.uop)))
    ensures SizeE(e) == SizeE(e.e) + Len(UnCode(e.uop)) && Calls(e) == Calls(e.e)
  {
    hide Asm, UnCode;
    var c := CodeE(e.e, z.env, |s.code|, z.known);
    assert s.code + c + Asm(UnCode(e.uop)) == s.code + (c + Asm(UnCode(e.uop)));
  }

  /** A prefix operator applies to the primary that follows. */
  lemma PrefixIs(s: PState, op: UnOp)
    requires s.status.Ok? && Peek(s) == Some(UnToken(op))
    ensures ParsePrimary(s) == Postfix(Emit(ParsePrimary(Shift(s)), Asm(UnCode(op))), None)
  {
    hide Asm, UnCode, Emit, Postfix, ParseExpr, ParseIdent, FindSym, Enc;
  }

  lemma {:induction false} UnParses(s: PState, e: Expr, z: View, rest: seq<Token>)
    requires e.Un? && Sets(s, e, 11, z, rest)
    ensures ParsePrimary(s) == After(s, e, z, rest)
    decreases e, 0
  {
    hide Asm, Stands, UnCode, ParsePrimary, After, SizeE, Calls, Emit, Postfix;
    assert Print(e, 11) == Bare(e) == [UnToken(e.uop)] + Print(e.e, 11);
    var s1 := Shift(s);
    assert s1.toks == Print(e.e, 11) + rest;
    PrefixIs(s, e.uop);
    UnAfter(s1, e, z, rest);
    AfterHas(s1, e, z, rest);
    PrimaryParses(s1, e.e, z, rest);
    AfterLength(s1, e.e, z, rest);
    EmitFits(After(s1, e.e, z, rest), Asm(UnCode(e.uop)));
    PostfixNone(After(s1, e, z, rest), None);
    AfterToken(s, e, z, rest);
  }

  lemma AfterLength(s: PState, e: Expr, z: View, rest: seq<Token>)
    ensures |After(s, e, z, rest).code| == |s.code| + SizeE(e)
  {
  }

  lemma AfterToken(s: PState, e: Expr, z: View, rest: seq<Token>)
    ensures After(Shift(s), e, z, rest) == After(s, e, z, rest)
  {
  }

  lemma {:induction false} ParensParse(s: PState, e: Expr, z: View, rest: seq<Token>)
    requires (e.Bin? || e.Cond?) && Sets(s, e, 11, z, rest)
    ensures ParsePrimary(s) == After(s, e, z, rest)
    decreases e, 4, 0
  {
    hide CodeE, Stands, SizeE, Calls, SitesE, SymsE, Resolved, ParseExpr, FindSym;
    assert Print(e, 11) == [LParen] + (Bare(e) + [RParen]) && Print(e, 0) == Bare(e);
    var s1 := Shift(s);
    var rest1 := [RParen] + rest;
    assert s1.toks == Print(e, 0) + rest1;
    FirstToken(e, 0);
    FullParses(s1, e, z, rest1);
    assert rest1[1..] == rest;
    PostfixNone(After(s, e, z, rest), None);
  }

  lemma {:induction false} PrimaryParses(s: PState, e: Expr, z: View, rest: seq<Token>)
    requires Sets(s, e, 11, z, rest)
    ensures ParsePrimary(s) == After(s, e, z, rest)
    decreases e, if e.Bin? || e.Cond? then 4 else 1, 2
  {
    hide *;
    match e
    case Num(_) => NumParses(s, e, z, rest);
    case Var(_) => VarParses(s, e, z, rest);
    case Un(_, _) => UnParses(s, e, z, rest);
    case Bin(_, _, _) => ParensParse(s, e, z, rest);
    case Cond(_, _, _) => ParensParse(s, e, z, rest);
    case Call(_, _) => CallParses(s, e, z, rest);
    case Bump(_, _, _) => BumpParses(s, e, z, rest);
  }

  // ----- operators -----

  predicate BareBin(e: Expr, k: nat) { e.Bin? && Prec(e.op) >= k }

  lemma {:induction false} OperandParses(s: PState, e: Expr, k: nat, m: nat, z: View, rest: seq<Token>)
    requires 1 <= m <= k <= 11 && Sets(s, e, k, z, rest) && FirstPrec(rest) <= k
    ensures ParseOperators(ParsePrimary(s), m) == ParseOperators(After(s, e, z, rest), m)
    decreases e, if BareBin(e, k) then 0 else if e.Bin? || e.Cond? then 5 else 2, 1
  {
    hide ParsePrimary, ParseOperators, After, Resolved, Ready, SizeE, Calls, Bare;
    if BareBin(e, k) {
      BinParses(s, e, k, m, z, rest);
    } else {
      assert Print(e, k) == Print(e, 11);
      PrimaryParses(s, e, z, rest);
    }
  }

  lemma BinUnfolds(e: Expr, env: Env, pos: nat, known: Entries, syms: seq<Sym>)
    requires e.Bin?
    ensures var pr := pos + SizeE(e.l) + 1;
      && CodeE(e, env, pos, known) == BinCode(CodeE(e.l, env, pos, known), e.op, CodeE(e.r, env, pr, known))
      && SitesE(e, pos, known) == SitesE(e.l, pos, known) + SitesE(e.r, pr, known)
      && SymsE(e, syms) == SymsE(e.r, SymsE(e.l, syms))
      && SizeE(e) == SizeE(e.l) + 1 + SizeE(e.r) + 1 + Len(BinTail(e.op)) && Calls(e) == Calls(e.l) + Calls(e.r)
  {
    hide BinCode, BinTail, Asm, Enc, Codegen.CondCode, ApplyCode, BumpCode, UnCode, Reverse, OffsetOf, IsScalar,
         Declared;
  }

  lemma BinAfter(s: PState, e: Expr, z: View, rest: seq<Token>, rest1: seq<Token>) returns (s2: PState)
    requires e.Bin? && Ready(s, z, SizeE(e), Calls(e)) && Resolved(e.l, z.env, z.fns)
    requires rest1 == [TBin(e.op)] + (Print(e.r, Prec(e.op) + 1) + rest)
    ensures s2 == Emit(Shift(After(s, e.l, z, rest1)), Enc(Push(Eax)))
    ensures s2.toks == Print(e.r, Prec(e.op) + 1) + rest && Ready(s2, z, SizeE(e.r), Calls(e.r))
    ensures Emit(After(s2, e.r, z, rest), Enc(Pop(Ebx)) + Asm(BinTail(e.op))) == After(s, e, z, rest)
  {
    hide Stands, Enc, Asm, BinTail, Print, Prec, CodeE, SitesE, SymsE, SizeE, Calls, Resolved;
    var s1 := After(s, e.l, z, rest1);
    BinUnfolds(e, z.env, |s.code|, z.known, s.syms);
    ReadyAfter(s, e.l, z, rest1, 1 + SizeE(e.r) + 1 + Len(BinTail(e.op)), Calls(e.r));
    EmitFits(Shift(s1), Enc(Push(Eax)));
    s2 := Emit(Shift(s1), Enc(Push(Eax)));
    var cl, cr := CodeE(e.l, z.env, |s.code|, z.known), CodeE(e.r, z.env, |s2.code|, z.known);
    var last := Enc(Pop(Ebx)) + Asm(BinTail(e.op));
    EmitFits(After(s2, e.r, z, rest), last);
    assert s.code + cl + Enc(Push(Eax)) + cr + last == s.code + (cl + Enc(Push(Eax)) + (cr + last));
    var a, b := SitesE(e.l, |s.code|, z.known), SitesE(e.r, |s2.code|, z.known);
    assert s.patches + a + b == s.patches + (a + b);
  }

  lemma BinPrint(e: Expr, k: nat, rest: seq<Token>)
    requires BareBin(e, k)
    ensures var p := Prec(e.op); Print(e, k) + rest == Print(e.l, p) + ([TBin(e.op)] + (Print(e.r, p + 1) + rest))
  {
    hide Prec;
    var p := Prec(e.op);
    assert Print(e, k) == Bare(e) == Print(e.l, p) + ([TBin(e.op)] + Print(e.r, p + 1));
    var a, b, c := Print(e.l, p), [TBin(e.op)], Print(e.r, p + 1);
    assert a + (b + c) + rest == a + (b + (c + rest));
  }

  lemma BinRoom(s: PState, e: Expr, z: View)
    requires e.Bin? && Ready(s, z, SizeE(e), Calls(e)) && Resolved(e, z.env, z.fns)
    ensures Ready(s, z, SizeE(e.l), Calls(e.l)) && Resolved(e.l, z.env, z.fns) && Resolved(e.r, z.env, z.fns)
  {
    hide Stands, BinTail, Asm;
  }

  lemma RightOperand(s: PState, t: PState, min: nat)
    requires s.status.Ok? && ParseOperators(ParsePrimary(s), min) == ParseOperators(t, min)
    requires FirstPrec(t.toks) < min && min > 1
    ensures ParseExpr(s, min) == t
  {
    hide ParsePrimary, ParseOperators, FirstPrec;
    OperatorsStop(t, min);
  }

  lemma OperatorStep(s: PState, op: BinOp, min: nat)
    requires s.status.Ok? && Sees(s, TBin(op)) && min <= Prec(op)
    ensures ParseOperators(s, min)
         == ParseOperators(Emit(ParseExpr(Emit(Shift(s), Enc(Push(Eax))), Prec(op) + 1),
                                Enc(Pop(Ebx)) + Asm(BinTail(op))), min)
  {
    hide ParseExpr, Emit, Enc, Asm, BinTail, Prec;
  }

  lemma {:induction false} BinParses(s: PState, e: Expr, k: nat, m: nat, z: View, rest: seq<Token>)
    requires BareBin(e, k) && 1 <= m <= k <= 11 && Sets(s, e, k, z, rest) && FirstPrec(rest) <= k
    ensures ParseOperators(ParsePrimary(s), m) == ParseOperators(After(s, e, z, rest), m)
    decreases e, 0, 0
  {
    hide ParsePrimary, ParseOperators, ParseExpr, After, Emit, CodeE, SitesE, SymsE, SizeE, Calls, Resolved, Stands,
         Prec, Asm, Enc, BinTail, Print, Bare;
    var Bin(op, l, r) := e;
    var p := Prec(op);
    PrecBound(op);
    var rest1 := [TBin(op)] + (Print(r, p + 1) + rest);
    BinPrint(e, k, rest);
    BinRoom(s, e, z);
    OperandParses(s, l, p, m, z, rest1);
    var s2 := BinAfter(s, e, z, rest, rest1);
    OperandParses(s2, r, p + 1, p + 1, z, rest);
    AfterHas(s2, r, z, rest);
    AfterHas(s, l, z, rest1);
    RightOperand(s2, After(s2, r, z, rest), p + 1);
    OperatorStep(After(s, l, z, rest1), op, m);
  }

  lemma PrecBound(op: BinOp)
    ensures 1 <= Prec(op) <= 10
  {
  }

  // ----- whole expressions -----

  lemma {:induction false} FullParses(s: PState, e: Expr, z: View, rest: seq<Token>)
    requires Sets(s, e, 0, z, rest) && Ends(rest)
    ensures ParseExpr(s, 1) == After(s, e, z, rest)
    decreases e, 3, 0
  {
    hide ParsePrimary, ParseOperators, Ready, Bare, SizeE, Calls, Resolved;
    if e.Cond? {
      CondParses(s, e, z, rest);
    } else {
      PrintWhole(e);
      OperandParses(s, e, 1, 1, z, rest);
      OperatorsStop(After(s, e, z, rest), 1);
      OkStays(s, e, z, rest);
    }
  }

  lemma PrintWhole(e: Expr)
    requires !e.Cond?
    ensures Print(e, 0) == Print(e, 1)
  {
    if e.Bin? { PrecBound(e.op); }
  }

  lemma OkStays(s: PState, e: Expr, z: View, rest: seq<Token>)
    requires Ready(s, z, SizeE(e), Calls(e))
    ensures s.status.Ok? && After(s, e, z, rest).status.Ok?
  {
  }

  /** c ? t : f once the condition has been read. */
  lemma CondCodes(k: seq<Byte>, c: seq<Byte>, t: seq<Byte>, f: seq<Byte>)
    ensures var k1 := k + c + (Enc(Alu(TEST, Eax, Eax)) + Enc(Jcc(E, 0))) + t;
      var k2 := Patched(k1 + Enc(Jmp(0)), |k + c| + 4, |k1| + 5 - (|k + c| + 8)) + f;
      Patched(k2, |k1| + 1, |k2| - (|k1| + 5)) == k + Codegen.CondCode(c, t, f)
  {
    hide Enc, Patched;
    var test, jump := Enc(Alu(TEST, Eax, Eax)), Enc(Jmp(Wrap(|f|)));
    var k1 := k + c + (test + Enc(Jcc(E, 0))) + t;
    assert k1 + Enc(Jmp(0)) == (k + c + test) + Enc(Jcc(E, 0)) + (t + Enc(Jmp(0)));
    SetJcc(k + c + test, t + Enc(Jmp(0)), |t| + 5);
    var jz := Enc(Jcc(E, Wrap(|t| + 5)));
    var k2 := (k + c + test) + jz + (t + Enc(Jmp(0))) + f;
    assert k2 == (k + c + test + jz + t) + Enc(Jmp(0)) + f;
    SetJmp(k + c + test + jz + t, f, |f|);
    assert (k + c + test + jz + t) + jump + f == k + (c + (test + jz) + (t + jump + f));
  }

  lemma {:induction false} CondParses(s: PState, e: Expr, z: View, rest: seq<Token>)
    requires e.Cond? && Sets(s, e, 0, z, rest) && Ends(rest)
    ensures ParseExpr(s, 1) == After(s, e, z, rest)
    decreases e, 0, 1
  {
    hide ParsePrimary, ParseOperators, ParseTernary, CodeE, SizeE, Calls, SitesE, SymsE, Stands, Resolved, Print;
    var rest1 := [Question] + (Print(e.t, 0) + ([Colon] + (Print(e.f, 0) + rest)));
    CondSplits(e, rest);
    CondMeasures(e, z);
    OperandParses(s, e.c, 1, 1, z, rest1);
    OperatorsStop(After(s, e.c, z, rest1), 1);
    TernaryParses(s, e, z, rest);
  }

  lemma {:induction false} TernaryParses(s: PState, e: Expr, z: View, rest: seq<Token>)
    requires e.Cond? && Ready(s, z, SizeE(e), Calls(e)) && Resolved(e, z.env, z.fns) && Ends(rest)
    ensures var rest1 := [Question] + (Print(e.t, 0) + ([Colon] + (Print(e.f, 0) + rest)));
      ParseTernary(After(s, e.c, z, rest1), 1) == After(s, e, z, rest)
    decreases e, 0, 0
  {
    hide ParseExpr, CodeE, SizeE, Calls, SitesE, SymsE, Stands, Enc, Patched, Resolved, Print;
    var Cond(c, t, f) := e;
    var rest2 := [Colon] + (Print(f, 0) + rest);
    var rest1 := [Question] + (Print(t, 0) + rest2);
    CondMeasures(e, z);
    var s1 := After(s, c, z, rest1);
    ReadyAfter(s, c, z, rest1, 8 + SizeE(t) + 5 + SizeE(f), Calls(t) + Calls(f));
    var test := Enc(Alu(TEST, Eax, Eax)) + Enc(Jcc(E, 0));
    EmitFits(Shift(s1), test);
    var s2 := Emit(Shift(s1), test);
    FullParses(s2, t, z, rest2);
    var s3 := After(s2, t, z, rest2);
    ReadyAfter(s2, t, z, rest2, 5 + SizeE(f), Calls(f));
    EmitFits(s3, Enc(Jmp(0)));
    var s4 := PatchJump(Emit(s3, Enc(Jmp(0))), |s1.code| + 4);
    FullParses(Shift(s4), f, z, rest);
    CondAfter(s, e, z, rest, s1, s2, s3, s4, After(Shift(s4), f, z, rest));
  }

  lemma CondSplits(e: Expr, rest: seq<Token>)
    requires e.Cond?
    ensures Print(e, 0) + rest == Print(e.c, 1) + ([Question] + (Print(e.t, 0) + ([Colon] + (Print(e.f, 0) + rest))))
  {
    assert Print(e, 0) == Bare(e);
  }

  lemma CondMeasures(e: Expr, z: View)
    requires e.Cond? && Resolved(e, z.env, z.fns)
    ensures SizeE(e) == SizeE(e.c) + 8 + SizeE(e.t) + 5 + SizeE(e.f) && Calls(e) == Calls(e.c) + Calls(e.t) + Calls(e.f)
    ensures Resolved(e.c, z.env, z.fns) && Resolved(e.t, z.env, z.fns) && Resolved(e.f, z.env, z.fns)
  {
  }

  lemma CondCodeUnfolds(e: Expr, env: Env, pos: nat, known: Entries)
    requires e.Cond?
    ensures var pt := pos + SizeE(e.c) + 8; var pf := pt + SizeE(e.t) + 5;
      CodeE(e, env, pos, known)
        == Codegen.CondCode(CodeE(e.c, env, pos, known), CodeE(e.t, env, pt, known), CodeE(e.f, env, pf, known))
  {
    hide Codegen.CondCode, SizeE, BinCode, ApplyCode, BumpCode, Enc;
  }

  lemma CondSitesUnfold(e: Expr, pos: nat, known: Entries)
    requires e.Cond?
    ensures var pt := pos + SizeE(e.c) + 8; var pf := pt + SizeE(e.t) + 5;
      SitesE(e, pos, known) == SitesE(e.c, pos, known) + SitesE(e.t, pt, known) + SitesE(e.f, pf, known)
  {
    hide SizeE;
  }

  lemma CondSymsUnfold(e: Expr, syms: seq<Sym>)
    requires e.Cond?
    ensures SymsE(e, syms) == SymsE(e.f, SymsE(e.t, SymsE(e.c, syms)))
  {
  }

  lemma CondAfter(s: PState, e: Expr, z: View, rest: seq<Token>, s1: PState, s2: PState, s3: PState, s4: PState,
      s5: PState)
    requires e.Cond? && s1 == After(s, e.c, z, s1.toks) && s5 == After(Shift(s4), e.f, z, rest)
    requires s2 == s1.(toks := s2.toks, code := s1.code + (Enc(Alu(TEST, Eax, Eax)) + Enc(Jcc(E, 0))))
    requires s3 == After(s2, e.t, z, s3.toks)
    requires s4 == PatchJump(s3.(code := s3.code + Enc(Jmp(0))), |s1.code| + 4)
    ensures PatchJump(s5, |s3.code| + 1) == After(s, e, z, rest)
  {
    hide Enc, Patched, Codegen.CondCode, CodeE, SitesE, SymsE, SizeE;
    CondCodeUnfolds(e, z.env, |s.code|, z.known);
    CondSitesUnfold(e, |s.code|, z.known);
    CondSymsUnfold(e, s.syms);
    CondCodes(s.code, CodeE(e.c, z.env, |s.code|, z.known), CodeE(e.t, z.env, |s2.code|, z.known),
        CodeE(e.f, z.env, |s4.code|, z.known));
    var a, b, c := SitesE(e.c, |s.code|, z.known), SitesE(e.t, |s2.code|, z.known), SitesE(e.f, |s4.code|, z.known);
    assert s.patches + a + b + c == s.patches + (a + b + c);
  }

  // ----- calls -----

  function AfterArgs(s: PState, es: Exprs, z: View, rest: seq<Token>): PState
  {
    s.(toks := rest, code := s.code + CodeArgs(es, z.env, |s.code|, z.known),
       patches := s.patches + SitesArgs(es, |s.code|, z.known), syms := SymsArgs(es, s.syms))
  }

  lemma {:induction false} ArgsParse(s: PState, es: Exprs, n: nat, z: View, rest: seq<Token>)
    requires es.ECons? && s.toks == PrintArgs(es) + rest
    requires Ready(s, z, SizeArgs(es), CallsIn(es)) && ResolvedArgs(es, z.env, z.fns)
    ensures ParseArgs(s, n) == (AfterArgs(s, es, z, [RParen] + rest), n + Count(es))
    decreases es, 0
  {
    hide ParseExpr, CodeE, SizeE, Calls, SitesE, SymsE, Stands, Enc, Resolved, Print;
    var ECons(e, tail) := es;
    var rest1 := PrintMore(tail) + rest;
    assert s.toks == Print(e, 0) + rest1;
    MoreEnds(tail, rest);
    FullParses(s, e, z, rest1);
    var s1 := After(s, e, z, rest1);
    ReadyAfter(s, e, z, rest1, 1 + SizeArgs(tail), CallsIn(tail));
    EmitFits(s1, Enc(Push(Eax)));
    var s2 := Emit(s1, Enc(Push(Eax)));
    if tail.ENil? {
      assert rest1 == [RParen] + rest;
      NoArgs(s2, z, rest);
      ArgsAfter(s, es, z, rest1, rest, s2);
    } else {
      assert PrintMore(tail) == [Comma] + PrintArgs(tail);
      assert Shift(s2).toks == PrintArgs(tail) + rest;
      ArgsParse(Shift(s2), tail, n + 1, z, rest);
      ArgsAfter(s, es, z, rest1, rest, Shift(s2));
    }
  }

  lemma MoreEnds(es: Exprs, rest: seq<Token>)
    ensures Ends(PrintMore(es) + rest)
    ensures Sees(PState(PrintMore(es) + rest, [], Ok, [], 0, 0, [], []), Comma) == es.ECons?
  {
  }

  lemma ArgsAfter(s: PState, es: Exprs, z: View, rest1: seq<Token>, rest: seq<Token>, s2: PState)
    requires es.ECons?
    requires s2
         == After(s, es.head, z, rest1).(
              toks := s2.toks, code := s.code + CodeE(es.head, z.env, |s.code|, z.known) + Enc(Push(Eax)))
    ensures AfterArgs(s2, es.tail, z, [RParen] + rest) == AfterArgs(s, es, z, [RParen] + rest)
  {
    hide CodeE, SizeE, SitesE, SymsE, Enc;
    var ce := CodeE(es.head, z.env, |s.code|, z.known);
    var ct := CodeArgs(es.tail, z.env, |s2.code|, z.known);
    assert s.code + ce + Enc(Push(Eax)) + ct == s.code + (ce + Enc(Push(Eax)) + ct);
    assert s.patches + SitesE(es.head, |s.code|, z.known) + SitesArgs(es.tail, |s2.code|, z.known)
        == s.patches + (SitesE(es.head, |s.code|, z.known) + SitesArgs(es.tail, |s2.code|, z.known));
  }

  /** The call instruction: direct if the function is known, else recorded for patching. */
  lemma EmitCallIs(s: PState, f: string, z: View)
    requires s.status.Ok? && Stands(s.syms, z.env, z.known, z.fns) && f in z.fns && !InScope(z.env, f)
    requires |s.code| + 5 <= MAX_CODE && |s.syms| < MAX_SYMBOLS && |s.patches| < MAX_PATCHES
    ensures EmitCall(s, f) == s.(code := s.code + Enc(CallCode(f, |s.code| + 5, z.known)), syms := Declared(s.syms, f),
      patches := s.patches + if f in z.known then [] else [Patch(|s.code| + 1, f)])
  {
    hide FindSym, Enc, Rel, VarKind;
    EmitFits(s, Enc(CallCode(f, |s.code| + 5, z.known)));
    EmitFits(AddSym(s, f, Function(None)), Enc(CallCode(f, |s.code| + 5, z.known)));
  }

  lemma CallSplits(e: Expr, rest: seq<Token>, s: PState) returns (s1: PState)
    requires e.Call? && s.toks == Print(e, 11) + rest
    ensures Peek(s) == Some(TIdent(e.fn)) && Sees(Shift(s), LParen) && s1 == Shift(Shift(s))
    ensures s1 == s.(toks := PrintArgs(e.args) + rest)
  {
    hide PrintArgs;
    assert Print(e, 11) == Bare(e) == [TIdent(e.fn), LParen] + PrintArgs(e.args);
    s1 := Shift(Shift(s));
    assert s1.toks == PrintArgs(e.args) + rest;
  }

  /** A call once its name has been read. */
  lemma CallRoom(s: PState, e: Expr, z: View)
    requires e.Call? && Ready(s, z, SizeE(e), Calls(e)) && Resolved(e, z.env, z.fns)
    ensures Ready(s, z, SizeArgs(e.args), CallsIn(e.args)) && ResolvedArgs(e.args, z.env, z.fns)
  {
    hide Stands, Asm, Reverse;
  }

  lemma {:induction false} CallIdent(s: PState, e: Expr, z: View, rest: seq<Token>)
    requires e.Call? && s.toks == Print(e, 11) + rest && Ready(s, z, SizeE(e), Calls(e)) && Resolved(e, z.env, z.fns)
    ensures Peek(s) == Some(TIdent(e.fn)) && Sees(Shift(s), LParen)
    ensures ParseIdent(Shift(s), e.fn) == After(s, e, z, rest)
    decreases e, 0
  {
    hide ParseExpr, ParseArgs, CodeArgs, SizeArgs, SitesArgs, SymsArgs, Stands, Enc, Asm, Print, FindSym, Declared,
         CallCode, Reverse, PopArgs, Emit, EmitCall, CodeE, SizeE, Calls, CallsIn, Resolved, ResolvedArgs, After;
    CallRoom(s, e, z);
    var n := Count(e.args);
    var s1 := CallSplits(e, rest, s);
    var s2 := AfterArgs(s1, e.args, z, [RParen] + rest);
    if e.args.ENil? {
      assert s1.toks == [RParen] + rest;
      NoArgs(s1, z, rest);
    } else {
      ArgsParse(s1, e.args, 0, z, rest);
      FirstArg(e.args, rest);
    }
    assert Shift(s2).toks == rest;
    var s3 := CallEmits(s, e, z, rest, Shift(s2));
  }

  lemma {:induction false} CallParses(s: PState, e: Expr, z: View, rest: seq<Token>)
    requires e.Call? && Sets(s, e, 11, z, rest)
    ensures ParsePrimary(s) == After(s, e, z, rest)
    decreases e, 1, 0
  {
    hide ParseIdent, Print, After, SizeE, Calls, Resolved, Stands, Emit, ParseExpr, FindSym, Postfix;
    CallIdent(s, e, z, rest);
    AfterHas(s, e, z, rest);
    PostfixNone(After(s, e, z, rest), None);
  }

  lemma AfterHas(s: PState, e: Expr, z: View, rest: seq<Token>)
    ensures After(s, e, z, rest).toks == rest && After(s, e, z, rest).status == s.status
  {
  }

  lemma NoArgs(s: PState, z: View, rest: seq<Token>)
    requires s.toks == [RParen] + rest
    ensures AfterArgs(s, ENil, z, [RParen] + rest) == s
  {
    assert s.code + [] == s.code && s.patches + [] == s.patches;
  }

  lemma FirstArg(es: Exprs, rest: seq<Token>)
    requires es.ECons?
    ensures var t := PrintArgs(es) + rest; t != [] && t[0] != RParen
  {
    FirstIsOpen(es.head, 0);
  }

  lemma {:induction false} FirstIsOpen(e: Expr, k: nat)
    ensures Print(e, k) != [] && Print(e, k)[0] != RParen
    decreases e, if NeedsParens(e, k) then 1 else 0
  {
    if !NeedsParens(e, k) {
      match e
      case Bin(op, l, _) => FirstIsOpen(l, Prec(op));
      case Cond(c, _, _) => FirstIsOpen(c, 1);
      case _ =>
    }
  }

  lemma JoinCall(k: seq<Byte>, args: seq<Byte>, swap: seq<Byte>, call: seq<Byte>, pop: seq<Byte>)
    ensures k + args + swap + call + pop == k + (args + (swap + (call + pop)))
  {
  }

  lemma CallCodeIs(e: Expr, env: Env, pos: nat, known: Entries)
    requires e.Call?
    ensures var n := Count(e.args); var swap := Asm(Reverse(n, 0));
      && CodeE(e, env, pos, known) == CodeArgs(e.args, env, pos, known)
           + (swap + (Enc(CallCode(e.fn, pos + SizeArgs(e.args) + |swap| + 5, known)) + Asm(PopArgs(n))))
      && SizeE(e) == SizeArgs(e.args) + |swap| + 5 + |Asm(PopArgs(n))| && Calls(e) == CallsIn(e.args) + 1
  {
    hide Enc, Asm, Reverse, PopArgs, CallCode;
    LenPopArgs(Count(e.args));
  }

  lemma CallEmits(s: PState, e: Expr, z: View, rest: seq<Token>, s2: PState) returns (s3: PState)
    requires e.Call? && Ready(s, z, SizeE(e), Calls(e)) && Resolved(e, z.env, z.fns)
    requires s2 == AfterArgs(s, e.args, z, rest)
    ensures s3 == Emit(EmitCall(Emit(s2, Asm(Reverse(Count(e.args), 0))), e.fn), Asm(PopArgs(Count(e.args))))
    ensures s3 == After(s, e, z, rest)
  {
    hide CodeE, SizeE, Calls, CodeArgs, SizeArgs, SitesArgs, SymsArgs, Stands, Enc, Asm, FindSym, Declared, CallCode,
         Reverse, PopArgs, ResolvedArgs, EmitCall, Emit;
    CallCodeIs(e, z.env, |s.code|, z.known);
    var n := Count(e.args);
    SymsArgsStand(e.args, s.syms, z);
    SitesArgsBound(e.args, |s.code|, z.known);
    LenPopArgs(n);
    var swap, pop := Asm(Reverse(n, 0)), Asm(PopArgs(n));
    EmitFits(s2, swap);
    var s4 := Emit(s2, swap);
    EmitCallIs(s4, e.fn, z);
    var call := Enc(CallCode(e.fn, |s4.code| + 5, z.known));
    CallSize(e.fn, |s4.code| + 5, z.known);
    EmitFits(EmitCall(s4, e.fn), pop);
    s3 := Emit(EmitCall(s4, e.fn), pop);
    var args := CodeArgs(e.args, z.env, |s.code|, z.known);
    JoinCall(s.code, args, swap, call, pop);
    CallCodeIs(e, z.env, |s.code|, z.known);
  }

  lemma CallSize(f: string, end: int, known: Entries)
    ensures |Enc(CallCode(f, end, known))| == 5
  {
  }
}
