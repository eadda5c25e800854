/** Parsing a printed program yields exactly the compiled program. */
module ParsePrograms {
  import opened Basics
  import opened X86
  import opened Machine
  import opened Cupid
  import opened Codegen
  import opened Syntax
  import opened Parser
  import opened ParseExprs
  import opened ParseStmts
  import opened CallSites
  import Frames
  import opened ProgramCorrect
  import opened ExprCorrect

  // ----- parameters -----

  function ParamSyms(ps: seq<string>, off: int): seq<Sym>
  {
    if ps == [] then [] else [Sym(ps[0], Variable(off, true))] + ParamSyms(ps[1..], off + 4)
  }

  lemma TypeName(s: PState, x: string, rest: seq<Token>)
    requires s.toks == [KInt, TIdent(x)] + rest
    ensures ParseType(s) == s.(toks := [TIdent(x)] + rest) && ([TIdent(x)] + rest)[1..] == rest
  {
    assert s.toks[1..] == [TIdent(x)] + rest;
  }

  lemma ParamStep(s: PState, x: string, off: int, rest: seq<Token>)
    requires s.toks == [KInt, TIdent(x)] + rest && |s.syms| < MAX_SYMBOLS && rest != []
    ensures var s2 := s.(toks := rest, syms := s.syms + [Sym(x, Variable(off, true))]);
      ParseParams(s, off) == if rest[0] == Comma then ParseParams(s2.(toks := rest[1..]), off + 4) else (s2, true)
  {
    hide ParseType;
    TypeName(s, x, rest);
  }

  lemma {:induction false} ParamsParse(s: PState, ps: seq<string>, off: int, rest: seq<Token>)
    requires ps != [] && s.toks == PrintParams(ps) + rest && |s.syms| + |ps| <= MAX_SYMBOLS
    ensures ParseParams(s, off) == (s.(toks := [RParen] + rest, syms := s.syms + ParamSyms(ps, off)), true)
    decreases ps
  {
    hide ParseParams, PrintMoreParams;
    var x, tail := ps[0], ps[1..];
    var rest1 := PrintMoreParams(tail) + rest;
    CatTokens([KInt, TIdent(x)], PrintMoreParams(tail), rest);
    MoreIs(tail, rest);
    ParamStep(s, x, off, rest1);
    var sym := Sym(x, Variable(off, true));
    assert ParamSyms(ps, off) == [sym] + ParamSyms(tail, off + 4);
    if tail == [] {
      assert ParamSyms(ps, off) == [sym];
    } else {
      var s2 := s.(toks := PrintParams(tail) + rest, syms := s.syms + [sym]);
      ParamsParse(s2, tail, off + 4, rest);
      assert s.syms + [sym] + ParamSyms(tail, off + 4) == s.syms + ([sym] + ParamSyms(tail, off + 4));
    }
  }

  lemma MoreIs(ps: seq<string>, rest: seq<Token>)
    ensures var t := PrintMoreParams(ps) + rest;
      if ps == [] then t == [RParen] + rest
      else t == [Comma] + (PrintParams(ps) + rest) && t[1..] == PrintParams(ps) + rest
  {
    if ps != [] {
      var more := PrintMoreParams(ps[1..]);
      assert PrintParams(ps) == [KInt, TIdent(ps[0])] + more && PrintMoreParams(ps) == [Comma, KInt,
        TIdent(ps[0])] + more;
      MoreTokens(ps[0], more, rest);
    }
  }

  lemma MoreTokens(x: string, more: seq<Token>, rest: seq<Token>)
    ensures var t := [Comma, KInt, TIdent(x)] + more + rest; var u := [KInt, TIdent(x)] + more + rest;
      t == [Comma] + u && t[1..] == u
  {
  }

  lemma {:induction false} ParamsFound(syms: seq<Sym>, ps: seq<string>, off: int, x: string)
    ensures var k := FindSym(syms + ParamSyms(ps, off), x); var i := Lookup(ParamNames(ps), x);
      k == if i >= 0 then Some(Variable(off + 4 * i, true)) else FindSym(syms, x)
    decreases |ps|
  {
    hide FindSym, Lookup, ParamNames;
    if ps == [] {
      assert syms + [] == syms;
    } else {
      var last := |ps| - 1;
      ParamSymsLast(ps, off);
      var front, sym := ParamSyms(ps[..last], off), Sym(ps[last], Variable(off + 4 * last, true));
      assert syms + ParamSyms(ps, off) == (syms + front) + [sym];
      FindLast(syms + front, ps[last], x, sym.kind);
      ParamsFound(syms, ps[..last], off, x);
      ParamNamesLast(ps);
      LookupLast(ParamNames(ps[..last]), Name(ps[last], true), x);
    }
  }

  lemma ParamNamesLast(ps: seq<string>)
    requires ps != []
    ensures ParamNames(ps) == ParamNames(ps[..|ps| - 1]) + [Name(ps[|ps| - 1], true)]
  {
  }

  lemma {:induction false} ParamSymsLast(ps: seq<string>, off: int)
    requires ps != []
    ensures var last := |ps| - 1;
      ParamSyms(ps, off) == ParamSyms(ps[..last], off) + [Sym(ps[last], Variable(off + 4 * last, true))]
    decreases |ps|
  {
    var last := |ps| - 1;
    if last > 0 {
      ParamSymsLast(ps[1..], off + 4);
      assert ps[1..][..last - 1] == ps[..last][1..];
    }
  }

  /** With its parameters added, the symbol table stands for the scope of the function. */
  lemma ParamsStand(syms: seq<Sym>, ps: seq<string>, known: Entries, fns: set<string>)
    requires Stands(syms, FuncEnv([]), known, fns)
    ensures Stands(syms + ParamSyms(ps, 8), FuncEnv(ps), known, fns)
  {
    hide FindSym;
    var all := syms + ParamSyms(ps, 8);
    forall x | InScope(FuncEnv(ps), x) || x !in fns
      ensures FindSym(all, x) == VarKind(FuncEnv(ps), x)
    {
      ParamsFound(syms, ps, 8, x);
      if x !in fns { assert FindSym(syms, x) == VarKind(FuncEnv([]), x); }
    }
    forall f | f in fns && !InScope(FuncEnv(ps), f)
      ensures FuncKind(FindSym(all, f), known, f)
    {
      ParamsFound(syms, ps, 8, f);
      assert !InScope(FuncEnv([]), f);
    }
  }

  // ----- functions -----

  function Entry(f: Func, pos: nat): Sym { Sym(f.name, Function(Some(pos))) }

  /** The state after function `f` has been read; `z.known` already holds its entry. */
  function AfterF(s: PState, f: Func, known: Entries, rest: seq<Token>): PState
  {
    var env := ScopeAll(f.body, FuncEnv(f.params));
    PState(rest, s.code + CodeF(f, |s.code|, known), s.status, s.syms + [Entry(f, |s.code|), Entry(f, |s.code|)],
           env.lo, env.deepest, s.loops, s.patches + SitesAll(f.body, |s.code| + 9, known))
  }

  /** What the parser needs of a function: names resolve and the tables are large enough. */
  predicate FitsF(f: Func, fns: set<string>, syms: nat)
  {
    && ResolvedAll(f.body, FuncEnv(f.params), fns, false)
    && DepthAll(f.body) <= MAX_LOOPS && syms + 2 + |f.params| + MarksAll(f.body) <= MAX_SYMBOLS
  }

  ghost predicate SetsF(s: PState, f: Func, z: View, rest: seq<Token>)
  {
    && s.toks == PrintF(f) + rest && s.status.Ok? && s.loops == []
    && Stands(s.syms, FuncEnv([]), z.known, z.fns) && f.name in z.fns && f.name !in z.known
    && FindSym(s.syms, f.name).None?
    && FitsF(f, z.fns, |s.syms|) && |s.code| + SizeF(f) <= MAX_CODE && |s.patches| + MarksAll(f.body) <= MAX_PATCHES
  }

  /** The entry of `f` is known from its header on, also to its own body. */
  function Within(z: View, f: Func, pos: nat): View { View(FuncEnv(f.params), z.known[f.name := pos], z.fns) }

  lemma EntryStands(syms: seq<Sym>, f: Func, pos: nat, known: Entries, fns: set<string>)
    requires Stands(syms, FuncEnv([]), known, fns) && f.name in fns
    ensures Stands(syms + [Entry(f, pos)], FuncEnv([]), known[f.name := pos], fns)
  {
    hide FindSym;
    forall x
      ensures FindSym(syms + [Entry(f, pos)], x) == if x == f.name then Some(Function(Some(pos))) else FindSym(syms, x)
    {
      FindLast(syms, f.name, x, Function(Some(pos)));
    }
  }

  lemma FuncPrint(f: Func, rest: seq<Token>)
    ensures var body := PrintSs(f.body) + rest; var a := PrintParams(f.params) + ([LBrace] + body);
      && PrintF(f) + rest == [KInt, TIdent(f.name)] + ([LParen] + a) && ([LParen] + a)[1..] == a
      && ([LBrace] + body)[1..] == body
      && (PrintParams(f.params) + ([LBrace] + body))[0] == (if f.params == [] then RParen else KInt)
  {
    var body := PrintSs(f.body) + rest;
    var b := [LBrace] + PrintSs(f.body);
    CatTokens([LBrace], PrintSs(f.body), rest);
    CatTokens(PrintParams(f.params), b, rest);
    CatTokens([KInt, TIdent(f.name), LParen], PrintParams(f.params) + b, rest);
    var a := PrintParams(f.params) + ([LBrace] + body);
    assert [KInt, TIdent(f.name), LParen] + a == [KInt, TIdent(f.name)] + ([LParen] + a);
  }

  lemma SignatureParses(s: PState, ps: seq<string>, rest: seq<Token>)
    requires s.toks == [LParen] + (PrintParams(ps) + rest) && |s.syms| + |ps| <= MAX_SYMBOLS
    ensures ParseSignature(s) == (s.(toks := rest, syms := s.syms + ParamSyms(ps, 8), lo := 0, deepest := 0), true)
  {
    hide ParseParams, ParamSyms;
    var s1 := s.(toks := PrintParams(ps) + rest, lo := 0, deepest := 0);
    assert s.toks[1..] == s1.toks;
    assert ([RParen] + rest)[1..] == rest;
    if ps == [] {
      assert s.syms + ParamSyms(ps, 8) == s.syms by { NoParams(s.syms); }
    } else {
      ParamsParse(s1, ps, 8, rest);
    }
  }

  lemma NoParams(syms: seq<Sym>)
    ensures syms + ParamSyms([], 8) == syms
  {
  }

  lemma FrameHole(k: seq<Byte>, b: seq<Byte>, frame: nat)
    ensures Patched(k + Asm(Prologue(256)) + b, |k| + 5, frame) == k + Asm(Prologue(frame)) + b
    ensures |Asm(Prologue(256))| == 9
  {
    hide Enc, Asm, Patched, Wrap;
    var head := Enc(Push(Ebp)) + (Enc(Mov(Ebp, Esp)) + [0x81, 0xEC]);
    PrologueBytes(256);
    PrologueBytes(frame);
    SetWord256(k + head, b, frame);
    assert |head| == 5 by { HeadLength(); }
    assert k + (head + Le32(Wrap(256))) + b == k + head + Le32(Wrap(256)) + b;
    assert k + (head + Le32(Wrap(frame))) + b == k + head + Le32(Wrap(frame)) + b;
  }

  lemma HeadLength()
    ensures |Enc(Push(Ebp)) + (Enc(Mov(Ebp, Esp)) + [0x81, 0xEC])| == 5
  {
  }

  lemma PrologueBytes(frame: nat)
    ensures Asm(Prologue(frame)) == Enc(Push(Ebp)) + (Enc(Mov(Ebp, Esp)) + [0x81, 0xEC]) + Le32(Wrap(frame))
  {
    SubBytes(Wrap(frame));
    hide Enc, Asm, Wrap;
    Asm3(Push(Ebp), Mov(Ebp, Esp), SubImm(Esp, Wrap(frame)));
    assert Enc(Push(Ebp)) + (Enc(Mov(Ebp, Esp)) + ([0x81, 0xEC] + Le32(Wrap(frame))))
        == Enc(Push(Ebp)) + (Enc(Mov(Ebp, Esp)) + [0x81, 0xEC]) + Le32(Wrap(frame));
  }

  lemma SubBytes(w: Word)
    ensures Enc(SubImm(Esp, w)) == [0x81, 0xEC] + Le32(w)
  {
  }

  lemma SetWord256(a: seq<Byte>, b: seq<Byte>, v: int)
    ensures Patched(a + Le32(Wrap(256)) + b, |a|, v) == a + Le32(Wrap(v)) + b
  {
    var code := a + Le32(Wrap(256)) + b;
    assert code[..|a|] == a && code[|a| + 4..] == b;
  }

  /** At the top level of a function no break is open, so its code has no holes for breaks. */
  lemma NoOpenBreaks(pos: nat, ss: Stmts, z: View)
    requires ResolvedAll(ss, z.env, z.fns, false)
    ensures CodeSs(ss, z.env, pos, Exits(None, 0), z.known) == CodeSs(ss, z.env, pos, Exits(Some(0), 0), z.known)
  {
    hide CodeSs, ResolvedAll, BreaksAll;
    var pre := seq(pos, _ => 0);
    BreaksAllNone(ss, z.env, z.fns, pos);
    FillAll(pre, ss, z.env, 0, z, [], 0, false);
    var a, b := CodeSs(ss, z.env, pos, Exits(None, 0), z.known), CodeSs(ss, z.env, pos, Exits(Some(0), 0), z.known);
    assert (pre + a + [])[pos..] == a && (pre + b + [])[pos..] == b;
  }

  ghost predicate SetsBody(s: PState, f: Func, z: View, rest: seq<Token>)
  {
    && s.toks == [LBrace] + (PrintSs(f.body) + rest) && s.loops == [] && z.env == FuncEnv(f.params)
    && ReadyS(s, z, SizeF(f), MarksAll(f.body), DepthAll(f.body), 0) && ResolvedAll(f.body, z.env, z.fns, false)
  }

  function AfterBody(s: PState, f: Func, z: View, rest: seq<Token>): PState
  {
    var env := ScopeAll(f.body, z.env);
    s.(toks := rest, code := s.code + CodeF(f, |s.code|, z.known), syms := SymsAll(f.body, z.env, s.syms),
       lo := env.lo, deepest := env.deepest, patches := s.patches + SitesAll(f.body, |s.code| + 9, z.known))
  }

  /** The statements of the body, after the prologue. */
  lemma BodyStatements(s: PState, f: Func, z: View, rest: seq<Token>) returns (s1: PState)
    requires SetsBody(s, f, z, rest)
    ensures s1 == s.(toks := PrintSs(f.body) + rest, code := s.code + Asm(Prologue(256)))
    ensures s1 == Expect(Emit(s, Asm(Prologue(256))), LBrace) && SetsAll(s1, f.body, z, false, rest)
    ensures |Asm(Prologue(256))| == 9
  {
    hide Stands, Asm, Emit, SizeSs, MarksAll, DepthAll, BreaksAll, ResolvedAll, PrintSs, FuncEnv;
    FrameHole([], [], 0);
    EmitFits(s, Asm(Prologue(256)));
    assert s.toks[1..] == PrintSs(f.body) + rest;
    s1 := s.(toks := PrintSs(f.body) + rest, code := s.code + Asm(Prologue(256)));
    BreaksAllNone(f.body, z.env, z.fns, |s1.code|);
  }

  lemma AfterAllIs(s: PState, ss: Stmts, z: View, rest: seq<Token>)
    requires s.loops == [] && BreaksAll(ss, |s.code|) == []
    ensures var env := ScopeAll(ss, z.env);
      AfterAll(s, ss, z, rest)
        == s.(toks := rest, code := s.code + CodeSs(ss, z.env, |s.code|, Exits(None, 0), z.known),
        syms := SymsAll(ss, z.env, s.syms), lo := env.lo, deepest := env.deepest,
          patches := s.patches + SitesAll(ss, |s.code|, z.known))
  {
    hide CodeSs, SymsAll, ScopeAll, SitesAll, BreaksAll;
  }

  /** Prologue with its frame filled in, body and epilogue are the code of the function. */
  lemma BodyBytes(k: seq<Byte>, f: Func, z: View)
    requires z.env == FuncEnv(f.params) && ResolvedAll(f.body, z.env, z.fns, false)
    ensures var body := CodeSs(f.body, z.env, |k| + 9, Exits(None, 0), z.known);
      var tail := Enc(MovImm(0)) + Asm(Epilogue);
      Patched(k + Asm(Prologue(256)) + body, |k| + 5, FuncFrame(f)) + tail == k + CodeF(f, |k|, z.known)
  {
    hide CodeSs, ResolvedAll, Enc, Asm, FuncFrame, FuncEnv, Patched;
    var body, tail := CodeSs(f.body, z.env, |k| + 9, Exits(None, 0), z.known), Enc(MovImm(0)) + Asm(Epilogue);
    var pro := Asm(Prologue(FuncFrame(f)));
    FrameHole(k, body, FuncFrame(f));
    NoOpenBreaks(|k| + 9, f.body, z);
    Cat(k + pro, body, tail);
    Cat(k, pro, body + tail);
  }

  lemma BodyParses(s: PState, f: Func, z: View, rest: seq<Token>)
    requires SetsBody(s, f, z, rest)
    ensures ParseBody(s) == AfterBody(s, f, z, rest)
  {
    hide Stands, ReadyS, Asm, Emit, Enc, CodeSs, CodeF, SizeSs, MarksAll, DepthAll, BreaksAll, ResolvedAll, PrintSs,
         FuncEnv, SymsAll, ScopeAll, SitesAll, AfterAll, Parser.ParseStmts, Patched, FrameSize, SetsAll;
    var s1 := BodyStatements(s, f, z, rest);
    AllParse(s1, f.body, z, false, rest);
    BreaksAllNone(f.body, z.env, z.fns, |s1.code|);
    AfterAllIs(s1, f.body, z, [RBrace] + rest);
    assert ([RBrace] + rest)[1..] == rest;
    BodyBytes(s.code, f, z);
    BodyRoom(s, f, z);
    var s2 := Expect(Parser.ParseStmts(s1), RBrace);
    EmitFits(s2.(code := Patched(s2.code, |s.code| + 5, FuncFrame(f))), Enc(MovImm(0)) + Asm(Epilogue));
  }

  lemma BodyRoom(s: PState, f: Func, z: View)
    requires ReadyS(s, z, SizeF(f), MarksAll(f.body), DepthAll(f.body), 0)
    ensures |s.code| + 9 + SizeSs(f.body) + |Enc(MovImm(0)) + Asm(Epilogue)| <= MAX_CODE
  {
    hide Stands, Asm, SizeSs, MarksAll, DepthAll;
    LenEpilogue();
  }

  lemma FunctionIs(s: PState, x: string, rest: seq<Token>)
    requires s.toks == [KInt, TIdent(x)] + rest && FindSym(s.syms, x).None? && |s.syms| < MAX_SYMBOLS
    ensures var kind := Function(Some(|s.code|)); var s2 := s.(toks := rest, syms := s.syms + [Sym(x, kind)]);
      var (s3, named) := ParseSignature(s2);
      ParseFunction(s) == if !named then s3
        else
          var s4 := ParseBody(s3);
          AddSym(s4.(syms := if |s2.syms| <= |s4.syms| then s4.syms[..|s2.syms|] else s4.syms), x, kind)
  {
    hide ParseType, ParseSignature, ParseBody, FindSym;
    TypeName(s, x, rest);
  }

  /** Header and parameters are read; the body is next. */
  lemma FunctionBody(s: PState, f: Func, z: View, rest: seq<Token>) returns (s2: PState, s3: PState)
    requires SetsF(s, f, z, rest)
    ensures s2
         == s.(toks := [LParen] + (PrintParams(f.params) + ([LBrace] + (PrintSs(f.body) + rest))),
               syms := s.syms + [Entry(f, |s.code|)])
    ensures s3
         == s2.(toks := [LBrace] + (PrintSs(f.body) + rest), syms := s2.syms + ParamSyms(f.params, 8),
                lo := 0, deepest := 0)
    ensures s.toks == [KInt, TIdent(f.name)] + s2.toks && ParseSignature(s2) == (s3, true)
    ensures SetsBody(s3, f, Within(z, f, |s.code|), rest)
  {
    hide Stands, FindSym, ParseSignature, PrintParams, PrintSs, ResolvedAll, MarksAll, DepthAll, SizeSs, FuncEnv,
         ParamSyms;
    FuncPrint(f, rest);
    s2 := s.(toks := [LParen] + (PrintParams(f.params) + ([LBrace] + (PrintSs(f.body) + rest))),
      syms := s.syms + [Entry(f, |s.code|)]);
    SignatureParses(s2, f.params, [LBrace] + (PrintSs(f.body) + rest));
    s3 := ParseSignature(s2).0;
    EntryStands(s.syms, f, |s.code|, z.known, z.fns);
    ParamsStand(s2.syms, f.params, z.known[f.name := |s.code|], z.fns);
    ParamCount(f.params, 8);
    FuncEnvFields(f.params);
  }

  lemma FuncEnvFields(ps: seq<string>)
    ensures FuncEnv(ps).lo == 0 && FuncEnv(ps).deepest == 0
  {
  }

  lemma {:induction false} ParamCount(ps: seq<string>, off: int)
    ensures |ParamSyms(ps, off)| == |ps|
    decreases ps
  {
    if ps != [] { ParamCount(ps[1..], off + 4); }
  }

  lemma FunctionParses(s: PState, f: Func, z: View, rest: seq<Token>)
    requires SetsF(s, f, z, rest)
    ensures ParseFunction(s) == AfterF(s, f, z.known[f.name := |s.code|], rest)
  {
    hide Stands, ReadyS, FindSym, ParseSignature, ParseBody, ParseFunction, PrintParams, PrintSs, ResolvedAll,
         MarksAll, DepthAll, SizeSs, FuncEnv, ParamSyms, CodeF, SymsAll, ScopeAll, SitesAll;
    var s2, s3 := FunctionBody(s, f, z, rest);
    FunctionIs(s, f.name, s2.toks);
    var z1 := Within(z, f, |s.code|);
    BodyParses(s3, f, z1, rest);
    BodySyms(s3, f, z1);
    var s4 := ParseBody(s3);
    assert s2.syms <= s3.syms <= s4.syms;
    assert s4.syms[..|s2.syms|] == s2.syms;
    assert s.syms + [Entry(f, |s.code|)] + [Entry(f, |s.code|)] == s.syms + [Entry(f, |s.code|), Entry(f, |s.code|)];
  }

  lemma BodySyms(s: PState, f: Func, z: View)
    requires ReadyS(s, z, SizeF(f), MarksAll(f.body), DepthAll(f.body), 0) && ResolvedAll(f.body, z.env, z.fns, false)
    ensures s.syms <= SymsAll(f.body, z.env, s.syms)
  {
    hide Stands, SymsAll, ResolvedAll, MarksAll, DepthAll, SizeSs;
    SymsAllStand(f.body, s.syms, z, false);
  }

  // ----- programs -----

  function SizeP(p: Program): nat { if p == [] then 0 else SizeF(p[0]) + SizeP(p[1..]) }

  function MarksP(p: Program): nat { if p == [] then 0 else MarksAll(p[0].body) + MarksP(p[1..]) }

  predicate FitsP(p: Program, fns: set<string>, syms: nat)
  {
    p == [] || (FitsF(p[0], fns, syms) && FitsP(p[1..], fns, syms + 2))
  }

  /** The code as it is before calls to later functions are filled in. */
  function Holed(p: Program, pos: nat, known: Entries): seq<Byte>
  {
    if p == [] then []
    else
      var known1 := known[p[0].name := pos];
      CodeF(p[0], pos, known1) + Holed(p[1..], pos + SizeF(p[0]), known1)
  }

  function SitesP(p: Program, pos: nat, known: Entries): seq<Patch>
  {
    if p == [] then []
    else
      var known1 := known[p[0].name := pos];
      SitesAll(p[0].body, pos + 9, known1) + SitesP(p[1..], pos + SizeF(p[0]), known1)
  }

  ghost predicate SetsP(s: PState, p: Program, known: Entries, fns: set<string>)
  {
    && s.toks == PrintP(p) && s.status.Ok? && s.loops == [] && Stands(s.syms, FuncEnv([]), known, fns)
    && Distinct(p)
    && (forall f :: f in p ==> f.name in fns && f.name !in known && FindSym(s.syms, f.name).None?)
    && FitsP(p, fns, |s.syms|) && |s.code| + SizeP(p) <= MAX_CODE && |s.patches| + MarksP(p) <= MAX_PATCHES
  }

  lemma FirstSets(s: PState, p: Program, known: Entries, fns: set<string>)
    requires p != [] && SetsP(s, p, known, fns)
    ensures SetsF(s, p[0], View(FuncEnv([]), known, fns), PrintP(p[1..]))
  {
    hide Stands, FindSym, FitsF, PrintF, SizeF, MarksAll;
    assert p[0] in p;
  }

  lemma RestSets(s: PState, p: Program, known: Entries, fns: set<string>)
    requires p != [] && SetsP(s, p, known, fns)
    ensures var known1 := known[p[0].name := |s.code|];
      SetsP(AfterF(s, p[0], known1, PrintP(p[1..])), p[1..], known1, fns)
  {
    hide Stands, FindSym, FitsF, PrintF, SizeF, MarksAll, CodeF, ScopeAll, SitesAll, FuncEnv;
    var f, rest := p[0], p[1..];
    var known1 := known[f.name := |s.code|];
    var s1 := AfterF(s, f, known1, PrintP(rest));
    EntryStands(s.syms, f, |s.code|, known, fns);
    EntryStands(s.syms + [Entry(f, |s.code|)], f, |s.code|, known1, fns);
    assert s1.syms == s.syms + [Entry(f, |s.code|)] + [Entry(f, |s.code|)];
    assert known1[f.name := |s.code|] == known1;
    SitesAllBound(f.body, |s.code| + 9, known1);
    forall g | g in rest
      ensures g.name in fns && g.name !in known1 && FindSym(s1.syms, g.name).None?
    {
      var i :| 0 <= i < |rest| && rest[i] == g;
      assert p[i + 1] == g && p[0].name != p[i + 1].name;
      FindLast(s.syms, f.name, g.name, Function(Some(|s.code|)));
      FindLast(s.syms + [Entry(f, |s.code|)], f.name, g.name, Function(Some(|s.code|)));
    }
    forall i, j | 0 <= i < j < |rest|
      ensures rest[i].name != rest[j].name
    {
      assert p[i + 1].name != p[j + 1].name;
    }
  }

  lemma ProgramStep(s: PState, p: Program, known: Entries, fns: set<string>)
    requires p != [] && SetsP(s, p, known, fns)
    ensures ParseProgram(s) == ParseProgram(AfterF(s, p[0], known[p[0].name := |s.code|], PrintP(p[1..])))
  {
    hide Stands, FindSym, FitsP, PrintParams, PrintSs, SizeP, MarksP, ParseFunction, AfterF, FuncEnv;
    FirstSets(s, p, known, fns);
    FunctionParses(s, p[0], View(FuncEnv([]), known, fns), PrintP(p[1..]));
    FuncPrint(p[0], PrintP(p[1..]));
  }

  lemma {:induction false} ProgramParses(s: PState, p: Program, known: Entries, fns: set<string>)
    requires SetsP(s, p, known, fns)
    ensures var r := ParseProgram(s);
      && r.status.Ok? && r.code == s.code + Holed(p, |s.code|, known)
      && r.patches == s.patches + SitesP(p, |s.code|, known)
      && Stands(r.syms, FuncEnv([]), known + EntriesFrom(p, |s.code|), fns)
    decreases p
  {
    hide Stands, FindSym, FitsP, FuncEnv, SizeP, MarksP, PrintF, CodeF, SizeF, SitesAll, ScopeAll, ParseFunction,
         EntriesFrom, Distinct;
    if p == [] {
      NoEntries(|s.code|);
      assert s.code + [] == s.code && s.patches + [] == s.patches;
      assert known + map[] == known;
    } else {
      ProgramStep(s, p, known, fns);
      RestSets(s, p, known, fns);
      var f, rest, pos := p[0], p[1..], |s.code|;
      var known1 := known[f.name := pos];
      var s1 := AfterF(s, f, known1, PrintP(rest));
      ProgramParses(s1, rest, known1, fns);
      Cat(s.code, CodeF(f, pos, known1), Holed(rest, pos + SizeF(f), known1));
      CatPatches(s.patches, SitesAll(f.body, pos + 9, known1), SitesP(rest, pos + SizeF(f), known1));
      EntriesJoin(p, pos, known);
    }
  }

  lemma NoEntries(pos: nat)
    ensures EntriesFrom([], pos) == map[]
  {
  }

  lemma EntriesJoin(p: Program, pos: nat, known: Entries)
    requires p != [] && Distinct(p)
    ensures known[p[0].name := pos] + EntriesFrom(p[1..], pos + SizeF(p[0])) == known + EntriesFrom(p, pos)
  {
    hide SizeF;
    EntriesNames(p[1..], pos + SizeF(p[0]));
    FirstIsNew(p);
    assert p[0].name !in FnNames(p[1..]);
  }

  lemma FirstIsNew(p: Program)
    requires p != [] && Distinct(p)
    ensures forall g :: g in p[1..] ==> g.name != p[0].name
  {
    forall g | g in p[1..]
      ensures g.name != p[0].name
    {
      var i :| 0 <= i < |p[1..]| && p[1..][i] == g;
      assert p[i + 1] == g;
    }
  }

  function FnNames(p: Program): set<string> { set f | f in p :: f.name }

  lemma {:induction false} EntriesNames(p: Program, pos: nat)
    ensures EntriesFrom(p, pos).Keys == FnNames(p)
    ensures forall x :: x in EntriesFrom(p, pos) ==> EntriesFrom(p, pos)[x] >= 0
    decreases p
  {
    hide SizeF;
    if p != [] {
      EntriesNames(p[1..], pos + SizeF(p[0]));
      assert p == [p[0]] + p[1..];
      assert FnNames(p) == FnNames(p[1..]) + {p[0].name};
    }
  }

  /** Filling in all calls gives the compiled program. */
  lemma {:induction false} FillP(p: Program, pos: nat, known: Entries, fns: set<string>, syms: nat, full: Entries)
    requires Distinct(p) && FitsP(p, fns, syms) && fns <= full.Keys
    requires forall x :: x in known ==> x in full && full[x] == known[x]
    requires forall x :: x in EntriesFrom(p, pos) ==> x in full && full[x] == EntriesFrom(p, pos)[x]
    ensures Fills(pos, Holed(p, pos, known), CodeP(p, pos, full), SitesP(p, pos, known), full)
    decreases p
  {
    hide Fills, CodeF, SizeF, SitesAll, FindSym, FuncEnv, ResolvedAll, MarksAll, DepthAll;
    if p == [] {
      Same(pos, [], full);
    } else {
      var f, rest := p[0], p[1..];
      var known1 := known[f.name := pos];
      var p1 := pos + SizeF(f);
      assert EntriesFrom(p, pos)[f.name] == pos;
      EntriesNames(rest, p1);
      FirstIsNew(p);
      assert f.name !in FnNames(rest);
      FillF(f, pos, View(FuncEnv([]), known1, fns), full);
      assert Distinct(rest) by { forall i,
        j | 0 <= i < j < |rest| ensures rest[i].name != rest[j].name { assert p[i + 1].name != p[j + 1].name; } }
      FillP(rest, p1, known1, fns, syms + 2, full);
      Both(pos, CodeF(f, pos, known1), CodeF(f, pos, full), SitesAll(f.body, pos + 9, known1),
           Holed(rest, p1, known1), CodeP(rest, p1, full), SitesP(rest, p1, known1), full);
    }
  }

  lemma {:induction false} ResolveIs(s: PState, sites: seq<Patch>, full: Entries)
    requires forall p :: p in sites ==> p.name in full
    requires forall x :: x in full ==> FuncKind(FindSym(s.syms, x), full, x)
    ensures Resolve(s, sites) == s.(code := SetCalls(s.code, sites, full))
    decreases sites
  {
    hide FindSym, Patched;
    if sites != [] {
      var p := sites[0];
      assert p in sites;
      ResolveIs(s.(code := Patched(s.code, p.site, full[p.name] - (p.site + 4))), sites[1..], full);
    }
  }

  /** What the parser accepts: function names are distinct, all names resolve, no variable hides a function where it
      is called, breaks and continues stand in loops, elses are unambiguous, the tables are large enough. */
  predicate Parsable(p: Program)
  {
    Distinct(p) && FitsP(p, FnNames(p), 0) && SizeP(p) <= MAX_CODE && MarksP(p) <= MAX_PATCHES
  }

  lemma StartSets(p: Program)
    requires Parsable(p)
    ensures SetsP(Start(PrintP(p)), p, map[], FnNames(p))
  {
    hide FitsP, SizeP, MarksP, PrintP;
  }

  /** Reading the text of a program yields exactly the compiled program. */
  lemma ParseCompiles(p: Program)
    requires Parsable(p)
    ensures Parse(PrintP(p)).status.Ok? && Parse(PrintP(p)).code == Compile(p)
  {
    hide Stands, FitsP, SizeP, MarksP, PrintP, ParseProgram, Resolve, Fills, Holed, CodeP, SitesP, FindSym, SetCalls,
         FuncEnv;
    var fns, full := FnNames(p), EntriesFrom(p, 0);
    StartSets(p);
    ProgramParses(Start(PrintP(p)), p, map[], fns);
    EntriesNames(p, 0);
    assert map[] + full == full;
    FillP(p, 0, map[], fns, 0, full);
    var s := ParseProgram(Start(PrintP(p)));
    FillsAll(Holed(p, 0, map[]), CodeP(p, 0, full), SitesP(p, 0, map[]), full);
    assert [] + Holed(p, 0, map[]) == Holed(p, 0, map[]) && [] + SitesP(p, 0, map[]) == SitesP(p, 0, map[]);
    StandsFns(s.syms, full, fns);
    ResolveIs(s, s.patches, full);
  }

  lemma FillsAll(c0: seq<Byte>, c1: seq<Byte>, sites: seq<Patch>, full: Entries)
    requires Fills(0, c0, c1, sites, full)
    ensures SetCalls(c0, sites, full) == c1 && (forall p :: p in sites ==> p.name in full)
  {
    hide SetCalls;
    assert [] + c0 + [] == c0 && [] + c1 + [] == c1;
  }

  lemma StandsFns(syms: seq<Sym>, full: Entries, fns: set<string>)
    requires Stands(syms, FuncEnv([]), full, fns) && full.Keys == fns
    ensures forall x :: x in full ==> FuncKind(FindSym(syms, x), full, x)
  {
    hide FindSym;
  }

  /** From text to run: a call into the code that the parser emitted for the text of `p` returns
      what the source semantics of `p` says; with room for one activation more than the run has
      units of fuel the stack does not run out. */
  lemma ParsedCallReturns(p: Program, f: string, vs: seq<Word>, c: Cpu, fuel: nat, v: Word) returns (t: State)
    requires Parsable(p) && WfP(p) && Arrived(EntriesFrom(p, 0), f, vs, c)
    requires Invoke(p, f, vs, fuel) == Returned(Some(v))
    ensures Parse(PrintP(p)).status.Ok? && Goes(Parse(PrintP(p)).code, Live(c), t)
    ensures CameBack(c, t, v, |vs|, Frames.Deep(p, fuel + 1))
    ensures c.limit + Frames.Deep(p, fuel + 1) <= c.esp ==> t.Live?
  {
    hide *;
    ParseCompiles(p);
    t := CompiledCallReturns(p, f, vs, c, fuel, v);
  }
}
