/** The single-pass parser: it reads tokens and emits code directly, patching
    displacements once their targets are known. Each function takes the compiler state
    before a construct to the state after it. */
module Parser {
  import opened Basics
  import opened X86
  import opened Machine
  import opened Cupid
  import opened Codegen
  import opened Syntax

  const MAX_CODE := 0x10_0000
  const MAX_SYMBOLS := 4096
  const MAX_PATCHES := 4096
  const MAX_LOOPS := 128
  const MAX_BREAKS := 64

  /** `Outside`: the input uses a construct that is not modelled. */
  datatype Status = Ok | Error | Outside

  datatype Kind = Variable(off: int, scalar: bool) | Function(entry: Option<nat>)

  datatype Sym = Sym(name: string, kind: Kind)

  /** An open loop: where continue goes, and the break displacements to patch. */
  datatype OpenLoop = OpenLoop(cont: nat, breaks: seq<nat>)

  /** A call displacement at `site` to be patched with the entry of `name`. */
  datatype Patch = Patch(site: nat, name: string)

  datatype PState = PState(toks: seq<Token>, code: seq<Byte>, status: Status, syms: seq<Sym>,
                           lo: int, deepest: int, loops: seq<OpenLoop>, patches: seq<Patch>)

  // ----- tokens -----

  function Peek(s: PState): Option<Token> { if s.toks == [] then None else Some(s.toks[0]) }

  predicate Sees(s: PState, t: Token) { Peek(s) == Some(t) }

  /** Drops a token; at the end of the input there is none to drop. */
  function Shift(s: PState): (r: PState)
    ensures |r.toks| <= |s.toks| && (s.toks != [] ==> |r.toks| < |s.toks|)
  {
    if s.toks == [] then s else s.(toks := s.toks[1..])
  }

  function Reject(s: PState): PState { if s.status.Ok? then s.(status := Error) else s }

  function GoOutside(s: PState): PState { if s.status.Ok? then s.(status := Outside) else s }

  function Expect(s: PState, t: Token): (r: PState)
    ensures |r.toks| <= |s.toks|
  {
    if Sees(s, t) then Shift(s) else Reject(Shift(s))
  }

  // ----- emission -----

  /** Appends bytes as far as they fit the code buffer. */
  function Emit(s: PState, bytes: seq<Byte>): (r: PState)
    ensures r.toks == s.toks
  {
    if |s.code| + |bytes| <= MAX_CODE then s.(code := s.code + bytes)
    else Reject(s.(code := s.code + bytes[..if MAX_CODE < |s.code| then 0 else MAX_CODE - |s.code|]))
  }

  /** Overwrites the 32-bit word at `off`. */
  function Patched(code: seq<Byte>, off: nat, v: int): (r: seq<Byte>)
    ensures |r| == |code|
  {
    if off + 4 <= |code| then code[..off] + Le32(Wrap(v)) + code[off + 4..] else code
  }

  /** Lets the displacement at `site` lead to the current position. */
  function PatchJump(s: PState, site: nat): (r: PState)
    ensures r.toks == s.toks && |r.code| == |s.code|
  {
    s.(code := Patched(s.code, site, |s.code| - (site + 4)))
  }

  function PatchJumps(s: PState, sites: seq<nat>): (r: PState)
    ensures r.toks == s.toks && |r.code| == |s.code|
    decreases sites
  {
    if sites == [] then s else PatchJumps(PatchJump(s, sites[0]), sites[1..])
  }

  // ----- symbols -----

  function FindSym(syms: seq<Sym>, x: string): Option<Kind>
  {
    if syms == [] then None
    else if syms[|syms| - 1].name == x then Some(syms[|syms| - 1].kind)
    else FindSym(syms[..|syms| - 1], x)
  }

  function AddSym(s: PState, x: string, kind: Kind): (r: PState)
    ensures r.toks == s.toks
  {
    if |s.syms| >= MAX_SYMBOLS then Reject(s) else s.(syms := s.syms + [Sym(x, kind)])
  }

  function AddPatch(s: PState, site: nat, x: string): (r: PState)
    ensures r.toks == s.toks
  {
    if |s.patches| >= MAX_PATCHES then s else s.(patches := s.patches + [Patch(site, x)])
  }

  // ----- expressions -----

  function BumpAt(off: int, up: bool): seq<Instr>
  {
    [LoadBp(Eax, Wrap(off)), if up then Inc(Eax) else Dec(Eax), StoreBp(Eax, Wrap(off))]
  }

  /** The call itself, after the arguments are on the stack in order. */
  function EmitCall(s: PState, f: string): (r: PState)
    ensures r.toks == s.toks
  {
    match FindSym(s.syms, f)
    case Some(Function(Some(entry))) => Emit(s, Enc(X86.Call(Rel(|s.code| + 5, entry))))
    case Some(Function(None)) => AddPatch(Emit(s, Enc(X86.Call(0))), |s.code| + 1, f)
    case Some(Variable(_, _)) => Reject(s)
    case None => AddPatch(Emit(AddSym(s, f, Function(None)), Enc(X86.Call(0))), |s.code| + 1, f)
  }

  /** An identifier that has just been read: a call or a variable. */
  function ParseIdent(s: PState, x: string): (r: PState)
    ensures |r.toks| <= |s.toks|
    decreases |s.toks|, 4
  {
    if Sees(s, LParen) then
      var s1 := Shift(s);
      var (s2, n) := if Sees(s1, RParen) then (s1, 0) else ParseArgs(s1, 0);
      var s3 := Emit(Expect(s2, RParen), Asm(Reverse(n, 0)));
      Emit(EmitCall(s3, x), Asm(PopArgs(n)))
    else
      match FindSym(s.syms, x)
      case None => Reject(s)
      case Some(Variable(off, scalar)) => Emit(s, Enc(if scalar then LoadBp(Eax, Wrap(off)) else LeaBp(Eax, Wrap(off))))
      case Some(Function(_)) => GoOutside(s)
  }

  /** One or more arguments, each pushed as soon as it is evaluated; `n` were pushed before. */
  function ParseArgs(s: PState, n: nat): (r: (PState, nat))
    ensures |r.0.toks| <= |s.toks|
    decreases |s.toks|, 3
  {
    var s1 := Emit(ParseExpr(s, 1), Enc(Push(Eax)));
    if Sees(s1, Comma) then ParseArgs(Shift(s1), n + 1) else (s1, n + 1)
  }

  function ParsePrimary(s: PState): (r: PState)
    ensures |r.toks| <= |s.toks|
    ensures s.status.Ok? && s.toks != [] ==> |r.toks| < |s.toks|
    decreases |s.toks|, 0
  {
    if !s.status.Ok? then s
    else
      var s1 := Shift(s);
      match Peek(s)
      case None => Reject(s1)
      case Some(TNum(v)) => Postfix(Emit(s1, Enc(MovImm(v))), None)
      case Some(TIdent(x)) =>
        Postfix(ParseIdent(s1, x), if Sees(s1, LParen) then None else FindSym(s1.syms, x))
      case Some(LParen) =>
        if Sees(s1, KInt) then GoOutside(s1)
        else Postfix(Expect(ParseExpr(s1, 1), RParen), None)
      case Some(TBang) => Postfix(Emit(ParsePrimary(s1), Asm(UnCode(LogNot))), None)
      case Some(TTilde) => Postfix(Emit(ParsePrimary(s1), Asm(UnCode(BitNot))), None)
      case Some(TBin(op)) =>
        if op == Sub then Postfix(Emit(ParsePrimary(s1), Asm(UnCode(Minus))), None)
        else if op == Mul || op == BitAnd then GoOutside(s1)
        else Reject(s1)
      case Some(TInc(up)) => ParsePrefix(s1, up)
      case Some(Other) => GoOutside(s1)
      case Some(_) => Reject(s1)
  }

  /** ++ or -- before a name. */
  function ParsePrefix(s: PState, up: bool): (r: PState)
    ensures |r.toks| <= |s.toks|
  {
    var s1 := Shift(s);
    match Peek(s)
    case Some(TIdent(x)) =>
      (match FindSym(s.syms, x)
       case None => Reject(s1)
       case Some(Variable(off, _)) => Postfix(Emit(s1, Asm(BumpAt(off, up))), None)
       case Some(Function(_)) => Postfix(s1, None))
    case _ => Reject(s1)
  }

  /** ++ or -- after a primary; it takes effect only on a scalar variable. */
  function Postfix(s: PState, lvalue: Option<Kind>): (r: PState)
    ensures |r.toks| <= |s.toks|
  {
    if !s.status.Ok? then s
    else match Peek(s)
      case Some(TInc(up)) =>
        (match lvalue
         case Some(Variable(off, true)) =>
           Emit(Shift(s), Enc(Push(Eax)) + (Asm(BumpAt(off, up)) + Enc(Pop(Eax))))
         case _ => Shift(s))
      case Some(LBrack) => GoOutside(s)
      case Some(Other) => GoOutside(s)
      case _ => s
  }

  function ParseExpr(s: PState, min: nat): (r: PState)
    ensures |r.toks| <= |s.toks|
    ensures s.status.Ok? && s.toks != [] ==> |r.toks| < |s.toks|
    decreases |s.toks|, 2
  {
    if !s.status.Ok? then s else ParseTernary(ParseOperators(ParsePrimary(s), min), min)
  }

  /** Binary operators of at least precedence `min`, left to right. */
  function ParseOperators(s: PState, min: nat): (r: PState)
    ensures |r.toks| <= |s.toks|
    decreases |s.toks|, 1
  {
    if !s.status.Ok? then s
    else match Peek(s)
      case Some(TBin(op)) =>
        if Prec(op) < min then s
        else
          var s1 := ParseExpr(Emit(Shift(s), Enc(Push(Eax))), Prec(op) + 1);
          ParseOperators(Emit(s1, Enc(Pop(Ebx)) + Asm(BinTail(op))), min)
      case _ => s
  }

  function ParseTernary(s: PState, min: nat): (r: PState)
    ensures |r.toks| <= |s.toks|
    decreases |s.toks|, 1
  {
    if !s.status.Ok? || min > 1 || !Sees(s, Question) then s
    else
      var jz := |s.code| + 2;
      var s1 := Emit(Shift(s), Enc(Alu(TEST, Eax, Eax)) + Enc(Jcc(E, 0)));
      var s2 := ParseExpr(s1, 1);
      var jmp := |s2.code|;
      var s3 := PatchJump(Emit(s2, Enc(Jmp(0))), jz + 2);
      if !Sees(s3, Colon) then Reject(Shift(s3))
      else PatchJump(ParseExpr(Shift(s3), 1), jmp + 1)
  }

  // ----- declarations and assignments -----

  /** `int`; pointers and other types are not modelled. */
  function ParseType(s: PState): (r: PState)
    ensures |r.toks| <= |s.toks| && (s.toks != [] ==> |r.toks| < |s.toks|)
  {
    var s1 := Shift(s);
    match Peek(s)
    case Some(KInt) => if Sees(s1, TBin(Mul)) || Sees(s1, Other) then GoOutside(s1) else s1
    case Some(Other) => GoOutside(s1)
    case _ => Reject(s1)
  }

  /** Takes `n` bytes below the current local offset. */
  function Alloc(s: PState, n: nat): PState
  {
    s.(lo := s.lo - n, deepest := Min(s.deepest, s.lo - n))
  }

  /** Array sizes whose byte count would not fit are not modelled. */
  const MAX_ARRAY := 0x1000_0000

  function ParseDecl(s: PState): (r: PState)
    ensures |r.toks| <= |s.toks|
  {
    match Peek(s)
    case Some(TIdent(x)) =>
      var s1 := Shift(s);
      if Sees(s1, LBrack) then ParseArrayDecl(Shift(s1), x)
      else
        var s2 := AddSym(Alloc(s1, 4), x, Variable(s1.lo - 4, true));
        var store := Enc(StoreBp(Eax, Wrap(s1.lo - 4)));
        Expect(if Sees(s2, TAsg(None)) then Emit(ParseExpr(Shift(s2), 1), store)
               else Emit(s2, Enc(MovImm(0)) + store), Semi)
    case _ => Reject(Shift(s))
  }

  function ParseArrayDecl(s: PState, x: string): (r: PState)
    ensures |r.toks| <= |s.toks|
  {
    match Peek(s)
    case Some(TNum(v)) =>
      var s1 := Expect(Shift(s), RBrack);
      if Sees(s1, LBrack) || v >= MAX_ARRAY then GoOutside(s1)
      else
        var n := Align4(4 * v);
        Expect(AddSym(Alloc(s1, n), x, Variable(s1.lo - n, false)), Semi)
    case _ => Reject(Shift(s))
  }

  function UpdateAt(off: int, op: BinOp): seq<Byte>
  {
    Enc(Push(Eax)) + Enc(LoadBp(Eax, Wrap(off))) + (Enc(Mov(Ebx, Eax)) + Enc(Pop(Eax)) + Asm(BinTail(op)))
  }

  /** `= e` or `op= e` after the name; the semicolon is left. */
  function ParseAssign(s: PState, x: string, op: Option<BinOp>): (r: PState)
    ensures |r.toks| <= |s.toks|
  {
    match FindSym(s.syms, x)
    case None => Reject(s)
    case Some(kind) =>
      var s1 := ParseExpr(Shift(s), 1);
      match kind
      case Variable(off, _) =>
        Emit(s1, (if op.None? then [] else UpdateAt(off, op.value)) + Enc(StoreBp(Eax, Wrap(off))))
      case Function(_) => GoOutside(s1)
  }

  /** ++ or -- as a statement; an unknown name is passed over silently. */
  function EmitBump(s: PState, x: string, up: bool): (r: PState)
    ensures r.toks == s.toks
  {
    match FindSym(s.syms, x)
    case Some(Variable(off, _)) => Emit(s, Asm(BumpAt(off, up)))
    case _ => s
  }

  // ----- loops -----

  /** Beyond the nesting limit a loop is not recorded. */
  function OpenLoopAt(s: PState, cont: nat): (r: PState)
    ensures r.toks == s.toks && r.code == s.code
  {
    if |s.loops| < MAX_LOOPS then s.(loops := s.loops + [OpenLoop(cont, [])]) else s
  }

  /** Lets the breaks of the loop opened at depth `d` lead here. */
  function CloseLoop(s: PState, d: nat): (r: PState)
    ensures r.toks == s.toks
  {
    if d < |s.loops| then PatchJumps(s, s.loops[d].breaks).(loops := s.loops[..d]) else s
  }

  function ParseBreak(s: PState): (r: PState)
    ensures |r.toks| <= |s.toks|
  {
    var d := |s.loops|;
    Expect(
      if d == 0 then Reject(s)
      else
        var s1 := Emit(s, Enc(Jmp(0)));
        var open := s.loops[d - 1];
        if |open.breaks| < MAX_BREAKS then
          s1.(loops := s.loops[d - 1 := open.(breaks := open.breaks + [|s.code| + 1])])
        else Reject(s1),
      Semi)
  }

  function ParseContinue(s: PState): (r: PState)
    ensures |r.toks| <= |s.toks|
  {
    var d := |s.loops|;
    Expect(if d == 0 then Reject(s) else Emit(s, Enc(Jmp(Rel(|s.code| + 5, s.loops[d - 1].cont)))), Semi)
  }

  // ----- statements -----

  /** A parenthesised condition and the test of its value; returns the displacement to patch. */
  function ParseCondition(s: PState): (r: (PState, nat))
    ensures |r.0.toks| <= |s.toks|
  {
    var s1 := Expect(ParseExpr(Expect(s, LParen), 1), RParen);
    (Emit(s1, Enc(CmpImm(Eax, 0)) + Enc(Jcc(E, 0))), |s1.code| + 5)
  }

  function ParseStmt(s: PState): (r: PState)
    ensures |r.toks| <= |s.toks|
    ensures s.status.Ok? && s.toks != [] ==> |r.toks| < |s.toks|
    decreases |s.toks|, 5
  {
    if !s.status.Ok? then s
    else
      var s1 := Shift(s);
      match Peek(s)
      case Some(KInt) =>
        var s2 := ParseType(s);
        if Sees(s2, LParen) then GoOutside(s2) else ParseDecl(s2)
      case Some(KIf) => ParseIf(s1)
      case Some(KWhile) => ParseWhile(s1)
      case Some(KFor) => ParseFor(s1)
      case Some(KReturn) => ParseReturn(s1)
      case Some(KBreak) => ParseBreak(s1)
      case Some(KContinue) => ParseContinue(s1)
      case Some(LBrace) => ParseBlock(s1)
      case Some(Semi) => s1
      case Some(TIdent(x)) => ParseIdentStmt(s1, x)
      case Some(TBin(Mul)) => GoOutside(s1)
      case Some(Other) => GoOutside(s1)
      case _ => Expect(ParseExpr(s, 1), Semi)
  }

  function ParseReturn(s: PState): (r: PState)
    ensures |r.toks| <= |s.toks|
  {
    Emit(Expect(if Sees(s, Semi) then s else ParseExpr(s, 1), Semi), Asm(Epilogue))
  }

  function ParseIdentStmt(s: PState, x: string): (r: PState)
    ensures |r.toks| <= |s.toks|
    decreases |s.toks|, 4
  {
    match Peek(s)
    case Some(TAsg(op)) => Expect(ParseAssign(s, x, op), Semi)
    case Some(TInc(up)) => Expect(EmitBump(Shift(s), x, up), Semi)
    case Some(LBrack) => GoOutside(s)
    case Some(Other) => GoOutside(s)
    case _ => Expect(ParseIdent(s, x), Semi)
  }

  function ParseIf(s: PState): (r: PState)
    ensures |r.toks| <= |s.toks|
    decreases |s.toks|, 6
  {
    var (s1, site) := ParseCondition(s);
    var s2 := ParseStmt(s1);
    if Sees(s2, KElse) then
      var s3 := Emit(Shift(s2), Enc(Jmp(0)));
      PatchJump(ParseStmt(PatchJump(s3, site)), |s2.code| + 1)
    else PatchJump(s2, site)
  }

  function ParseWhile(s: PState): (r: PState)
    ensures |r.toks| <= |s.toks|
    decreases |s.toks|, 6
  {
    var (s1, site) := ParseCondition(OpenLoopAt(s, |s.code|));
    var s2 := ParseStmt(s1);
    var s3 := Emit(s2, Enc(Jmp(Rel(|s2.code| + 5, |s.code|))));
    CloseLoop(PatchJump(s3, site), |s.loops|)
  }

  /** The header of a for loop up to its first semicolon. */
  function ParseStart(s: PState): (r: PState)
    ensures |r.toks| <= |s.toks|
  {
    match Peek(s)
    case Some(Semi) => Shift(s)
    case Some(KInt) => ParseDecl(ParseType(s))
    case Some(Other) => GoOutside(s)
    case Some(TIdent(x)) =>
      var s1 := Shift(s);
      (match Peek(s1)
       case Some(TAsg(op)) => Expect(ParseAssign(s1, x, op), Semi)
       case _ => GoOutside(s1))
    case _ => GoOutside(s)
  }

  /** The step of a for loop. */
  function ParseStep(s: PState): (r: PState)
    ensures |r.toks| <= |s.toks|
  {
    match Peek(s)
    case Some(RParen) => s
    case Some(TIdent(x)) =>
      var s1 := Shift(s);
      (match Peek(s1)
       case Some(TAsg(op)) => ParseAssign(s1, x, op)
       case Some(TInc(up)) => EmitBump(Shift(s1), x, up)
       case _ => GoOutside(s1))
    case _ => GoOutside(s)
  }

  /** The condition of a for loop, if there is one, its test and the semicolon; returns the displacement to patch. */
  function ParseHead(s: PState): (r: (PState, Option<nat>))
    ensures |r.0.toks| <= |s.toks|
  {
    if Sees(s, Semi) then (Shift(s), None)
    else
      var s1 := ParseExpr(s, 1);
      (Expect(Emit(s1, Enc(CmpImm(Eax, 0)) + Enc(Jcc(E, 0))), Semi), Some(|s1.code| + 5))
  }

  /** The step of a for loop, which goes back to `test`; the test before it at `over` leads behind it. */
  function ParseSteps(s: PState, test: nat, over: nat): (r: PState)
    ensures |r.toks| <= |s.toks|
  {
    var s1 := Expect(ParseStep(s), RParen);
    PatchJump(Emit(s1, Enc(Jmp(Rel(|s1.code| + 5, test)))), over + 1)
  }

  /** Start, condition and step of a for loop: where they end, where the test leaves the loop, where the step begins. */
  function ParseHeader(s: PState): (r: (PState, Option<nat>, nat))
    ensures |r.0.toks| <= |s.toks|
  {
    var s1 := ParseStart(Expect(s, LParen));
    var (s2, site) := ParseHead(s1);
    var s3 := Emit(s2, Enc(Jmp(0)));
    (ParseSteps(OpenLoopAt(s3, |s3.code|), |s1.code|, |s2.code|), site, |s3.code|)
  }

  function ParseFor(s: PState): (r: PState)
    ensures |r.toks| <= |s.toks|
    decreases |s.toks|, 6
  {
    var (s1, site, inc) := ParseHeader(s);
    var s2 := ParseStmt(s1);
    var s3 := Emit(s2, Enc(Jmp(Rel(|s2.code| + 5, inc))));
    CloseLoop(if site.None? then s3 else PatchJump(s3, site.value), |s.loops|)
  }

  /** Statements up to a closing brace or the end of the input. */
  function ParseStmts(s: PState): (r: PState)
    ensures |r.toks| <= |s.toks|
    decreases |s.toks|, 6
  {
    if !s.status.Ok? || s.toks == [] || Sees(s, RBrace) then s else ParseStmts(ParseStmt(s))
  }

  /** A block closes its scope. */
  function ParseBlock(s: PState): (r: PState)
    ensures |r.toks| <= |s.toks|
    decreases |s.toks|, 7
  {
    var s1 := Expect(ParseStmts(s), RBrace);
    s1.(syms := if |s.syms| <= |s1.syms| then s1.syms[..|s.syms|] else s1.syms, lo := s.lo)
  }

  // ----- functions and programs -----

  /** Changes the innermost symbol called `x`. */
  function SetSym(syms: seq<Sym>, x: string, kind: Kind): seq<Sym>
  {
    if syms == [] then []
    else
      var last := |syms| - 1;
      if syms[last].name == x then syms[last := Sym(x, kind)] else SetSym(syms[..last], x, kind) + [syms[last]]
  }

  /** Parameters from offset `off` on, up to the closing parenthesis; false if a name is missing. */
  function ParseParams(s: PState, off: int): (r: (PState, bool))
    ensures |r.0.toks| <= |s.toks|
    decreases |s.toks|
  {
    var s1 := ParseType(s);
    match Peek(s1)
    case Some(TIdent(x)) =>
      var s2 := AddSym(Shift(s1), x, Variable(off, true));
      if Sees(s2, Comma) then ParseParams(Shift(s2), off + 4) else (s2, true)
    case _ => (Reject(Shift(s1)), false)
  }

  /** The parenthesised parameters; locals start over. */
  function ParseSignature(s: PState): (r: (PState, bool))
    ensures |r.0.toks| <= |s.toks|
  {
    var s1 := Expect(s, LParen).(lo := 0, deepest := 0);
    var (s2, named) := if Sees(s1, RParen) then (s1, true) else ParseParams(s1, 8);
    (if named then Expect(s2, RParen) else s2, named)
  }

  /** The body between prologue and epilogue; the frame size is patched once it is known. */
  function ParseBody(s: PState): (r: PState)
    ensures |r.toks| <= |s.toks|
  {
    var s1 := Emit(s, Asm(Prologue(256)));
    var s2 := Expect(ParseStmts(Expect(s1, LBrace)), RBrace);
    var frame := if s2.deepest <= 0 then FrameSize(s2.deepest) else 16;
    Emit(s2.(code := Patched(s2.code, |s.code| + 5, frame)), Enc(MovImm(0)) + Asm(Epilogue))
  }

  function ParseFunction(s: PState): (r: PState)
    ensures |r.toks| <= |s.toks| && (s.toks != [] ==> |r.toks| < |s.toks|)
  {
    var s1 := ParseType(s);
    match Peek(s1)
    case Some(TIdent(f)) =>
      var kind := Function(Some(|s1.code|));
      var s2 := if FindSym(s1.syms, f).None? then AddSym(Shift(s1), f, kind)
                else Shift(s1).(syms := SetSym(s1.syms, f, kind));
      var (s3, named) := ParseSignature(s2);
      if !named then s3
      else
        var s4 := ParseBody(s3);
        AddSym(s4.(syms := if |s2.syms| <= |s4.syms| then s4.syms[..|s2.syms|] else s4.syms), f, kind)
    case _ => Reject(Shift(s1))
  }

  /** Functions up to the end of the input. */
  function ParseProgram(s: PState): PState
    decreases |s.toks|
  {
    if !s.status.Ok? || s.toks == [] then s
    else if Sees(s, KInt) then
      if |s.toks| >= 3 && s.toks[1] != TBin(Mul) && s.toks[2] == LParen then ParseProgram(ParseFunction(s))
      else GoOutside(s)
    else if Sees(s, Other) then GoOutside(s)
    else Reject(s)
  }

  /** Patches recorded calls with the entries of the functions finally bound to their names. */
  function Resolve(s: PState, patches: seq<Patch>): PState
    decreases patches
  {
    if patches == [] then s
    else
      var p := patches[0];
      Resolve(match FindSym(s.syms, p.name)
              case Some(Function(Some(entry))) => s.(code := Patched(s.code, p.site, entry - (p.site + 4)))
              case _ => Reject(s),
              patches[1..])
  }

  function Start(toks: seq<Token>): PState { PState(toks, [], Ok, [], 0, 0, [], []) }

  function Parse(toks: seq<Token>): PState
  {
    var s := ParseProgram(Start(toks));
    Resolve(s, s.patches)
  }
}
