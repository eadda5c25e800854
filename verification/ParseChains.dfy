/** How operators group: the ten levels written out, and chains of operators of any length. */
module ParseChains {
  import opened Basics
  import opened X86
  import opened Machine
  import opened Cupid
  import opened Codegen
  import opened Syntax
  import opened Parser
  import opened ParseExprs

  /** The binary operators, from those that bind least to those that bind most tightly. */
  const LEVELS: seq<set<BinOp>> := [
    {LogOr}, {LogAnd}, {BitOr}, {BitXor}, {BitAnd}, {Eq, Ne}, {Lt, Gt, Le, Ge}, {ShL, ShR}, {Add, Sub}, {Mul, Div, Mod}]

  /** The first level from `i` on that holds `op`. */
  function LevelFrom(op: BinOp, i: nat): nat
    requires i <= |LEVELS|
    decreases |LEVELS| - i
  {
    if i == |LEVELS| || op in LEVELS[i] then i else LevelFrom(op, i + 1)
  }

  function Level(op: BinOp): nat { LevelFrom(op, 0) }

  lemma RowIs(op: BinOp, i: nat)
    requires i < |LEVELS|
    ensures op in LEVELS[i] <==> Prec(op) == i + 1
  {
    if i < 5 {
      if i == 0 {} else if i == 1 {} else if i == 2 {} else if i == 3 {} else {}
    } else {
      if i == 5 {} else if i == 6 {} else if i == 7 {} else if i == 8 {} else {}
    }
  }

  /** The parser's precedences are these levels. */
  lemma PrecIsLevel(op: BinOp)
    ensures Prec(op) == Level(op) + 1 && Level(op) < |LEVELS|
  {
    hide Prec;
    LevelSkips(op, 0);
  }

  lemma {:induction false} LevelSkips(op: BinOp, i: nat)
    requires i < Prec(op)
    ensures LevelFrom(op, i) + 1 == Prec(op) <= |LEVELS|
    decreases |LEVELS| - i
  {
    hide Prec;
    PrecBound(op);
    RowIs(op, i);
    if op !in LEVELS[i] { LevelSkips(op, i + 1); }
  }

  /** An operator and the operand after it. */
  datatype Link = Link(op: BinOp, e: Expr)

  /** The last of the operators of the lowest level. */
  function LastLowest(links: seq<Link>): (i: nat)
    requires links != []
    ensures i < |links| && (forall j :: 0 <= j < |links| ==> Level(links[i].op) <= Level(links[j].op))
    ensures forall j :: i < j < |links| ==> Level(links[i].op) < Level(links[j].op)
  {
    hide Level;
    if |links| == 1 then 0
    else
      var i := 1 + LastLowest(links[1..]);
      assert forall j :: 1 <= j < |links| ==> links[j] == links[1..][j - 1];
      if Level(links[i].op) <= Level(links[0].op) then i else 0
  }

  /** The tree of a chain: it splits at the last operator of the lowest level. */
  function Group(first: Expr, links: seq<Link>): Expr
    decreases |links|
  {
    if links == [] then first
    else
      var i := LastLowest(links);
      Bin(links[i].op, Group(first, links[..i]), Group(links[i].e, links[i + 1..]))
  }

  // ----- climbing -----

  /** Takes operators of at least precedence `min`, as the parser does; returns the tree and the links left. */
  function Climb(left: Expr, links: seq<Link>, min: nat): (r: (Expr, seq<Link>))
    ensures |r.1| <= |links|
    decreases |links|
  {
    if links == [] || Prec(links[0].op) < min then (left, links)
    else
      var (right, more) := Climb(links[0].e, links[1..], Prec(links[0].op) + 1);
      Climb(Bin(links[0].op, left, right), more, min)
  }

  /** How many links climbing takes. */
  function Reach(links: seq<Link>, min: nat): (n: nat)
    ensures n <= |links| && (n < |links| ==> Prec(links[n].op) < min)
    ensures forall j :: 0 <= j < n ==> Prec(links[j].op) >= min
  {
    if links == [] || Prec(links[0].op) < min then 0 else 1 + Reach(links[1..], min)
  }

  lemma {:induction false} ReachIs(links: seq<Link>, min: nat, n: nat)
    requires n <= |links| && (n < |links| ==> Prec(links[n].op) < min)
    requires forall j :: 0 <= j < n ==> Prec(links[j].op) >= min
    ensures Reach(links, min) == n
  {
    hide Prec;
    if n > 0 {
      assert forall j :: 0 <= j < |links| - 1 ==> links[1..][j] == links[j + 1];
      ReachIs(links[1..], min, n - 1);
    }
  }

  lemma GroupAt(first: Expr, links: seq<Link>, i: nat)
    requires links != [] && i == LastLowest(links)
    ensures Group(first, links) == Bin(links[i].op, Group(first, links[..i]), Group(links[i].e, links[i + 1..]))
  {
    hide LastLowest;
  }

  /** A first operator and those above it on its right can be grouped before the rest. */
  lemma {:induction false} Regroup(left: Expr, h: seq<Link>, t: seq<Link>)
    requires h != [] && (forall j :: 1 <= j < |h| ==> Level(h[0].op) < Level(h[j].op))
    requires t != [] ==> Level(t[0].op) <= Level(h[0].op)
    ensures Group(left, h + t) == Group(Bin(h[0].op, left, Group(h[0].e, h[1..])), t)
    decreases |t|
  {
    hide Level, Group, LastLowest;
    var all := h + t;
    var first := Bin(h[0].op, left, Group(h[0].e, h[1..]));
    if t == [] {
      assert all == h && h[..0] == [];
      LowestIs(h, 0);
      GroupAt(left, h, 0);
      NoGroup(left);
      NoGroup(first);
    } else {
      var j := LastLowest(t);
      LowestAfter(h, t, j);
      assert all[..|h| + j] == h + t[..j] && all[|h| + j + 1..] == t[j + 1..];
      GroupAt(left, all, |h| + j);
      GroupAt(first, t, j);
      Regroup(left, h, t[..j]);
    }
  }

  lemma NoGroup(first: Expr)
    ensures Group(first, []) == first
  {
  }

  lemma LowestIs(links: seq<Link>, i: nat)
    requires i < |links| && (forall j :: 0 <= j < |links| ==> Level(links[i].op) <= Level(links[j].op))
    requires forall j :: i < j < |links| ==> Level(links[i].op) < Level(links[j].op)
    ensures LastLowest(links) == i
  {
    hide Level;
    var k := LastLowest(links);
    assert Level(links[k].op) == Level(links[i].op);
  }

  lemma LowestAfter(h: seq<Link>, t: seq<Link>, j: nat)
    requires h != [] && t != [] && j == LastLowest(t) && Level(t[0].op) <= Level(h[0].op)
    requires forall i :: 1 <= i < |h| ==> Level(h[0].op) < Level(h[i].op)
    ensures LastLowest(h + t) == |h| + j
  {
    hide Level, LastLowest;
    var all := h + t;
    assert Level(t[j].op) <= Level(t[0].op);
    forall i | 0 <= i < |all|
      ensures Level(t[j].op) <= Level(all[i].op)
    {
    }
    LowestIs(all, |h| + j);
  }

  /** Climbing takes the links it reaches and groups them. */
  lemma {:induction false} ClimbGroups(left: Expr, links: seq<Link>, min: nat)
    ensures var n := Reach(links, min); Climb(left, links, min) == (Group(left, links[..n]), links[n..])
    decreases |links|
  {
    hide *;
    ClimbIs(left, links, min);
    if links == [] || Prec(links[0].op) < min {
      ReachNone(links, min);
      assert links[..0] == [] && links[0..] == links;
      NoGroup(left);
    } else {
      var op, rest, p := links[0].op, links[1..], Prec(links[0].op);
      var n1 := Reach(rest, p + 1);
      ClimbGroups(links[0].e, rest, p + 1);
      var right, more := Group(links[0].e, rest[..n1]), rest[n1..];
      ClimbGroups(Bin(op, left, right), more, min);
      Reached(links, min, n1, left);
    }
  }

  lemma ReachNone(links: seq<Link>, min: nat)
    requires links == [] || Prec(links[0].op) < min
    ensures Reach(links, min) == 0
  {
    hide Prec;
  }

  /** The links taken by the operand and by the loop after it, put together. */
  lemma Reached(links: seq<Link>, min: nat, n1: nat, left: Expr)
    requires links != [] && Prec(links[0].op) >= min && n1 == Reach(links[1..], Prec(links[0].op) + 1)
    ensures var more := links[1..][n1..];
      var n2 := Reach(more, min);
      && Reach(links, min) == 1 + n1 + n2 && links[1 + n1 + n2..] == more[n2..]
      && Group(left, links[..1 + n1 + n2])
         == Group(Bin(links[0].op, left, Group(links[0].e, links[1..][..n1])), more[..n2])
  {
    hide Prec, Group, Level, Reach;
    var rest := links[1..];
    var more := rest[n1..];
    var n2 := Reach(more, min);
    var h, t := links[..1 + n1], more[..n2];
    Cuts(links, n1, n2);
    ReachSum(links, min, n1, n2);
    Levels(h, t);
    Regroup(left, h, t);
  }

  lemma Cuts(links: seq<Link>, n1: nat, n2: nat)
    requires 1 + n1 + n2 <= |links|
    ensures var rest := links[1..];
      var more := rest[n1..];
      var h := links[..1 + n1];
      && h[1..] == rest[..n1] && links[..1 + n1 + n2] == h + more[..n2] && links[1 + n1 + n2..] == more[n2..]
      && h[0] == links[0] && (forall j :: 1 <= j < |h| ==> h[j] == rest[j - 1]) && (more != [] ==> more[0] == rest[n1])
  {
  }

  lemma ReachSum(links: seq<Link>, min: nat, n1: nat, n2: nat)
    requires links != [] && Prec(links[0].op) >= min && n1 == Reach(links[1..], Prec(links[0].op) + 1)
    requires n2 == Reach(links[1..][n1..], min)
    ensures Reach(links, min) == 1 + n1 + n2
  {
    hide Prec, Reach;
    var rest := links[1..];
    assert forall j :: 1 <= j < |links| ==> links[j] == rest[j - 1];
    assert forall j :: 1 + n1 <= j < |links| ==> links[j] == rest[n1..][j - 1 - n1];
    ReachIs(links, min, 1 + n1 + n2);
  }

  lemma Levels(h: seq<Link>, t: seq<Link>)
    requires h != [] && (forall j :: 1 <= j < |h| ==> Prec(h[j].op) >= Prec(h[0].op) + 1)
    requires t != [] ==> Prec(t[0].op) < Prec(h[0].op) + 1
    ensures forall j :: 1 <= j < |h| ==> Level(h[0].op) < Level(h[j].op)
    ensures t != [] ==> Level(t[0].op) <= Level(h[0].op)
  {
    hide Prec, Level;
    forall j | 0 <= j < |h|
      ensures Prec(h[j].op) == Level(h[j].op) + 1
    {
      PrecIsLevel(h[j].op);
    }
    if t != [] { PrecIsLevel(t[0].op); }
  }

  // ----- parsing chains -----

  /** The text of the links: operands that are not single units stand in parentheses. */
  function Toks(links: seq<Link>): seq<Token>
  {
    if links == [] then [] else [TBin(links[0].op)] + (Print(links[0].e, 11) + Toks(links[1..]))
  }

  function LinkSize(links: seq<Link>): nat
  {
    if links == [] then 0 else 1 + SizeE(links[0].e) + 1 + Len(BinTail(links[0].op)) + LinkSize(links[1..])
  }

  function LinkCalls(links: seq<Link>): nat { if links == [] then 0 else Calls(links[0].e) + LinkCalls(links[1..]) }

  predicate LinksResolved(links: seq<Link>, z: View)
  {
    forall j :: 0 <= j < |links| ==> Resolved(links[j].e, z.env, z.fns)
  }

  /** The links are read once each. */
  lemma {:induction false} ClimbSizes(left: Expr, links: seq<Link>, min: nat, z: View)
    requires Resolved(left, z.env, z.fns) && LinksResolved(links, z)
    ensures var (e, more) := Climb(left, links, min);
      && SizeE(e) + LinkSize(more) == SizeE(left) + LinkSize(links)
      && Calls(e) + LinkCalls(more) == Calls(left) + LinkCalls(links)
      && Resolved(e, z.env, z.fns) && LinksResolved(more, z)
    decreases |links|
  {
    hide Prec, SizeE, Calls, Resolved, BinTail, Len;
    if links != [] && Prec(links[0].op) >= min {
      var op := links[0].op;
      ClimbSizes(links[0].e, links[1..], Prec(op) + 1, z);
      var (right, more) := Climb(links[0].e, links[1..], Prec(op) + 1);
      BinSizes(op, left, right, z);
      ClimbSizes(Bin(op, left, right), more, min, z);
    }
  }

  lemma BinSizes(op: BinOp, l: Expr, r: Expr, z: View)
    requires Resolved(l, z.env, z.fns) && Resolved(r, z.env, z.fns)
    ensures var e := Bin(op, l, r);
      && SizeE(e) == SizeE(l) + 1 + SizeE(r) + 1 + Len(BinTail(op)) && Calls(e) == Calls(l) + Calls(r)
      && Resolved(e, z.env, z.fns)
  {
    hide BinTail, Len;
  }

  /** What may follow a chain: it is not another operator. */
  predicate Stops(rest: seq<Token>) { Tame(rest) && FirstPrec(rest) == 0 }

  lemma ToksTame(links: seq<Link>, rest: seq<Token>)
    requires Stops(rest)
    ensures var t := Toks(links) + rest; Tame(t) && FirstPrec(t) == if links == [] then 0 else Prec(links[0].op)
  {
    hide Prec, Print;
    if links == [] { assert Toks(links) + rest == rest; }
  }

  /** The state in which the operand after the first operator is read. */
  lemma RightSide(s: PState, left: Expr, links: seq<Link>, z: View, rest: seq<Token>) returns (s2: PState)
    requires links != [] && Ready(s, z, SizeE(left) + LinkSize(links), Calls(left) + LinkCalls(links))
    requires Resolved(left, z.env, z.fns)
    ensures var s1 := After(s, left, z, Toks(links) + rest);
      s1.status.Ok? && Sees(s1, TBin(links[0].op)) && s2 == Emit(Shift(s1), Enc(Push(Eax)))
    ensures s2.toks == Print(links[0].e, 11) + (Toks(links[1..]) + rest)
    ensures Ready(s2, z, SizeE(links[0].e) + LinkSize(links[1..]), Calls(links[0].e) + LinkCalls(links[1..]))
    ensures Pushed(s, left, z, s2)
  {
    hide Stands, Enc, Print, SizeE, Calls, Resolved, BinTail, Len, After, Toks, Emit, Pushed;
    var text := Toks(links) + rest;
    LinkText(links, rest);
    var s1 := After(s, left, z, text);
    AfterHas(s, left, z, text);
    ReadyAfter(s, left, z, text, LinkSize(links), LinkCalls(links));
    EmitFits(Shift(s1), Enc(Push(Eax)));
    s2 := Emit(Shift(s1), Enc(Push(Eax)));
    PushedIs(s, left, z, text, s2);
  }

  lemma LinkText(links: seq<Link>, rest: seq<Token>)
    requires links != []
    ensures var text := Toks(links) + rest;
      text != [] && text[0] == TBin(links[0].op) && text[1..] == Print(links[0].e, 11) + (Toks(links[1..]) + rest)
  {
    hide Print;
  }

  lemma PushedIs(s: PState, l: Expr, z: View, text: seq<Token>, t: PState)
    requires t == Shift(After(s, l, z, text)).(code := After(s, l, z, text).code + Enc(Push(Eax)))
    ensures Pushed(s, l, z, t)
  {
    hide Enc, CodeE, SitesE, SymsE;
  }

  /** `t` is `s` with the code of `l` and a push emitted. */
  ghost predicate Pushed(s: PState, l: Expr, z: View, t: PState)
  {
    t == s.(toks := t.toks, code := s.code + CodeE(l, z.env, |s.code|, z.known) + Enc(Push(Eax)),
            patches := s.patches + SitesE(l, |s.code|, z.known), syms := SymsE(l, s.syms))
  }

  lemma OperatorDone(s: PState, op: BinOp, l: Expr, r: Expr, z: View, s2: PState, rest: seq<Token>)
    requires Pushed(s, l, z, s2) && |s.code| + SizeE(Bin(op, l, r)) <= MAX_CODE
    ensures Emit(After(s2, r, z, rest), Enc(Pop(Ebx)) + Asm(BinTail(op))) == After(s, Bin(op, l, r), z, rest)
  {
    hide Enc, Asm, BinTail, CodeE, SitesE, SymsE, SizeE, Calls;
    var e := Bin(op, l, r);
    BinUnfolds(e, z.env, |s.code|, z.known, s.syms);
    var cl, cr := CodeE(l, z.env, |s.code|, z.known), CodeE(r, z.env, |s2.code|, z.known);
    var last := Enc(Pop(Ebx)) + Asm(BinTail(op));
    EmitFits(After(s2, r, z, rest), last);
    assert s.code + cl + Enc(Push(Eax)) + cr + last == s.code + (cl + Enc(Push(Eax)) + (cr + last));
    var a, b := SitesE(l, |s.code|, z.known), SitesE(r, |s2.code|, z.known);
    assert s.patches + a + b == s.patches + (a + b);
  }

  lemma ReadyLess(s: PState, z: View, size: nat, calls: nat, size1: nat, calls1: nat)
    requires Ready(s, z, size, calls) && size1 <= size && calls1 <= calls
    ensures Ready(s, z, size1, calls1) && |s.code| + size1 <= MAX_CODE
  {
    hide Stands;
  }

  /** Whatever follows, the parser's loop emits the code of the tree that climbing builds. */
  lemma {:induction false} LoopParses(s: PState, left: Expr, links: seq<Link>, min: nat, z: View, rest: seq<Token>)
    requires Ready(s, z, SizeE(left) + LinkSize(links), Calls(left) + LinkCalls(links)) && min >= 1
    requires Resolved(left, z.env, z.fns) && LinksResolved(links, z) && Stops(rest)
    ensures var (e, more) := Climb(left, links, min);
      ParseOperators(After(s, left, z, Toks(links) + rest), min) == After(s, e, z, Toks(more) + rest)
    decreases |links|, 1
  {
    hide *;
    ToksTame(links, rest);
    AfterHas(s, left, z, Toks(links) + rest);
    ClimbIs(left, links, min);
    if links == [] || Prec(links[0].op) < min {
      OperatorsStop(After(s, left, z, Toks(links) + rest), min);
    } else {
      OperatorParses(s, left, links, min, z, rest);
    }
  }

  lemma ClimbIs(left: Expr, links: seq<Link>, min: nat)
    ensures Climb(left, links, min)
         == if links == [] || Prec(links[0].op) < min then (left, links)
            else
              var (right, more) := Climb(links[0].e, links[1..], Prec(links[0].op) + 1);
              Climb(Bin(links[0].op, left, right), more, min)
  {
  }

  lemma {:induction false} OperatorParses(s: PState, left: Expr, links: seq<Link>, min: nat, z: View, rest: seq<Token>)
    requires Ready(s, z, SizeE(left) + LinkSize(links), Calls(left) + LinkCalls(links)) && min >= 1
    requires Resolved(left, z.env, z.fns) && LinksResolved(links, z) && Stops(rest)
    requires links != [] && Prec(links[0].op) >= min
    ensures var (right, more) := Climb(links[0].e, links[1..], Prec(links[0].op) + 1);
      var (e, last) := Climb(Bin(links[0].op, left, right), more, min);
      ParseOperators(After(s, left, z, Toks(links) + rest), min) == After(s, e, z, Toks(last) + rest)
    decreases |links|, 0
  {
    hide ParseOperators, ParsePrimary, ParseExpr, ParseTernary, After, Prec, SizeE, Calls, Resolved, Ready, Print,
         BinTail, Len, Enc, Asm, Emit, Stops, FirstPrec, Tame, Pushed, Climb, Toks;
    var op, e1, links1 := links[0].op, links[0].e, links[1..];
    var p := Prec(op);
    PrecBound(op);
    var (right, more) := Climb(e1, links1, p + 1);
    var e := Bin(op, left, right);
    var s2 := RightSide(s, left, links, z, rest);
    ClimbSizes(e1, links1, p + 1, z);
    BinSizes(op, left, right, z);
    RightParses(s2, e1, links1, z, rest, p + 1);
    ReadyLess(s, z, SizeE(left) + LinkSize(links), Calls(left) + LinkCalls(links), SizeE(e), Calls(e));
    OperatorStep(After(s, left, z, Toks(links) + rest), op, min);
    OperatorDone(s, op, left, right, z, s2, Toks(more) + rest);
    LoopParses(s, e, more, min, z, rest);
  }

  /** The operand after an operator takes the tighter operators behind it. */
  lemma {:induction false} RightParses(s: PState, e1: Expr, links: seq<Link>, z: View, rest: seq<Token>, min: nat)
    requires Ready(s, z, SizeE(e1) + LinkSize(links), Calls(e1) + LinkCalls(links)) && min > 1
    requires Resolved(e1, z.env, z.fns) && LinksResolved(links, z) && Stops(rest)
    requires s.toks == Print(e1, 11) + (Toks(links) + rest)
    ensures var (e, more) := Climb(e1, links, min); ParseExpr(s, min) == After(s, e, z, Toks(more) + rest)
    decreases |links|, 2
  {
    hide *;
    OperandRead(s, e1, links, z, rest);
    LoopParses(s, e1, links, min, z, rest);
    var (e, more) := Climb(e1, links, min);
    NoTernary(s, After(s, e, z, Toks(more) + rest), min);
  }

  lemma OperandRead(s: PState, e1: Expr, links: seq<Link>, z: View, rest: seq<Token>)
    requires Ready(s, z, SizeE(e1) + LinkSize(links), Calls(e1) + LinkCalls(links)) && Resolved(e1, z.env, z.fns)
    requires s.toks == Print(e1, 11) + (Toks(links) + rest) && Stops(rest)
    ensures s.status.Ok? && ParsePrimary(s) == After(s, e1, z, Toks(links) + rest)
  {
    hide ParsePrimary, After, Ready, Print, SizeE, Calls, Resolved, Tame, FirstPrec, Toks, Stops;
    ToksTame(links, rest);
    ReadyLess(s, z, SizeE(e1) + LinkSize(links), Calls(e1) + LinkCalls(links), SizeE(e1), Calls(e1));
    PrimaryParses(s, e1, z, Toks(links) + rest);
    OkStays(s, e1, z, rest);
  }

  lemma NoTernary(s: PState, t: PState, min: nat)
    requires s.status.Ok? && ParseOperators(ParsePrimary(s), min) == t && min > 1
    ensures ParseExpr(s, min) == t
  {
    hide ParseOperators, ParsePrimary;
  }

  // ----- the grouping of every chain -----

  /** The text and room of a chain of operands and operators. */
  ghost predicate ChainAt(s: PState, first: Expr, links: seq<Link>, z: View, rest: seq<Token>, size: nat, calls: nat)
  {
    && s.toks == Print(first, 11) + (Toks(links) + rest)
    && Ready(s, z, SizeE(first) + LinkSize(links) + size, Calls(first) + LinkCalls(links) + calls)
    && Resolved(first, z.env, z.fns) && LinksResolved(links, z)
  }

  lemma ChainLoop(s: PState, first: Expr, links: seq<Link>, z: View, rest: seq<Token>, size: nat, calls: nat)
    requires ChainAt(s, first, links, z, rest, size, calls) && Stops(rest)
    ensures s.status.Ok? && ParseOperators(ParsePrimary(s), 1) == After(s, Group(first, links), z, rest)
    ensures var e := Group(first, links);
      && Resolved(e, z.env, z.fns) && SizeE(e) == SizeE(first) + LinkSize(links)
      && Calls(e) == Calls(first) + LinkCalls(links)
  {
    hide ParseOperators, ParsePrimary, After, Ready, Print, SizeE, Calls, Resolved, Group, Climb, Stops, Prec;
    ReadyLess(s, z, SizeE(first) + LinkSize(links) + size, Calls(first) + LinkCalls(links) + calls,
              SizeE(first) + LinkSize(links), Calls(first) + LinkCalls(links));
    OperandRead(s, first, links, z, rest);
    LoopParses(s, first, links, 1, z, rest);
    ClimbGroups(first, links, 1);
    ClimbSizes(first, links, 1, z);
    ReachIs(links, 1, |links|);
    assert links[..|links|] == links && links[|links|..] == [];
    assert Toks([]) + rest == rest;
  }

  /** a op1 b op2 c ...: the code is that of the tree which splits at the last operator of the lowest level. */
  lemma ChainParses(s: PState, first: Expr, links: seq<Link>, z: View, rest: seq<Token>)
    requires ChainAt(s, first, links, z, rest, 0, 0) && Ends(rest)
    ensures ParseExpr(s, 1) == After(s, Group(first, links), z, rest)
  {
    hide ParseOperators, ParsePrimary, Ready, Print, SizeE, Calls, Resolved, Group, ChainAt;
    ChainLoop(s, first, links, z, rest, 0, 0);
    AfterHas(s, Group(first, links), z, rest);
  }

  /** chain ? t : f: every binary operator binds more tightly than the conditional. */
  lemma ChainTernary(s: PState, first: Expr, links: seq<Link>, t: Expr, f: Expr, z: View, rest: seq<Token>)
    requires Resolved(t, z.env, z.fns) && Resolved(f, z.env, z.fns) && Ends(rest)
    requires ChainAt(s, first, links, z, [Question] + (Print(t, 0) + ([Colon] + (Print(f, 0) + rest))),
                     8 + SizeE(t) + 5 + SizeE(f), Calls(t) + Calls(f))
    ensures ParseExpr(s, 1) == After(s, Cond(Group(first, links), t, f), z, rest)
  {
    hide ParseOperators, ParsePrimary, ParseTernary, Ready, Print, Group, After, SizeE, Calls, Resolved;
    var rest1 := [Question] + (Print(t, 0) + ([Colon] + (Print(f, 0) + rest)));
    ChainLoop(s, first, links, z, rest1, 8 + SizeE(t) + 5 + SizeE(f), Calls(t) + Calls(f));
    var e := Cond(Group(first, links), t, f);
    CondWhole(Group(first, links), t, f, z);
    TernaryParses(s, e, z, rest);
  }

  lemma CondWhole(c: Expr, t: Expr, f: Expr, z: View)
    requires Resolved(c, z.env, z.fns) && Resolved(t, z.env, z.fns) && Resolved(f, z.env, z.fns)
    ensures var e := Cond(c, t, f);
      && Resolved(e, z.env, z.fns) && SizeE(e) == SizeE(c) + (8 + SizeE(t) + 5 + SizeE(f))
      && Calls(e) == Calls(c) + (Calls(t) + Calls(f))
  {
  }

  // ----- two operators -----

  /** `op` stands in a lower level of the list than `op1`. */
  predicate Below(op: BinOp, op1: BinOp)
  {
    exists i, j :: 0 <= i < j < |LEVELS| && op in LEVELS[i] && op1 in LEVELS[j]
  }

  predicate SameLevel(op: BinOp, op1: BinOp) { exists i :: 0 <= i < |LEVELS| && op in LEVELS[i] && op1 in LEVELS[i] }

  lemma LevelAt(op: BinOp, i: nat)
    requires i < |LEVELS| && op in LEVELS[i]
    ensures Level(op) == i
  {
    hide Prec, Level;
    PrecIsLevel(op);
    RowIs(op, i);
  }

  /** Any two operators stand in different levels or in the same one. */
  lemma LevelsCover(op: BinOp, op1: BinOp)
    ensures Below(op, op1) || Below(op1, op) || SameLevel(op, op1)
  {
    hide Prec;
    LevelHolds(op);
    LevelHolds(op1);
  }

  lemma LevelHolds(op: BinOp)
    ensures Level(op) < |LEVELS| && op in LEVELS[Level(op)]
  {
    hide Prec, Level;
    PrecIsLevel(op);
    RowIs(op, Level(op));
  }

  lemma LevelOrder(op: BinOp, op1: BinOp)
    ensures Below(op, op1) ==> Level(op) < Level(op1)
    ensures SameLevel(op, op1) ==> Level(op) == Level(op1)
  {
    hide Level;
    if Below(op, op1) {
      var i, j :| 0 <= i < j < |LEVELS| && op in LEVELS[i] && op1 in LEVELS[j];
      LevelAt(op, i);
      LevelAt(op1, j);
    }
    if SameLevel(op, op1) {
      var i :| 0 <= i < |LEVELS| && op in LEVELS[i] && op1 in LEVELS[i];
      LevelAt(op, i);
      LevelAt(op1, i);
    }
  }

  /** a op b op1 c groups to the right exactly if op1 is in a higher level, and to the left otherwise. */
  lemma PairGroups(a: Expr, op: BinOp, b: Expr, op1: BinOp, c: Expr)
    ensures Below(op, op1) ==> Group(a, [Link(op, b), Link(op1, c)]) == Bin(op, a, Bin(op1, b, c))
    ensures Below(op1, op) || SameLevel(op, op1) ==>
      Group(a, [Link(op, b), Link(op1, c)]) == Bin(op1, Bin(op, a, b), c)
  {
    hide Level, Below, SameLevel;
    LevelOrder(op, op1);
    LevelOrder(op1, op);
    var links := [Link(op, b), Link(op1, c)];
    GroupOne(b, op1, c);
    GroupOne(a, op, b);
    if Level(op) < Level(op1) {
      LowestIs(links, 0);
      assert links[..0] == [] && links[1..] == [Link(op1, c)];
    } else {
      LowestIs(links, 1);
      assert links[..1] == [Link(op, b)] && links[2..] == [];
    }
  }

  lemma GroupOne(a: Expr, op: BinOp, b: Expr)
    ensures Group(a, [Link(op, b)]) == Bin(op, a, b)
  {
    var links := [Link(op, b)];
    LowestIs(links, 0);
    assert links[..0] == [] && links[1..] == [];
  }

  /** Three operands and two operators, in the words of the list of levels. */
  lemma PairParses(s: PState, a: Expr, op: BinOp, b: Expr, op1: BinOp, c: Expr, z: View, rest: seq<Token>)
    requires s.toks == Print(a, 11) + ([TBin(op)] + (Print(b, 11) + ([TBin(op1)] + (Print(c, 11) + rest))))
    requires Ends(rest)
    requires Ready(s, z, SizeE(Bin(op, a, Bin(op1, b, c))), Calls(Bin(op, a, Bin(op1, b, c))))
    requires Resolved(a, z.env, z.fns) && Resolved(b, z.env, z.fns) && Resolved(c, z.env, z.fns)
    ensures Below(op, op1) ==> ParseExpr(s, 1) == After(s, Bin(op, a, Bin(op1, b, c)), z, rest)
    ensures Below(op1, op) || SameLevel(op, op1) ==> ParseExpr(s, 1) == After(s, Bin(op1, Bin(op, a, b), c), z, rest)
  {
    hide ParseExpr, After, Ready, Print, Group, SizeE, Calls, Resolved, Below, SameLevel, BinTail, Len;
    var links := [Link(op, b), Link(op1, c)];
    PairText(op, b, op1, c, rest);
    BinSizes(op1, b, c, z);
    BinSizes(op, a, Bin(op1, b, c), z);
    ChainParses(s, a, links, z, rest);
    PairGroups(a, op, b, op1, c);
  }

  lemma PairText(op: BinOp, b: Expr, op1: BinOp, c: Expr, rest: seq<Token>)
    ensures var links := [Link(op, b), Link(op1, c)];
      && Toks(links) + rest == [TBin(op)] + (Print(b, 11) + ([TBin(op1)] + (Print(c, 11) + rest)))
      && LinkSize(links) == 1 + SizeE(b) + 1 + Len(BinTail(op)) + (1 + SizeE(c) + 1 + Len(BinTail(op1)))
      && LinkCalls(links) == Calls(b) + Calls(c)
  {
    hide Print, SizeE, Calls, BinTail, Len;
    var links := [Link(op, b), Link(op1, c)];
    assert links[1..] == [Link(op1, c)];
    OneLink(op1, c);
  }

  lemma OneLink(op: BinOp, e: Expr)
    ensures var links := [Link(op, e)];
      && Toks(links) == [TBin(op)] + Print(e, 11) && LinkSize(links) == 1 + SizeE(e) + 1 + Len(BinTail(op))
      && LinkCalls(links) == Calls(e)
  {
    hide Print, SizeE, Calls, BinTail, Len;
    assert [Link(op, e)][1..] == [];
    assert Print(e, 11) + [] == Print(e, 11);
  }
}
