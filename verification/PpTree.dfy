/** Conditional compilation: a stack of flags that is updated line by line, and the nested blocks it stands for. */
module PpTree {
  import opened PpText

  const MAX_DEPTH := 32
  const MAX_PATH := 256

  // ----- lines and directives -----

  /** A line without its newline; only the last line of a text may have none. */
  datatype Line = Line(text: string, nl: bool)

  function LineLen(s: string): (n: nat)
    ensures n <= |s| && (n < |s| ==> s[n] == '\n') && forall k :: 0 <= k < n ==> s[k] != '\n'
  {
    if s == "" || s[0] == '\n' then 0 else 1 + LineLen(s[1..])
  }

  function Split(s: string): seq<Line>
    decreases |s|
  {
    if s == "" then []
    else
      var n := LineLen(s);
      [Line(s[..n], n < |s|)] + (if n < |s| then Split(s[n + 1..]) else [])
  }

  function Join(lines: seq<Line>): string
  {
    if lines == [] then "" else lines[0].text + (if lines[0].nl then "\n" else "") + Join(lines[1..])
  }

  lemma {:induction false} JoinSplit(s: string)
    ensures Join(Split(s)) == s
    decreases |s|
  {
    hide Split, Join, LineLen;
    if s == "" {
      JoinNone();
      SplitNone();
    } else {
      var n := LineLen(s);
      SplitFirst(s);
      JoinFirst(Line(s[..n], n < |s|), if n < |s| then Split(s[n + 1..]) else []);
      if n < |s| {
        JoinSplit(s[n + 1..]);
        assert s == s[..n] + "\n" + s[n + 1..];
      } else {
        JoinNone();
        assert s[..n] + "" + "" == s;
      }
    }
  }

  lemma SplitNone()
    ensures Split("") == []
  {
  }

  lemma SplitFirst(s: string)
    requires s != ""
    ensures var n := LineLen(s); Split(s) == [Line(s[..n], n < |s|)] + (if n < |s| then Split(s[n + 1..]) else [])
  {
    hide LineLen;
  }

  lemma JoinNone()
    ensures Join([]) == ""
  {
  }

  lemma JoinFirst(l: Line, rest: seq<Line>)
    ensures Join([l] + rest) == l.text + (if l.nl then "\n" else "") + Join(rest)
  {
    assert ([l] + rest)[1..] == rest;
  }

  function SpaceLen(s: string): (n: nat)
    ensures n <= |s| && (n < |s| ==> !IsSpace(s[n])) && forall k :: 0 <= k < n ==> IsSpace(s[k])
  {
    if s == "" || !IsSpace(s[0]) then 0 else 1 + SpaceLen(s[1..])
  }

  function AlphaLen(s: string): (n: nat)
    ensures n <= |s| && (n < |s| ==> !IsAlpha(s[n])) && forall k :: 0 <= k < n ==> IsAlpha(s[k])
  {
    if s == "" || !IsAlpha(s[0]) then 0 else 1 + AlphaLen(s[1..])
  }

  function Skip(s: string): string { s[SpaceLen(s)..] }

  /** The text up to its last character that is not a space. */
  function TrimEnd(s: string): (r: string)
    ensures r <= s && (r != "" ==> !IsSpace(r[|r| - 1])) && forall k :: |r| <= k < |s| ==> IsSpace(s[k])
  {
    if s == "" || !IsSpace(s[|s| - 1]) then s else TrimEnd(s[..|s| - 1])
  }

  datatype Directive =
    | Include(path: string)
    | BadInclude
    | Define(name: string, value: string)
    | BadDefine
    | IfDef(name: string, wanted: bool)
    | Else
    | EndIf
    | Unknown

  predicate IsDirective(text: string) { var s := Skip(text); s != "" && s[0] == '#' }

  /** What a line that starts with # asks for. Macros with parameters are ignored. */
  function Parse(text: string): Directive
    requires IsDirective(text)
  {
    var s := Skip(Skip(text)[1..]);
    var n := AlphaLen(s);
    Command(s[..n], Skip(s[n..]))
  }

  function Command(word: string, rest: string): Directive
  {
    if word == "include" then ParseInclude(rest)
    else if word == "define" then ParseDefine(rest)
    else if word == "ifdef" then IfDef(Cut(rest[..WordLen(rest)], MAX_IDENT - 1), true)
    else if word == "ifndef" then IfDef(Cut(rest[..WordLen(rest)], MAX_IDENT - 1), false)
    else if word == "else" then Else
    else if word == "endif" then EndIf
    else Unknown
  }

  /** The position of the first quote, or the length. */
  function QuoteLen(s: string): (n: nat)
    ensures n <= |s| && (n < |s| ==> s[n] == '"') && forall k :: 0 <= k < n ==> s[k] != '"'
  {
    if s == "" || s[0] == '"' then 0 else 1 + QuoteLen(s[1..])
  }

  /** A path in quotes; without an opening quote the line is ignored. */
  function ParseInclude(rest: string): Directive
  {
    if rest == "" || rest[0] != '"' then Unknown
    else
      var n := QuoteLen(rest[1..]);
      if n < |rest[1..]| && n < MAX_PATH then Include(rest[1..][..n]) else BadInclude
  }

  function ParseDefine(rest: string): Directive
  {
    if rest == "" || !IsAlpha(rest[0]) then BadDefine
    else
      var n := WordLen(rest);
      if n < |rest| && rest[n] == '(' then Unknown
      else Define(Cut(rest[..n], MAX_IDENT - 1), Cut(TrimEnd(Skip(rest[n..])), MAX_VALUE - 1))
  }

  // ----- one pass -----

  /** Whether the code around a conditional is active, and whether one of its branches has been selected. */
  datatype Frame = Frame(parent: bool, taken: bool)

  datatype Pass = Pass(core: Core, active: bool, stack: seq<Frame>)

  function SetMacro(c: Core, name: string, value: string): Core
  {
    var i := Find(c.macros, name);
    if i >= 0 then c.(macros := c.macros[i := Macro(name, value)])
    else if |c.macros| >= MAX_MACROS then c.(error := true)
    else c.(macros := c.macros + [Macro(name, value)])
  }

  predicate Defined(c: Core, name: string) { name != "" && Find(c.macros, name) >= 0 }

  function Failed(p: Pass): Pass { p.(core := p.core.(error := true)) }

  /** What a directive does, but for includes, which are followed elsewhere. */
  function Obey(p: Pass, d: Directive): Pass
  {
    match d
    case Define(name, value) => if p.active then p.(core := SetMacro(p.core, name, value)) else p
    case BadDefine => if p.active then Failed(p) else p
    case BadInclude => if p.active then Failed(p) else p
    case IfDef(name, wanted) =>
      if |p.stack| >= MAX_DEPTH then Failed(p)
      else
        var cond := Defined(p.core, name) == wanted;
        p.(active := p.active && cond, stack := p.stack + [Frame(p.active, cond)])
    case Else =>
      if p.stack == [] then Failed(p)
      else
        var top := p.stack[|p.stack| - 1];
        p.(active := top.parent && !top.taken, stack := p.stack[..|p.stack| - 1] + [top.(taken := true)])
    case EndIf =>
      if p.stack == [] then Failed(p)
      else p.(active := p.stack[|p.stack| - 1].parent, stack := p.stack[..|p.stack| - 1])
    case _ => p
  }

  function Newline(c: Core, l: Line): Core { if l.nl then Put(c, "\n") else c }

  /** One line. Nothing happens after an error. */
  function Step(p: Pass, l: Line): Pass
  {
    if p.core.error then p
    else
      var q := if IsDirective(l.text) then Obey(p, Parse(l.text))
               else if p.active then p.(core := Expand(p.core, l.text)) else p;
      q.(core := Newline(q.core, l))
  }

  function Steps(p: Pass, lines: seq<Line>): Pass
    decreases |lines|
  {
    if lines == [] then p else Steps(Step(p, lines[0]), lines[1..])
  }

  lemma {:induction false} StepsAppend(p: Pass, a: seq<Line>, b: seq<Line>)
    ensures Steps(p, a + b) == Steps(Steps(p, a), b)
    decreases |a|
  {
    hide Step;
    if a == [] {
      assert a + b == b;
    } else {
      StepsAppend(Step(p, a[0]), a[1..], b);
      assert (a + b)[1..] == a[1..] + b;
    }
  }

  lemma {:induction false} StepsFailed(p: Pass, lines: seq<Line>)
    requires p.core.error
    ensures Steps(p, lines) == p
    decreases |lines|
  {
    if lines != [] { StepsFailed(p, lines[1..]); }
  }

  // ----- nested blocks -----

  /** A line that is not part of a conditional, or a conditional with its body and any number of else parts. */
  datatype Node = Plain(l: Line) | If(open: Line, body: Nodes, elses: Elses, close: Line)

  datatype Nodes = NoNodes | OneMore(head: Node, tail: Nodes)

  datatype Elses = NoElses | ElsePart(line: Line, body: Nodes, tail: Elses)

  predicate IsIf(l: Line) { IsDirective(l.text) && Parse(l.text).IfDef? }
  predicate IsElse(l: Line) { IsDirective(l.text) && Parse(l.text).Else? }
  predicate IsEnd(l: Line) { IsDirective(l.text) && Parse(l.text).EndIf? }

  predicate WellFormed(n: Node)
  {
    match n
    case Plain(l) => !IsIf(l) && !IsElse(l) && !IsEnd(l)
    case If(open, body, elses, close) => IsIf(open) && AllFormed(body) && ElsesFormed(elses) && IsEnd(close)
  }

  predicate AllFormed(ns: Nodes) { ns.OneMore? ==> WellFormed(ns.head) && AllFormed(ns.tail) }

  predicate ElsesFormed(es: Elses) { es.ElsePart? ==> IsElse(es.line) && AllFormed(es.body) && ElsesFormed(es.tail) }

  function Flat(n: Node): seq<Line>
  {
    match n
    case Plain(l) => [l]
    case If(open, body, elses, close) => [open] + (AllFlat(body) + (ElsesFlat(elses) + [close]))
  }

  function AllFlat(ns: Nodes): seq<Line>
  {
    match ns case NoNodes => [] case OneMore(n, tail) => Flat(n) + AllFlat(tail)
  }

  function ElsesFlat(es: Elses): seq<Line>
  {
    match es case NoElses => [] case ElsePart(l, body, tail) => [l] + (AllFlat(body) + ElsesFlat(tail))
  }

  function Finish(c: Core, l: Line): Core { if c.error then c else Newline(c, l) }

  /** What a selected directive other than a conditional does. */
  function Took(c: Core, d: Directive): Core
  {
    match d
    case Define(name, value) => SetMacro(c, name, value)
    case BadDefine => c.(error := true)
    case BadInclude => c.(error := true)
    case _ => c
  }

  lemma ObeyTakes(p: Pass, d: Directive)
    requires !d.IfDef? && !d.Else? && !d.EndIf?
    ensures Obey(p, d) == if p.active then p.(core := Took(p.core, d)) else p
  {
    hide SetMacro;
  }

  /** What the blocks mean: a line counts if all blocks around it are selected; the body of a conditional is selected
      if its condition holds, the first else part if it does not, and no other else part. */
  function Meaning(n: Node, c: Core, selected: bool, depth: nat): Core
    requires WellFormed(n)
    decreases n
  {
    match n
    case Plain(l) =>
      if c.error then c
      else
        var c1 := if !selected then c
                  else if !IsDirective(l.text) then Expand(c, l.text)
                  else Took(c, Parse(l.text));
        Newline(c1, l)
    case If(open, body, elses, close) =>
      if c.error then c
      else if depth >= MAX_DEPTH then Newline(c.(error := true), open)
      else
        var d := Parse(open.text);
        var cond := Defined(c, d.name) == d.wanted;
        var c1 := AllMeaning(body, Newline(c, open), selected && cond, depth + 1);
        Finish(ElsesMeaning(elses, c1, selected && !cond, depth + 1), close)
  }

  function AllMeaning(ns: Nodes, c: Core, selected: bool, depth: nat): Core
    requires AllFormed(ns)
    decreases ns
  {
    match ns
    case NoNodes => c
    case OneMore(n, tail) => AllMeaning(tail, Meaning(n, c, selected, depth), selected, depth)
  }

  function ElsesMeaning(es: Elses, c: Core, selected: bool, depth: nat): Core
    requires ElsesFormed(es)
    decreases es
  {
    match es
    case NoElses => c
    case ElsePart(l, body, tail) => ElsesMeaning(tail, AllMeaning(body, Finish(c, l), selected, depth), false, depth)
  }

  /** The pass has come to the same macros and output, and unless it failed the stack is what it was. */
  predicate Agrees(p: Pass, c: Core, active: bool, stack: seq<Frame>)
  {
    p.core == c && (!c.error ==> p.active == active && p.stack == stack)
  }

  lemma StepPlain(p: Pass, n: Node)
    requires n.Plain? && WellFormed(n)
    ensures Steps(p, Flat(n)) == Step(p, n.l)
    ensures Agrees(Step(p, n.l), Meaning(n, p.core, p.active, |p.stack|), p.active, p.stack)
  {
    hide Expand, Parse, Find, Put, Took, Obey, IsDirective;
    assert [n.l][1..] == [];
    if IsDirective(n.l.text) { ObeyTakes(p, Parse(n.l.text)); }
  }

  /** The one pass over the lines of nested blocks computes what the blocks mean. */
  lemma {:induction false} NodeRuns(p: Pass, n: Node)
    requires WellFormed(n)
    ensures Agrees(Steps(p, Flat(n)), Meaning(n, p.core, p.active, |p.stack|), p.active, p.stack)
    decreases n, 1
  {
    hide Step, Agrees;
    if n.Plain? { StepPlain(p, n); } else { IfRuns(p, n); }
  }

  lemma {:induction false} NodesRun(p: Pass, ns: Nodes)
    requires AllFormed(ns)
    ensures Agrees(Steps(p, AllFlat(ns)), AllMeaning(ns, p.core, p.active, |p.stack|), p.active, p.stack)
    decreases ns, 1
  {
    hide Step, Flat, Meaning;
    if ns.OneMore? {
      var n, tail := ns.head, ns.tail;
      var q := Steps(p, Flat(n));
      StepsAppend(p, Flat(n), AllFlat(tail));
      NodeRuns(p, n);
      if q.core.error {
        StepsFailed(q, AllFlat(tail));
        MeaningFailed(tail, q.core, p.active, |p.stack|);
      } else {
        NodesRun(q, tail);
      }
    }
  }

  lemma {:induction false} MeaningFailed(ns: Nodes, c: Core, selected: bool, depth: nat)
    requires AllFormed(ns) && c.error
    ensures AllMeaning(ns, c, selected, depth) == c
    decreases ns
  {
    if ns.OneMore? { MeaningFailed(ns.tail, c, selected, depth); }
  }

  lemma {:induction false} ElsesFailed(es: Elses, c: Core, selected: bool, depth: nat)
    requires ElsesFormed(es) && c.error
    ensures ElsesMeaning(es, c, selected, depth) == c
    decreases es
  {
    if es.ElsePart? {
      MeaningFailed(es.body, c, selected, depth);
      ElsesFailed(es.tail, c, false, depth);
    }
  }

  lemma StepIf(p: Pass, l: Line)
    requires IsIf(l) && !p.core.error
    ensures var d := Parse(l.text); var cond := Defined(p.core, d.name) == d.wanted;
      Step(p, l) == if |p.stack| >= MAX_DEPTH then p.(core := Newline(p.core.(error := true), l))
                    else Pass(Newline(p.core, l), p.active && cond, p.stack + [Frame(p.active, cond)])
  {
    hide Parse, Find, Put;
  }

  lemma StepElse(p: Pass, l: Line, stack: seq<Frame>, f: Frame)
    requires IsElse(l) && !p.core.error && p.stack == stack + [f]
    ensures Step(p, l) == Pass(Newline(p.core, l), f.parent && !f.taken, stack + [f.(taken := true)])
  {
    hide Parse, Find, Put;
    assert p.stack[..|p.stack| - 1] == stack;
  }

  lemma StepEnd(p: Pass, l: Line, stack: seq<Frame>, f: Frame)
    requires IsEnd(l) && !p.core.error && p.stack == stack + [f]
    ensures Step(p, l) == Pass(Newline(p.core, l), f.parent, stack)
  {
    hide Parse, Find, Put;
    assert p.stack[..|p.stack| - 1] == stack;
  }

  /** The else parts and the end of a conditional whose condition was `f.taken`. */
  lemma {:induction false} ElsesRun(p: Pass, es: Elses, close: Line, stack: seq<Frame>, f: Frame)
    requires ElsesFormed(es) && IsEnd(close) && !p.core.error && p.stack == stack + [f]
    ensures Agrees(Steps(p, ElsesFlat(es) + [close]),
        Finish(ElsesMeaning(es, p.core, f.parent && !f.taken, |stack| + 1), close), f.parent, stack)
    decreases es, 0
  {
    hide Step, IsElse, IsEnd, Newline, AllFlat, AllMeaning;
    if es.NoElses? {
      StepEnd(p, close, stack, f);
      assert [] + [close] == [close] && [close][1..] == [];
    } else {
      var ElsePart(l, body, tail) := es;
      var rest := ElsesFlat(tail) + [close];
      assert ElsesFlat(es) + [close] == [l] + (AllFlat(body) + rest);
      var q := Step(p, l);
      StepElse(p, l, stack, f);
      assert ([l] + (AllFlat(body) + rest))[1..] == AllFlat(body) + rest;
      StepsAppend(q, AllFlat(body), rest);
      NodesRun(q, body);
      var r := Steps(q, AllFlat(body));
      if r.core.error {
        StepsFailed(r, rest);
        ElsesFailed(tail, r.core, false, |stack| + 1);
      } else {
        ElsesRun(r, tail, close, stack, f.(taken := true));
      }
    }
  }

  lemma {:induction false} IfRuns(p: Pass, n: Node)
    requires n.If? && WellFormed(n)
    ensures Agrees(Steps(p, Flat(n)), Meaning(n, p.core, p.active, |p.stack|), p.active, p.stack)
    decreases n, 0
  {
    hide Step, IsElse, IsEnd, Newline, AllFlat, AllMeaning, ElsesFlat, ElsesMeaning, Parse, Find;
    var If(open, body, elses, close) := n;
    var last := ElsesFlat(elses) + [close];
    if p.core.error {
      StepsFailed(p, Flat(n));
    } else {
      var q := Step(p, open);
      StepIf(p, open);
      assert Flat(n)[1..] == AllFlat(body) + last;
      StepsAppend(q, AllFlat(body), last);
      if |p.stack| >= MAX_DEPTH {
        NewlineFailed(p.core, open);
        StepsFailed(q, Flat(n)[1..]);
      } else {
        var d := Parse(open.text);
        var cond := Defined(p.core, d.name) == d.wanted;
        NodesRun(q, body);
        var r := Steps(q, AllFlat(body));
        if r.core.error {
          StepsFailed(r, last);
          ElsesFailed(elses, r.core, p.active && !cond, |p.stack| + 1);
        } else {
          ElsesRun(r, elses, close, p.stack, Frame(p.active, cond));
        }
      }
    }
  }

  lemma NewlineFailed(c: Core, l: Line)
    ensures Newline(c.(error := true), l).error
  {
  }

  // ----- newlines -----

  function Newlines(s: string): nat { if s == "" then 0 else (if s[0] == '\n' then 1 else 0) + Newlines(s[1..]) }

  function Ended(lines: seq<Line>): nat
  {
    if lines == [] then 0 else (if lines[0].nl then 1 else 0) + Ended(lines[1..])
  }

  predicate OneLine(s: string) { '\n' !in s }

  ghost predicate Clean(ms: seq<Macro>) { forall i :: 0 <= i < |ms| ==> OneLine(ms[i].value) }

  lemma {:induction false} NewlinesAppend(a: string, b: string)
    ensures Newlines(a + b) == Newlines(a) + Newlines(b)
  {
    if a == "" {
      assert a + b == b;
    } else {
      NewlinesAppend(a[1..], b);
      assert (a + b)[1..] == a[1..] + b;
    }
  }

  lemma {:induction false} NoNewlines(s: string)
    requires OneLine(s)
    ensures Newlines(s) == 0
  {
    if s != "" { NoNewlines(s[1..]); }
  }

  lemma {:induction false} RenderOneLine(s: string, m: Mode, ms: seq<Macro>)
    requires OneLine(s) && Clean(ms)
    ensures OneLine(Render(s, m, ms))
    decreases |s|
  {
    if s != "" {
      if Next(m, s[0]) == Word {
        RenderOneLine(s[WordLen(s)..], Word, ms);
      } else {
        RenderOneLine(s[1..], Next(m, s[0]), ms);
      }
    }
  }

  lemma PutLines(c: Core, text: string)
    requires !Put(c, text).error
    ensures Newlines(Put(c, text).out) == Newlines(c.out) + Newlines(text)
  {
    NewlinesAppend(c.out, text);
  }

  lemma ParsedOneLine(text: string)
    requires IsDirective(text) && OneLine(text)
    ensures var d := Parse(text); d.Define? ==> OneLine(d.value)
  {
    hide SpaceLen, AlphaLen, WordLen, TrimEnd;
    var t := Skip(text);
    SkipOneLine(text);
    PartOneLine(t, 1);
    SkipOneLine(t[1..]);
    var s := Skip(t[1..]);
    PartOneLine(s, AlphaLen(s));
    SkipOneLine(s[AlphaLen(s)..]);
    DefineOneLine(Skip(s[AlphaLen(s)..]));
  }

  lemma PartOneLine(s: string, i: nat)
    requires OneLine(s) && i <= |s|
    ensures OneLine(s[i..]) && OneLine(s[..i])
  {
  }

  lemma SkipOneLine(s: string)
    requires OneLine(s)
    ensures OneLine(Skip(s))
  {
  }

  lemma DefineOneLine(rest: string)
    requires OneLine(rest)
    ensures var d := ParseDefine(rest); d.Define? ==> OneLine(d.value)
  {
    if rest != "" && IsAlpha(rest[0]) {
      var n := WordLen(rest);
      PartOneLine(rest, n);
      SkipOneLine(rest[n..]);
      var v := TrimEnd(Skip(rest[n..]));
      assert OneLine(v);
      if |v| > MAX_VALUE - 1 { PartOneLine(v, MAX_VALUE - 1); }
    }
  }

  lemma ObeyLines(p: Pass, text: string)
    requires IsDirective(text) && OneLine(text) && Clean(p.core.macros)
    ensures var q := Obey(p, Parse(text)); Clean(q.core.macros) && q.core.out == p.core.out
  {
    hide Parse;
    ParsedOneLine(text);
  }

  lemma ExpandLines(c: Core, text: string)
    requires OneLine(text) && Clean(c.macros) && !Expand(c, text).error
    ensures Clean(Expand(c, text).macros) && Newlines(Expand(c, text).out) == Newlines(c.out)
  {
    hide Render, Newlines;
    RenderOneLine(text, Start(c.inBlock), c.macros);
    NoNewlines(Render(text, Start(c.inBlock), c.macros));
    PutLines(c, Render(text, Start(c.inBlock), c.macros));
  }

  lemma StepLines(p: Pass, l: Line)
    requires OneLine(l.text) && Clean(p.core.macros) && !Step(p, l).core.error
    ensures var q := Step(p, l);
      Clean(q.core.macros) && Newlines(q.core.out) == Newlines(p.core.out) + (if l.nl then 1 else 0)
  {
    hide Parse, Obey, Expand, Newlines, Put;
    if IsDirective(l.text) {
      ObeyLines(p, l.text);
      NewlineAdds(Obey(p, Parse(l.text)).core, l);
    } else if p.active {
      ExpandError(p.core, l);
      ExpandLines(p.core, l.text);
      NewlineAdds(Expand(p.core, l.text), l);
    } else {
      NewlineAdds(p.core, l);
    }
  }

  lemma ExpandError(c: Core, l: Line)
    requires !Newline(Expand(c, l.text), l).error
    ensures !Expand(c, l.text).error
  {
  }

  lemma NewlineAdds(c: Core, l: Line)
    requires !Newline(c, l).error
    ensures Newline(c, l).macros == c.macros && Newlines(Newline(c, l).out) == Newlines(c.out) + (if l.nl then 1 else 0)
  {
    if l.nl {
      PutLines(c, "\n");
      assert "\n"[1..] == "";
    }
  }

  /** Without includes the output has exactly the newlines of the input. */
  lemma {:induction false} RunLines(p: Pass, lines: seq<Line>)
    requires Clean(p.core.macros) && (forall k :: 0 <= k < |lines| ==> OneLine(lines[k].text))
    requires !Steps(p, lines).core.error
    ensures Newlines(Steps(p, lines).core.out) == Newlines(p.core.out) + Ended(lines)
    decreases |lines|
  {
    hide Step;
    if lines != [] {
      var q := Step(p, lines[0]);
      if q.core.error { StepsFailed(q, lines[1..]); }
      StepLines(p, lines[0]);
      RunLines(q, lines[1..]);
    }
  }

  lemma {:induction false} SplitLines(s: string)
    ensures Ended(Split(s)) == Newlines(s) && forall k :: 0 <= k < |Split(s)| ==> OneLine(Split(s)[k].text)
    decreases |s|
  {
    hide Split, LineLen;
    if s == "" {
      SplitNone();
    } else {
      var n := LineLen(s);
      SplitFirst(s);
      NoNewlines(s[..n]);
      var rest := if n < |s| then Split(s[n + 1..]) else [];
      assert Split(s)[1..] == rest;
      if n < |s| {
        SplitLines(s[n + 1..]);
        NewlinesCut(s, n);
      } else {
        assert s == s[..n];
      }
    }
  }

  lemma NewlinesCut(s: string, n: nat)
    requires n < |s| && s[n] == '\n'
    ensures Newlines(s) == Newlines(s[..n]) + 1 + Newlines(s[n + 1..])
  {
    NewlinesAppend(s[..n], s[n..]);
    assert s == s[..n] + s[n..] && s[n..][1..] == s[n + 1..];
  }

  // ----- reading the blocks back -----

  /** What ends a sequence of nodes: nothing, an else or an end. */
  predicate Stops(lines: seq<Line>) { lines == [] || IsElse(lines[0]) || IsEnd(lines[0]) }

  /** A run that succeeds and leaves no more open than there was. */
  predicate Succeeds(p: Pass, lines: seq<Line>) { !Steps(p, lines).core.error && |Steps(p, lines).stack| <= |p.stack| }

  /** After nodes have been run, the run goes on with the same stack. */
  lemma AfterNodes(p: Pass, ns: Nodes, rest: seq<Line>) returns (q: Pass)
    requires AllFormed(ns) && !Steps(p, AllFlat(ns) + rest).core.error
    ensures q == Steps(p, AllFlat(ns)) && Steps(q, rest) == Steps(p, AllFlat(ns) + rest)
    ensures !q.core.error && q.stack == p.stack && q.active == p.active
  {
    hide Step, AllFlat, AllMeaning;
    q := Steps(p, AllFlat(ns));
    StepsAppend(p, AllFlat(ns), rest);
    NodesRun(p, ns);
    if q.core.error { StepsFailed(q, rest); }
  }

  /** A first line that is run without an error. */
  lemma FirstStep(p: Pass, lines: seq<Line>)
    requires lines != [] && !Steps(p, lines).core.error
    ensures !p.core.error && !Step(p, lines[0]).core.error && Steps(Step(p, lines[0]), lines[1..]) == Steps(p, lines)
  {
    hide Step;
    if p.core.error { StepsFailed(p, lines); }
    if Step(p, lines[0]).core.error { StepsFailed(Step(p, lines[0]), lines[1..]); }
  }

  lemma {:induction false} ReadNodes(p: Pass, lines: seq<Line>) returns (ns: Nodes, rest: seq<Line>)
    requires Succeeds(p, lines)
    ensures AllFormed(ns) && lines == AllFlat(ns) + rest && Stops(rest)
    decreases |lines|, 0
  {
    hide Step, IsIf, IsElse, IsEnd, Flat, Steps;
    if Stops(lines) {
      ns, rest := NoNodes, lines;
    } else {
      var l := lines[0];
      FirstStep(p, lines);
      var q := Step(p, l);
      if IsIf(l) {
        StepIf(p, l);
        var f := q.stack[|q.stack| - 1];
        assert q.stack == p.stack + [f];
        var body, elses, close, after := ReadIf(q, lines[1..], p.stack, f);
        var n := If(l, body, elses, close);
        IfLines(n, lines, after);
        var r := AfterIf(p, n, after);
        var tail, rest1 := ReadNodes(r, after);
        ns, rest := OneMore(n, tail), rest1;
        Joined(Flat(n), AllFlat(tail), rest);
      } else {
        StepKeeps(p, l);
        var tail, rest1 := ReadNodes(q, lines[1..]);
        ns, rest := OneMore(Plain(l), tail), rest1;
        assert lines == [l] + lines[1..] && Flat(Plain(l)) == [l] by { PlainFlat(l); }
        Joined([l], AllFlat(tail), rest);
      }
    }
  }

  lemma PlainFlat(l: Line)
    ensures Flat(Plain(l)) == [l]
  {
  }

  lemma IfLines(n: Node, lines: seq<Line>, after: seq<Line>)
    requires n.If? && lines != [] && lines[0] == n.open
    requires lines[1..] == AllFlat(n.body) + (ElsesFlat(n.elses) + [n.close]) + after
    ensures lines == Flat(n) + after
  {
    hide AllFlat, ElsesFlat;
    assert lines == [lines[0]] + lines[1..];
    Joined([n.open], AllFlat(n.body) + (ElsesFlat(n.elses) + [n.close]), after);
  }

  lemma Joined(a: seq<Line>, b: seq<Line>, c: seq<Line>)
    ensures a + b + c == a + (b + c)
  {
  }

  lemma StepKeeps(p: Pass, l: Line)
    requires !IsIf(l) && !IsElse(l) && !IsEnd(l)
    ensures Step(p, l).stack == p.stack
  {
    hide Expand, Parse, Find, Put;
  }

  lemma AfterIf(p: Pass, n: Node, rest: seq<Line>) returns (r: Pass)
    requires n.If? && WellFormed(n) && Succeeds(p, Flat(n) + rest)
    ensures Succeeds(r, rest) && r.stack == p.stack && Steps(r, rest) == Steps(p, Flat(n) + rest)
  {
    hide Step, Flat, WellFormed, Meaning;
    r := Steps(p, Flat(n));
    StepsAppend(p, Flat(n), rest);
    NodeRuns(p, n);
    if r.core.error { StepsFailed(r, rest); }
  }

  /** The body and the rest of a conditional that has just been opened. */
  lemma {:induction false} ReadIf(q: Pass, lines: seq<Line>, stack: seq<Frame>, f: Frame)
    returns (body: Nodes, elses: Elses, close: Line, after: seq<Line>)
    requires q.stack == stack + [f] && !Steps(q, lines).core.error && |Steps(q, lines).stack| <= |stack|
    ensures AllFormed(body) && ElsesFormed(elses) && IsEnd(close)
    ensures lines == AllFlat(body) + (ElsesFlat(elses) + [close]) + after
    decreases |lines|, 2
  {
    hide Step, IsElse, IsEnd;
    var rest;
    body, rest := ReadBody(q, lines);
    var r := AfterNodes(q, body, rest);
    elses, close, after := ReadElses(r, rest, stack, f);
    Joined(AllFlat(body), ElsesFlat(elses) + [close], after);
  }

  lemma RunNothing(p: Pass)
    ensures Steps(p, []) == p
  {
  }

  lemma {:induction false} ReadBody(q: Pass, lines: seq<Line>) returns (body: Nodes, rest: seq<Line>)
    requires q.stack != [] && !Steps(q, lines).core.error && |Steps(q, lines).stack| < |q.stack|
    ensures AllFormed(body) && lines == AllFlat(body) + rest && rest != [] && Stops(rest)
    decreases |lines|, 1
  {
    hide Step, IsElse, IsEnd;
    body, rest := ReadNodes(q, lines);
    var r := AfterNodes(q, body, rest);
    if rest == [] { RunNothing(r); }
  }

  /** The else parts and the end of a conditional. */
  lemma {:induction false} ReadElses(q: Pass, lines: seq<Line>, stack: seq<Frame>, f: Frame)
    returns (elses: Elses, close: Line, after: seq<Line>)
    requires q.stack == stack + [f] && !Steps(q, lines).core.error && |Steps(q, lines).stack| <= |stack|
    requires lines != [] && Stops(lines)
    ensures ElsesFormed(elses) && IsEnd(close) && lines == ElsesFlat(elses) + [close] + after
    decreases |lines|, 1
  {
    hide Step, IsElse, IsEnd, Steps, ElsesFlat, AllFlat;
    var l := lines[0];
    FirstStep(q, lines);
    if IsEnd(l) {
      elses, close, after := NoElses, l, lines[1..];
      EndLines(lines);
    } else {
      StepElse(q, l, stack, f);
      var r := Step(q, l);
      var body, rest := ReadBody(r, lines[1..]);
      var t := AfterNodes(r, body, rest);
      var tail;
      tail, close, after := ReadElses(t, rest, stack, f.(taken := true));
      elses := ElsePart(l, body, tail);
      ElseLines(lines, elses, close, after);
    }
  }

  lemma EndLines(lines: seq<Line>)
    requires lines != []
    ensures lines == ElsesFlat(NoElses) + [lines[0]] + lines[1..]
  {
  }

  lemma ElseLines(lines: seq<Line>, es: Elses, close: Line, after: seq<Line>)
    requires es.ElsePart? && lines != [] && lines[0] == es.line
    requires lines[1..] == AllFlat(es.body) + (ElsesFlat(es.tail) + [close] + after)
    ensures lines == ElsesFlat(es) + [close] + after
  {
    hide AllFlat;
    var b, t := AllFlat(es.body), ElsesFlat(es.tail);
    assert lines == [es.line] + lines[1..];
    assert ElsesFlat(es) == [es.line] + (b + t);
    assert [es.line] + (b + t) + [close] + after == [es.line] + (b + (t + [close] + after));
  }

  /** A run from an empty stack that succeeds and leaves it empty has read nested blocks. */
  lemma ReadAll(p: Pass, lines: seq<Line>) returns (ns: Nodes)
    requires p.stack == [] && Succeeds(p, lines)
    ensures AllFormed(ns) && lines == AllFlat(ns)
  {
    hide Step, IsElse, IsEnd;
    var rest;
    ns, rest := ReadNodes(p, lines);
    var q := AfterNodes(p, ns, rest);
    if rest != [] {
      FirstStep(q, rest);
      Unmatched(q, rest[0]);
    }
  }

  /** An else or an end with nothing open is an error. */
  lemma Unmatched(p: Pass, l: Line)
    requires p.stack == [] && (IsElse(l) || IsEnd(l)) && !p.core.error
    ensures Step(p, l).core.error
  {
    hide Parse, Find;
  }
}
