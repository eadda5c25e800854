/** Macro expansion in the preprocessor: one line at a time, never inside strings and comments. */
module PpText {
  const MAX_IDENT := 96
  const MAX_VALUE := 256
  const MAX_MACROS := 128
  const MAX_OUT := 524288

  predicate IsSpace(c: char) { c == ' ' || c == '\t' || c == '\r' || c == '\n' }

  predicate IsAlpha(c: char) { 'a' <= c <= 'z' || 'A' <= c <= 'Z' || c == '_' }

  predicate IsAlnum(c: char) { IsAlpha(c) || '0' <= c <= '9' }

  datatype Macro = Macro(name: string, value: string)

  /** Macros, output and error flag; `inBlock` tells whether a block comment is open. */
  datatype Core = Core(macros: seq<Macro>, inBlock: bool, out: string, error: bool)

  /** The first macro of that name, or -1. */
  function Find(ms: seq<Macro>, name: string): (i: int)
    ensures -1 <= i < |ms| && (i >= 0 ==> ms[i].name == name && forall k :: 0 <= k < i ==> ms[k].name != name)
    ensures i < 0 ==> forall k :: 0 <= k < |ms| ==> ms[k].name != name
  {
    if ms == [] then -1
    else if ms[0].name == name then 0
    else
      var i := Find(ms[1..], name);
      assert forall k :: 0 <= k < |ms| - 1 ==> ms[1..][k] == ms[k + 1];
      if i < 0 then -1 else i + 1
  }

  function Cut(s: string, n: nat): string { if |s| <= n then s else s[..n] }

  // ----- output -----

  /** Appends a text as far as the buffer allows; one place stays free for the final zero. */
  function Put(c: Core, text: string): Core
  {
    if c.error then c
    else if |c.out| + |text| < MAX_OUT then c.(out := c.out + text)
    else c.(out := (c.out + text)[..MAX_OUT - 1], error := true)
  }

  lemma PutPut(c: Core, a: string, b: string)
    requires |c.out| < MAX_OUT
    ensures |Put(c, a).out| < MAX_OUT && Put(Put(c, a), b) == Put(c, a + b)
  {
    assert c.out + a + b == c.out + (a + b);
    if |c.out| + |a| >= MAX_OUT {
      assert (c.out + (a + b))[..MAX_OUT - 1] == (c.out + a)[..MAX_OUT - 1];
    }
  }

  // ----- what is a word, a string, a comment: a finite automaton -----

  datatype Mode = Code | Slash | Word | LineComment | Block | Star | Quote(q: char) | Escape(q: char)

  /** The mode that a character puts code into. */
  function Fresh(c: char): Mode
  {
    if c == '/' then Slash else if c == '"' || c == '\'' then Quote(c) else if IsAlpha(c) then Word else Code
  }

  function Next(m: Mode, c: char): Mode
  {
    match m
    case Code => Fresh(c)
    case Slash => if c == '/' then LineComment else if c == '*' then Block else Fresh(c)
    case Word => if IsAlnum(c) then Word else Fresh(c)
    case LineComment => LineComment
    case Block => if c == '*' then Star else Block
    case Star => if c == '/' then Code else if c == '*' then Star else Block
    case Quote(q) => if c == '\\' then Escape(q) else if c == q then Code else m
    case Escape(q) => Quote(q)
  }

  function End(m: Mode, s: string): Mode
    decreases |s|
  {
    if s == "" then m else End(Next(m, s[0]), s[1..])
  }

  predicate InComment(m: Mode) { m == Block || m == Star }

  function WordLen(s: string): (n: nat)
    ensures n <= |s| && (n < |s| ==> !IsAlnum(s[n])) && forall k :: 0 <= k < n ==> IsAlnum(s[k])
  {
    if s == "" || !IsAlnum(s[0]) then 0 else 1 + WordLen(s[1..])
  }

  /** The value of a word that is a macro; names are compared by their first 95 characters. */
  function Subst(ms: seq<Macro>, w: string): string
  {
    var i := Find(ms, Cut(w, MAX_IDENT - 1));
    if i < 0 then w else ms[i].value
  }

  /** The expanded line: whole words in code are replaced, every other character stays. */
  function Render(s: string, m: Mode, ms: seq<Macro>): string
    decreases |s|
  {
    if s == "" then ""
    else if Next(m, s[0]) == Word then
      var n := WordLen(s);
      if n == 0 then assert false; "" else Subst(ms, s[..n]) + Render(s[n..], Word, ms)
    else [s[0]] + Render(s[1..], Next(m, s[0]), ms)
  }

  function Start(inBlock: bool): Mode { if inBlock then Block else Code }

  function Expand(c: Core, line: string): Core
  {
    var m := Start(c.inBlock);
    var r := Put(c, Render(line, m, c.macros));
    if r.error then r else r.(inBlock := InComment(End(m, line)))
  }

  /** No character of `s`, read from mode m on, belongs to a word in code. */
  ghost predicate Wordless(s: string, m: Mode) { forall k :: 0 < k <= |s| ==> End(m, s[..k]) != Word }

  /** Strings, comments and everything else that is not a word in code are copied, whatever the macros are. */
  lemma {:induction false} RenderCopies(s: string, m: Mode, ms: seq<Macro>)
    requires Wordless(s, m)
    ensures Render(s, m, ms) == s
    decreases |s|
  {
    if s != "" {
      EndOne(m, s);
      var m1, t := Next(m, s[0]), s[1..];
      assert s[..1] == [s[0]];
      forall k | 0 < k <= |t|
        ensures End(m1, t[..k]) != Word
      {
        EndOne(m, s[..k + 1]);
        assert s[..k + 1][1..] == t[..k];
      }
      RenderCopies(t, m1, ms);
    }
  }

  /** Expansion works from left to right, cutting at any place that is not inside a word. */
  lemma {:induction false} RenderSplit(a: string, b: string, m: Mode, ms: seq<Macro>)
    requires b != "" && End(m, a) == Word ==> !IsAlnum(b[0])
    ensures Render(a + b, m, ms) == Render(a, m, ms) + Render(b, End(m, a), ms)
    decreases |a|
  {
    hide Render, Next, Subst;
    var s := a + b;
    if a == "" {
      assert s == b;
      RenderNone(m, ms);
    } else if Next(m, a[0]) == Word {
      var n := WordLen(a);
      WordHead(a, m, n);
      WordSame(a, b, m, n);
      RenderWord(a, m, ms);
      RenderWord(s, m, ms);
      assert s[..n] == a[..n] && s[n..] == a[n..] + b;
      RenderSplit(a[n..], b, Word, ms);
      Cat(Subst(ms, a[..n]), Render(a[n..], Word, ms), Render(b, End(m, a), ms));
    } else {
      assert s[1..] == a[1..] + b;
      RenderChar(a, m, ms);
      RenderChar(s, m, ms);
      RenderSplit(a[1..], b, Next(m, a[0]), ms);
      Cat([a[0]], Render(a[1..], Next(m, a[0]), ms), Render(b, End(m, a), ms));
    }
  }

  lemma Cat(a: string, b: string, c: string)
    ensures a + b + c == a + (b + c)
  {
  }

  lemma RenderNone(m: Mode, ms: seq<Macro>)
    ensures Render("", m, ms) == ""
  {
  }

  lemma RenderWord(s: string, m: Mode, ms: seq<Macro>)
    requires s != "" && Next(m, s[0]) == Word
    ensures var n := WordLen(s); n > 0 && Render(s, m, ms) == Subst(ms, s[..n]) + Render(s[n..], Word, ms)
  {
  }

  lemma RenderChar(s: string, m: Mode, ms: seq<Macro>)
    requires s != "" && Next(m, s[0]) != Word
    ensures Render(s, m, ms) == [s[0]] + Render(s[1..], Next(m, s[0]), ms)
  {
  }

  /** After the word at the front of `a` the mode is Word. */
  lemma WordHead(a: string, m: Mode, n: nat)
    requires a != "" && Next(m, a[0]) == Word && n == WordLen(a)
    ensures n > 0 && End(m, a) == End(Word, a[n..])
  {
    WordFirst(m, a[0]);
    var w := a[..n];
    assert a == w + a[n..];
    EndAppend(m, w, a[n..]);
    WordEnds(w[1..]);
  }

  lemma WordFirst(m: Mode, c: char)
    requires Next(m, c) == Word
    ensures IsAlnum(c)
  {
  }

  lemma WordSame(a: string, b: string, m: Mode, n: nat)
    requires a != "" && Next(m, a[0]) == Word && n == WordLen(a) && (b != "" && End(m, a) == Word ==> !IsAlnum(b[0]))
    ensures WordLen(a + b) == n
  {
    WordHead(a, m, n);
    if n == |a| && b != "" { assert a[n..] == ""; }
    WordIs(a + b, n);
  }

  lemma {:induction false} WordIs(s: string, n: nat)
    requires n <= |s| && (n < |s| ==> !IsAlnum(s[n])) && forall k :: 0 <= k < n ==> IsAlnum(s[k])
    ensures WordLen(s) == n
  {
    if n > 0 { WordIs(s[1..], n - 1); }
  }

  /** A stretch of a line that holds no word in code, such as a string or a comment, appears in the expanded line
      as it is, between the expansions of what surrounds it. */
  lemma Verbatim(a: string, b: string, c: string, m: Mode, ms: seq<Macro>)
    requires Wordless(b, End(m, a)) && b != ""
    ensures Render(a + b + c, m, ms) == Render(a, m, ms) + b + Render(c, End(m, a + b), ms)
  {
    var m1 := End(m, a);
    RenderCopies(b, m1, ms);
    assert b[..1] == [b[0]];
    EndOne(m1, b);
    EndAppend(m, a, b);
    RenderSplit(a, b, m, ms);
    assert b[..|b|] == b;
    RenderSplit(a + b, c, m, ms);
  }

  lemma EndOne(m: Mode, s: string)
    requires s != ""
    ensures End(m, s) == End(Next(m, s[0]), s[1..]) && End(m, [s[0]]) == Next(m, s[0])
  {
    assert [s[0]][1..] == "";
  }

  /** Without macros a line is copied. */
  lemma {:induction false} RenderNothing(s: string, m: Mode)
    ensures Render(s, m, []) == s
    decreases |s|
  {
    if s != "" {
      if Next(m, s[0]) == Word { RenderNothing(s[WordLen(s)..], Word); } else { RenderNothing(s[1..], Next(m, s[0])); }
    }
  }

  // ----- modes that do not differ for what follows -----

  predicate Same(m: Mode, n: Mode, s: string) { s != "" ==> Next(m, s[0]) == Next(n, s[0]) }

  lemma SameRender(m: Mode, n: Mode, s: string, ms: seq<Macro>)
    requires Same(m, n, s) && InComment(m) == InComment(n)
    ensures Render(s, m, ms) == Render(s, n, ms) && InComment(End(m, s)) == InComment(End(n, s))
  {
  }

  lemma {:induction false} WordEnds(s: string)
    requires forall k :: 0 <= k < |s| ==> IsAlnum(s[k])
    ensures End(Word, s) == Word
  {
    if s != "" { WordEnds(s[1..]); }
  }

  lemma {:induction false} EndAppend(m: Mode, a: string, b: string)
    ensures End(m, a + b) == End(End(m, a), b)
    decreases |a|
  {
    if a == "" {
      assert a + b == b;
    } else {
      EndAppend(Next(m, a[0]), a[1..], b);
      assert (a + b)[1..] == a[1..] + b;
    }
  }

  /** A line comment is copied to the end of the line. */
  lemma {:induction false} CommentCopied(s: string, ms: seq<Macro>)
    ensures Render(s, LineComment, ms) == s && End(LineComment, s) == LineComment
    decreases |s|
  {
    if s != "" { CommentCopied(s[1..], ms); }
  }
}
