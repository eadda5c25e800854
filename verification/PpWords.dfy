/** What the preprocessor does to the words of a line, and to lines that start with #, in terms of their texts. */
module PpWords {
  import opened Basics
  import opened PpText
  import opened PpTree
  import PpFiles

  const DIGITS := "0123456789"

  predicate Letter(c: char) { c in LOWER || c in UPPER || c == '_' }

  predicate WordChar(c: char) { Letter(c) || c in DIGITS }

  predicate Blank(s: string) { forall k :: 0 <= k < |s| ==> s[k] in " \t\r\n" }

  /** A letter or underscore, then letters, digits and underscores. */
  predicate Name(w: string) { w != "" && Letter(w[0]) && forall k :: 0 <= k < |w| ==> WordChar(w[k]) }

  lemma DigitAt(i: nat)
    requires i < 10
    ensures DIGITS[i] as int == 0x30 + i
  {
    if i < 5 { assert i in {0, 1, 2, 3, 4}; } else { assert i in {5, 6, 7, 8, 9}; }
  }

  lemma LetterIs(c: char)
    ensures Letter(c) <==> IsAlpha(c)
  {
    hide LOWER, UPPER;
    Basics.Letters(0);
    if c in LOWER {
      var i :| 0 <= i < 26 && LOWER[i] == c;
      Basics.Letters(i);
    }
    if c in UPPER {
      var i :| 0 <= i < 26 && UPPER[i] == c;
      Basics.Letters(i);
    }
    if 'a' <= c <= 'z' { Basics.Letters(c as int - 0x61); assert LOWER[c as int - 0x61] == c; }
    if 'A' <= c <= 'Z' { Basics.Letters(c as int - 0x41); assert UPPER[c as int - 0x41] == c; }
  }

  lemma WordCharIs(c: char)
    ensures WordChar(c) <==> IsAlnum(c)
  {
    hide Letter, IsAlpha, DIGITS;
    LetterIs(c);
    DigitAt(0);
    assert |DIGITS| == 10 by { DigitCount(); }
    if c in DIGITS {
      var i :| 0 <= i < 10 && DIGITS[i] == c;
      DigitAt(i);
    }
    if '0' <= c <= '9' { DigitAt(c as int - 0x30); assert DIGITS[c as int - 0x30] == c; }
  }

  lemma DigitCount()
    ensures |DIGITS| == 10
  {
  }

  lemma NameIs(w: string)
    requires Name(w)
    ensures w != "" && IsAlpha(w[0]) && forall k :: 0 <= k < |w| ==> IsAlnum(w[k])
  {
    hide Letter, WordChar, IsAlpha, IsAlnum;
    LetterIs(w[0]);
    forall k | 0 <= k < |w|
      ensures IsAlnum(w[k])
    {
      WordCharIs(w[k]);
    }
  }

  // ----- words -----

  /** The text a name stands for: the value of the first entry of that name. */
  predicate Means(ms: seq<Macro>, name: string, value: string)
  {
    exists i :: 0 <= i < |ms| && ms[i] == Macro(name, value) && forall k :: 0 <= k < i ==> ms[k].name != name
  }

  predicate NoMacro(ms: seq<Macro>, name: string) { forall k :: 0 <= k < |ms| ==> ms[k].name != name }

  /** The part of a word that is compared with the names of macros. */
  function Key(w: string): string { if |w| > 95 then w[..95] else w }

  /** A name that stands behind `a` and before `b` is a whole word in code. */
  ghost predicate Stands(a: string, w: string, b: string, m: Mode)
  {
    Name(w) && (End(m, a) == Code || End(m, a) == Slash) && (b != "" ==> !WordChar(b[0]))
  }

  lemma SubstMeans(ms: seq<Macro>, w: string, value: string)
    ensures Means(ms, Key(w), value) ==> Subst(ms, w) == value
    ensures NoMacro(ms, Key(w)) ==> Subst(ms, w) == w
  {
    var f := Find(ms, Key(w));
    if Means(ms, Key(w), value) {
      var i :| 0 <= i < |ms| && ms[i] == Macro(Key(w), value) && forall k :: 0 <= k < i ==> ms[k].name != Key(w);
      assert ms[i].name == Key(w);
    }
  }

  /** What stands for a whole word in the expanded line is the text the macros give for it. */
  lemma WordAt(a: string, w: string, b: string, m: Mode, ms: seq<Macro>)
    requires Stands(a, w, b, m)
    ensures Render(a + w + b, m, ms) == Render(a, m, ms) + Subst(ms, w) + Render(b, Word, ms)
    ensures End(m, a + w) == Word
  {
    hide Render, End, Subst, WordChar, Letter, Name;
    NameIs(w);
    var m1 := End(m, a);
    var t := w + b;
    assert a + w + b == a + t;
    RenderSplit(a, t, m, ms);
    NextWord(m1, w[0]);
    if b != "" { WordCharIs(b[0]); }
    WordIs(t, |w|);
    RenderWord(t, m1, ms);
    assert t[..|w|] == w && t[|w|..] == b;
    Cat(Render(a, m, ms), Subst(ms, w), Render(b, Word, ms));
    EndAppend(m, a, w);
    EndOne(m1, w);
    WordEnds(w[1..]);
  }

  lemma NextWord(m: Mode, c: char)
    requires (m == Code || m == Slash) && IsAlpha(c)
    ensures Next(m, c) == Word
  {
  }

  /** A macro is replaced by its value wherever it stands as a whole word in code. */
  lemma WordReplaced(a: string, w: string, b: string, m: Mode, ms: seq<Macro>, value: string)
    requires Stands(a, w, b, m) && Means(ms, Key(w), value)
    ensures Render(a + w + b, m, ms) == Render(a, m, ms) + value + Render(b, Word, ms)
  {
    WordAt(a, w, b, m, ms);
    SubstMeans(ms, w, value);
  }

  /** Every other word stays. */
  lemma WordKept(a: string, w: string, b: string, m: Mode, ms: seq<Macro>)
    requires Stands(a, w, b, m) && NoMacro(ms, Key(w))
    ensures Render(a + w + b, m, ms) == Render(a, m, ms) + w + Render(b, Word, ms)
  {
    WordAt(a, w, b, m, ms);
    SubstMeans(ms, w, w);
  }

  // ----- where the code of a line is -----

  /** A text without quotes and slashes that does not end in a word ends in code. */
  lemma {:induction false} PlainCode(a: string)
    requires forall k :: 0 <= k < |a| ==> a[k] !in "\"'/"
    requires a != "" ==> !WordChar(a[|a| - 1])
    ensures End(Code, a) == Code
  {
    if a != "" {
      var n := |a| - 1;
      PlainMode(a[..n]);
      assert a == a[..n] + [a[n]];
      EndAppend(Code, a[..n], [a[n]]);
      EndOne(End(Code, a[..n]), [a[n]]);
      WordCharIs(a[n]);
      assert a[n] !in "\"'/";
    }
  }

  lemma {:induction false} PlainMode(a: string)
    requires forall k :: 0 <= k < |a| ==> a[k] !in "\"'/"
    ensures End(Code, a) == Code || End(Code, a) == Word
  {
    if a != "" {
      var n := |a| - 1;
      PlainMode(a[..n]);
      assert a == a[..n] + [a[n]];
      EndAppend(Code, a[..n], [a[n]]);
      EndOne(End(Code, a[..n]), [a[n]]);
      assert a[n] !in "\"'/";
    }
  }

  /** Characters other than the quote, and escaped characters. */
  predicate Quoted(s: string, q: char)
  {
    || s == ""
    || (s[0] == '\\' && |s| >= 2 && Quoted(s[2..], q))
    || (s[0] != '\\' && s[0] != q && Quoted(s[1..], q))
  }

  /** A literal in single or double quotes is copied, whatever words it holds, and code goes on behind it. */
  lemma LiteralCopied(a: string, q: char, s: string, b: string, m: Mode, ms: seq<Macro>)
    requires (q == '"' || q == '\'') && Quoted(s, q) && (End(m, a) == Code || End(m, a) == Slash)
    ensures Render(a + ([q] + s + [q]) + b, m, ms) == Render(a, m, ms) + ([q] + s + [q]) + Render(b, Code, ms)
    ensures End(m, a + ([q] + s + [q])) == Code
  {
    hide Render, Wordless, End;
    var m1 := End(m, a);
    var text := [q] + s + [q];
    assert text[1..] == s + [q];
    InQuotes(s, q);
    WordlessOn(text, m1);
    EndOne(m1, text);
    EndAppend(m, a, text);
    Verbatim(a, text, b, m, ms);
  }

  lemma WordlessOn(s: string, m: Mode)
    requires s != "" && Next(m, s[0]) != Word && Wordless(s[1..], Next(m, s[0]))
    ensures Wordless(s, m)
  {
    forall k | 0 < k <= |s|
      ensures End(m, s[..k]) != Word
    {
      EndOne(m, s[..k]);
      assert s[..k][1..] == s[1..][..k - 1];
    }
  }

  lemma {:induction false} InQuotes(s: string, q: char)
    requires (q == '"' || q == '\'') && Quoted(s, q)
    ensures Wordless(s + [q], Quote(q)) && End(Quote(q), s + [q]) == Code
    decreases |s|
  {
    hide End, Wordless;
    var t := s + [q];
    EndOne(Quote(q), t);
    if s == "" {
      EndNone(Code);
      WordlessOn(t, Quote(q));
    } else if s[0] == '\\' {
      assert t[1..][1..] == s[2..] + [q];
      EndOne(Escape(q), t[1..]);
      InQuotes(s[2..], q);
      WordlessOn(t[1..], Escape(q));
      WordlessOn(t, Quote(q));
    } else {
      assert t[1..] == s[1..] + [q];
      InQuotes(s[1..], q);
      WordlessOn(t, Quote(q));
    }
  }

  lemma EndNone(m: Mode)
    ensures End(m, "") == m && Wordless("", m)
  {
  }

  /** From // on the rest of the line is copied. */
  lemma LineCommentCopied(a: string, s: string, m: Mode, ms: seq<Macro>)
    requires End(m, a) == Code
    ensures Render(a + ("//" + s), m, ms) == Render(a, m, ms) + ("//" + s)
  {
    hide Render, End;
    var t := "//" + s;
    RenderSplit(a, t, m, ms);
    RenderChar(t, Code, ms);
    RenderChar(t[1..], Slash, ms);
    assert t[1..][1..] == s;
    CommentCopied(s, ms);
  }

  /** No star is followed by a slash. */
  predicate Unclosed(s: string) { forall k :: 0 <= k < |s| - 1 ==> !(s[k] == '*' && s[k + 1] == '/') }

  /** A block comment is copied up to its end, and code goes on behind it. */
  lemma BlockCopied(a: string, s: string, b: string, m: Mode, ms: seq<Macro>)
    requires End(m, a) == Code && Unclosed(s)
    ensures Render(a + ("/*" + s + "*/") + b, m, ms) == Render(a, m, ms) + ("/*" + s + "*/") + Render(b, Code, ms)
    ensures End(m, a + ("/*" + s + "*/")) == Code
  {
    hide Render, Wordless, End;
    var t := "/*" + s + "*/";
    assert t[1..][1..] == s + "*/";
    InBlock(s);
    InBlockEnds(s);
    WordlessOn(t[1..], Slash);
    WordlessOn(t, Code);
    EndOne(Code, t);
    EndOne(Slash, t[1..]);
    EndAppend(m, a, t);
    Verbatim(a, t, b, m, ms);
  }

  /** An open block comment stays open at the end of the line. */
  lemma {:induction false} InBlock(s: string)
    requires Unclosed(s)
    ensures Wordless(s, Block) && End(Block, s) == if s != "" && s[|s| - 1] == '*' then Star else Block
    decreases |s|
  {
    hide Wordless, End;
    if s == "" {
      EndNone(Block);
    } else {
      var n := |s| - 1;
      var t := s[..n];
      InBlock(t);
      assert s == t + [s[n]];
      EndAppend(Block, t, [s[n]]);
      EndOne(End(Block, t), [s[n]]);
      assert [s[n]][1..] == "";
      EndNone(Next(End(Block, t), s[n]));
      WordlessMore(t, s[n], Block);
    }
  }

  lemma WordlessMore(s: string, c: char, m: Mode)
    requires Wordless(s, m) && End(m, s + [c]) != Word
    ensures Wordless(s + [c], m)
  {
    var t := s + [c];
    forall k | 0 < k <= |t|
      ensures End(m, t[..k]) != Word
    {
      assert t[..k] == if k <= |s| then s[..k] else t;
    }
  }

  lemma InBlockEnds(s: string)
    requires Unclosed(s)
    ensures Wordless(s + "*/", Block) && End(Block, s + "*/") == Code
  {
    hide Wordless, End;
    InBlock(s);
    var t := s + "*";
    EndAppend(Block, s, "*");
    EndOne(End(Block, s), "*");
    EndNone(Star);
    assert "*"[1..] == "";
    WordlessMore(s, '*', Block);
    EndAppend(Block, t, "/");
    EndOne(Star, "/");
    EndNone(Code);
    assert "/"[1..] == "";
    WordlessMore(t, '/', Block);
    assert t + "/" == s + "*/";
  }

  // ----- directives -----

  lemma BlankIs(s: string)
    requires Blank(s)
    ensures forall k :: 0 <= k < |s| ==> IsSpace(s[k])
  {
    forall k | 0 <= k < |s|
      ensures IsSpace(s[k])
    {
      assert s[k] in " \t\r\n";
    }
  }

  /** Blanks in front of a text that does not start with one are skipped. */
  lemma {:induction false} SkipIs(blank: string, s: string)
    requires Blank(blank) && (s == "" || !IsSpace(s[0]))
    ensures Skip(blank + s) == s
  {
    BlankIs(blank);
    SpaceIs(blank + s, |blank|);
  }

  lemma {:induction false} SpaceIs(s: string, n: nat)
    requires n <= |s| && (n < |s| ==> !IsSpace(s[n])) && forall k :: 0 <= k < n ==> IsSpace(s[k])
    ensures SpaceLen(s) == n
  {
    if n > 0 { SpaceIs(s[1..], n - 1); }
  }

  lemma {:induction false} AlphaIs(s: string, n: nat)
    requires n <= |s| && (n < |s| ==> !IsAlpha(s[n])) && forall k :: 0 <= k < n ==> IsAlpha(s[k])
    ensures AlphaLen(s) == n
  {
    if n > 0 { AlphaIs(s[1..], n - 1); }
  }

  lemma {:induction false} TrimIs(s: string, blank: string)
    requires Blank(blank) && (s != "" ==> !IsSpace(s[|s| - 1]))
    ensures TrimEnd(s + blank) == s
    decreases |blank|
  {
    BlankIs(blank);
    var t := s + blank;
    if blank == "" {
      assert t == s;
    } else {
      assert t[..|t| - 1] == s + blank[..|blank| - 1];
      TrimIs(s, blank[..|blank| - 1]);
    }
  }

  /** # and a word of letters, with any blanks before and between them. */
  lemma CommandParses(b0: string, b1: string, word: string, rest: string)
    requires Blank(b0) && Blank(b1) && word != "" && (forall k :: 0 <= k < |word| ==> Letter(word[k]))
    requires rest != "" ==> !Letter(rest[0])
    ensures var text := b0 + ("#" + (b1 + (word + rest))); IsDirective(text) && Parse(text) == Command(word, Skip(rest))
  {
    hide Command, SpaceLen, AlphaLen;
    forall k | 0 <= k < |word|
      ensures IsAlpha(word[k])
    {
      LetterIs(word[k]);
    }
    if rest != "" { LetterIs(rest[0]); }
    var s := word + rest;
    var t := "#" + (b1 + s);
    SkipIs(b0, t);
    assert t[1..] == b1 + s;
    AlphaNoSpace(word[0]);
    SkipIs(b1, s);
    AlphaIs(s, |word|);
    assert s[..|word|] == word && s[|word|..] == rest;
  }

  lemma AlphaNoSpace(c: char)
    ensures IsAlnum(c) ==> !IsSpace(c)
  {
  }

  predicate Literal(word: string) { word in ["define", "ifdef", "ifndef", "else", "endif", "include"] }

  lemma LiteralLetters(word: string)
    requires Literal(word)
    ensures word != "" && forall k :: 0 <= k < |word| ==> Letter(word[k])
  {
    forall k | 0 <= k < |word|
      ensures Letter(word[k])
    {
      LetterIs(word[k]);
    }
  }

  /** A value that a definition can hold as it is written. */
  predicate Solid(value: string)
  {
    value != "" ==> value[0] !in " \t\r\n" && value[|value| - 1] !in " \t\r\n"
  }

  /** The line that gives `name` the text `value`, with any blanks between its parts. */
  function DefineText(b: seq<string>, name: string, value: string): string
    requires |b| == 5
  {
    b[0] + ("#" + (b[1] + ("define" + (b[2] + (name + (b[3] + (value + b[4])))))))
  }

  predicate Blanks(b: seq<string>, value: string)
  {
    && |b| == 5 && (forall k :: 0 <= k < 5 ==> Blank(b[k])) && b[2] != "" && (value != "" ==> b[3] != "")
  }

  /** #define name value, cut to 95 and 255 characters. */
  lemma DefineParses(b: seq<string>, name: string, value: string)
    requires Name(name) && Solid(value) && Blanks(b, value)
    ensures var text := DefineText(b, name, value);
      && IsDirective(text)
      && Parse(text) == Define(Key(name), if |value| > 255 then value[..255] else value)
  {
    hide Parse, IsDirective, Blank, SpaceLen, AlphaLen, WordLen, TrimEnd, Name, IsAlpha, IsAlnum, IsSpace;
    var tail := b[3] + (value + b[4]);
    NameIs(name);
    LiteralLetters("define");
    BlankHead(b[2], name + tail);
    CommandParses(b[0], b[1], "define", b[2] + (name + tail));
    AlnumAlpha(name[0]);
    AlphaNoSpace(name[0]);
    SkipIs(b[2], name + tail);
    DefineRest(name, b[3], value, b[4]);
  }

  lemma AlnumAlpha(c: char)
    requires IsAlpha(c)
    ensures IsAlnum(c)
  {
  }

  lemma BlankHead(blank: string, s: string)
    requires Blank(blank) && blank != ""
    ensures !Letter((blank + s)[0]) && !IsAlnum(blank[0]) && IsSpace(blank[0]) && blank[0] != '('
  {
    BlankIs(blank);
    LetterIs(blank[0]);
  }

  lemma DefineRest(name: string, b3: string, value: string, b4: string)
    requires Name(name) && Solid(value) && Blank(b3) && Blank(b4) && (value != "" ==> b3 != "")
    ensures ParseDefine(name + (b3 + (value + b4)))
         == Define(Key(name), if |value| > 255 then value[..255] else value)
  {
    hide Blank, SpaceLen, WordLen, TrimEnd, Name, IsAlpha, IsAlnum;
    var tail := b3 + (value + b4);
    var rest := name + tail;
    NameIs(name);
    if b3 != "" {
      BlankHead(b3, value + b4);
    } else if b4 != "" {
      BlankHead(b4, "");
    }
    WordIs(rest, |name|);
    assert rest[..|name|] == name && rest[|name|..] == tail;
    if value == "" {
      assert tail == (b3 + b4) + "" && "" + "" == "";
      BlankBoth(b3, b4);
      SkipIs(b3 + b4, "");
      TrimIs("", "");
    } else {
      SolidIs(value);
      SkipIs(b3, value + b4);
      TrimIs(value, b4);
    }
  }

  lemma BlankBoth(a: string, b: string)
    requires Blank(a) && Blank(b)
    ensures Blank(a + b) && Blank("")
  {
  }

  lemma SolidIs(value: string)
    requires Solid(value) && value != ""
    ensures !IsSpace(value[0]) && !IsSpace(value[|value| - 1])
  {
    var blank := " \t\r\n";
    assert blank[0] == ' ' && blank[1] == '\t' && blank[2] == '\r' && blank[3] == '\n';
  }

  /** #ifdef and #ifndef name. */
  lemma IfParses(b0: string, b1: string, b2: string, name: string, more: string, wanted: bool)
    requires Blank(b0) && Blank(b1) && Blank(b2) && b2 != "" && Name(name) && (more != "" ==> !WordChar(more[0]))
    ensures var text := b0 + ("#" + (b1 + ((if wanted then "ifdef" else "ifndef") + (b2 + (name + more)))));
      IsDirective(text) && Parse(text) == IfDef(Key(name), wanted)
  {
    hide Parse, IsDirective, Blank, SpaceLen, AlphaLen, WordLen, Name, IsAlpha, IsAlnum, IsSpace;
    var word := if wanted then "ifdef" else "ifndef";
    LiteralLetters(word);
    NameIs(name);
    BlankHead(b2, name + more);
    CommandParses(b0, b1, word, b2 + (name + more));
    AlnumAlpha(name[0]);
    AlphaNoSpace(name[0]);
    SkipIs(b2, name + more);
    if more != "" { WordCharIs(more[0]); }
    WordIs(name + more, |name|);
    assert (name + more)[..|name|] == name;
  }

  /** #else and #endif. */
  lemma EndsParse(b0: string, b1: string, more: string, closes: bool)
    requires Blank(b0) && Blank(b1) && (more != "" ==> !Letter(more[0]))
    ensures var text := b0 + ("#" + (b1 + ((if closes then "endif" else "else") + more)));
      IsDirective(text) && Parse(text) == if closes then EndIf else Else
  {
    hide Parse, IsDirective;
    var word := if closes then "endif" else "else";
    LiteralLetters(word);
    CommandParses(b0, b1, word, more);
  }

  /** #include "path". */
  lemma IncludeParses(b0: string, b1: string, b2: string, path: string, more: string)
    requires Blank(b0) && Blank(b1) && Blank(b2) && '"' !in path
    ensures var text := b0 + ("#" + (b1 + ("include" + (b2 + ("\"" + (path + ("\"" + more)))))));
      IsDirective(text) && Parse(text) == if |path| < 256 then Include(path) else BadInclude
  {
    hide Parse, IsDirective, Blank, SpaceLen, AlphaLen, QuoteLen, IsAlpha, Letter, Skip;
    var tail := path + ("\"" + more);
    var rest := "\"" + tail;
    LiteralLetters("include");
    if b2 == "" { QuoteNoLetter(); } else { BlankHead(b2, rest); }
    CommandParses(b0, b1, "include", b2 + rest);
    SkipIs(b2, rest);
    assert rest[1..] == tail && tail[..|path|] == path;
    QuoteIs(tail, |path|);
  }

  lemma QuoteNoLetter()
    ensures !Letter('"')
  {
    LetterIs('"');
  }

  lemma {:induction false} QuoteIs(s: string, n: nat)
    requires n < |s| && s[n] == '"' && forall k :: 0 <= k < n ==> s[k] != '"'
    ensures QuoteLen(s) == n
  {
    if n > 0 { QuoteIs(s[1..], n - 1); }
  }

  /** An included file lies in the directory of the including one, unless its path starts with a slash. */
  lemma IncludeResolves(dir: string, file: string, path: string)
    requires '/' !in file && |path| < 256
    ensures var target := dir + "/" + path;
      PpFiles.Resolve(dir + "/" + file, path) == if path != "" && path[0] == '/' then path
        else if |target| > 255 then target[..255] else target
    ensures PpFiles.Resolve(file, path) == path
  {
    var base := dir + "/" + file;
    assert base[..|dir| + 1] == dir + "/" && base[|dir|] == '/';
    assert forall k :: |dir| < k < |base| ==> base[k] == file[k - |dir| - 1];
    assert PpFiles.LastSlash(base) == |dir|;
    assert PpFiles.LastSlash(file) == -1;
    var t := dir + "/";
    assert |t| > 255 ==> (t[..255] + path)[..255] == (t + path)[..255];
  }

  // ----- definitions and their use -----

  /** Setting a macro gives the name this value and changes no other name. */
  lemma SetMeans(c: Core, name: string, value: string, other: string, v: string)
    requires Find(c.macros, name) >= 0 || |c.macros| < MAX_MACROS
    ensures var d := SetMacro(c, name, value);
      && d == c.(macros := d.macros) && Means(d.macros, name, value)
      && (other != name ==> (Means(d.macros, other, v) <==> Means(c.macros, other, v)))
  {
    var d := SetMacro(c, name, value);
    var i := Find(c.macros, name);
    var at := if i >= 0 then i else |c.macros|;
    assert d.macros[at] == Macro(name, value);
    assert forall k :: 0 <= k < |c.macros| && k != at ==> d.macros[k] == c.macros[k];
    if other != name {
      if Means(c.macros, other, v) {
        var j :| 0 <= j < |c.macros| && c.macros[j] == Macro(other, v)
          && forall k :: 0 <= k < j ==> c.macros[k].name != other;
        assert d.macros[j] == Macro(other, v);
        forall k | 0 <= k < j
          ensures d.macros[k].name != other
        {
          assert c.macros[k].name != other;
        }
      }
      if Means(d.macros, other, v) {
        var j :| 0 <= j < |d.macros| && d.macros[j] == Macro(other, v)
          && forall k :: 0 <= k < j ==> d.macros[k].name != other;
        forall k | 0 <= k < j
          ensures c.macros[k].name != other
        {
          assert d.macros[k].name != other;
        }
      }
    }
  }

  /** Whether the pass reads on in code that counts. */
  predicate Live(p: Pass) { !p.core.error && p.active }

  /** A line that defines `name`. */
  predicate Defines(l: Line, name: string)
  {
    IsDirective(l.text) && Parse(l.text).Define? && Parse(l.text).name == name
  }

  /** #define name value: from here on the name means this value, whatever it meant before. */
  lemma DefineSteps(p: Pass, b: seq<string>, name: string, value: string, nl: bool)
    requires Live(p) && Name(name) && |name| <= 95 && Solid(value) && |value| <= 255 && Blanks(b, value)
    requires Find(p.core.macros, name) >= 0 || |p.core.macros| < MAX_MACROS
    requires |p.core.out| + 1 < MAX_OUT
    ensures var q := Step(p, Line(DefineText(b, name, value), nl));
      && Live(q) && Means(q.core.macros, name, value) && q.core.inBlock == p.core.inBlock && q.stack == p.stack
      && q.core.out == p.core.out + if nl then "\n" else ""
  {
    hide Live, Name, Means, Solid, Find, Step, IsDirective, Parse, SetMacro, DefineText, Blank;
    DefineParses(b, name, value);
    ShortKey(name);
    SetMeans(p.core, name, value, name, value);
    StepDefine(p, Line(DefineText(b, name, value), nl), name, value);
  }

  lemma ShortKey(w: string)
    requires |w| <= 95
    ensures Key(w) == w
  {
  }

  lemma StepDefine(p: Pass, l: Line, name: string, value: string)
    requires Live(p) && IsDirective(l.text) && Parse(l.text) == Define(name, value) && |p.core.out| + 1 < MAX_OUT
    requires SetMacro(p.core, name, value) == p.core.(macros := SetMacro(p.core, name, value).macros)
    ensures var q := Step(p, l);
      && Live(q) && q.core.macros == SetMacro(p.core, name, value).macros && q.core.inBlock == p.core.inBlock
      && q.stack == p.stack && q.core.out == p.core.out + if l.nl then "\n" else ""
  {
    hide SetMacro, IsDirective, Parse;
    assert p.core.out + "" == p.core.out;
  }

  /** Lines that do not define the name leave its meaning. */
  lemma {:induction false} StepsKeep(p: Pass, lines: seq<Line>, name: string, value: string)
    requires Means(p.core.macros, name, value) && forall k :: 0 <= k < |lines| ==> !Defines(lines[k], name)
    ensures Means(Steps(p, lines).core.macros, name, value)
    decreases |lines|
  {
    hide Step, Means, Defines;
    if lines != [] {
      assert !Defines(lines[0], name);
      StepKeeps(p, lines[0], name, value);
      assert forall k :: 0 <= k < |lines| - 1 ==> lines[1..][k] == lines[k + 1];
      StepsKeep(Step(p, lines[0]), lines[1..], name, value);
    }
  }

  lemma StepKeeps(p: Pass, l: Line, name: string, value: string)
    requires Means(p.core.macros, name, value) && !Defines(l, name)
    ensures Means(Step(p, l).core.macros, name, value)
  {
    hide Means, IsDirective, Parse, SetMacro, Find, Render, End;
    if IsDirective(l.text) && Parse(l.text).Define? {
      SetKeeps(p.core, Parse(l.text).name, Parse(l.text).value, name, value);
    }
  }

  lemma SetKeeps(c: Core, name: string, value: string, other: string, v: string)
    requires other != name && Means(c.macros, other, v)
    ensures Means(SetMacro(c, name, value).macros, other, v)
  {
    hide Means;
    if Find(c.macros, name) >= 0 || |c.macros| < MAX_MACROS { SetMeans(c, name, value, other, v); }
  }

  /** A line that holds the name as a whole word in code comes out with the value in its place. */
  lemma UseSteps(p: Pass, a: string, w: string, b: string, nl: bool, value: string)
    requires Live(p) && Means(p.core.macros, Key(w), value) && Stands(a, w, b, Start(p.core.inBlock))
    requires !IsDirective(a + w + b)
    ensures var ms, m := p.core.macros, Start(p.core.inBlock);
      var text := Render(a, m, ms) + value + Render(b, Word, ms);
      |p.core.out| + |text| + 1 < MAX_OUT ==>
        Step(p, Line(a + w + b, nl)).core.out == p.core.out + text + if nl then "\n" else ""
  {
    hide Means, IsDirective, Render, End, Stands;
    var ms, m := p.core.macros, Start(p.core.inBlock);
    WordReplaced(a, w, b, m, ms, value);
    var text := Render(a, m, ms) + value + Render(b, Word, ms);
    assert p.core.out + text + "" == p.core.out + text;
  }

  /** After a definition, and any lines that do not define the name again, a line that counts and uses the name
      comes out with the value. Earlier definitions of the name do not matter: the second one wins. */
  lemma DefineThenUse(p: Pass, bl: seq<string>, w: string, value: string, mid: seq<Line>, a: string, b: string,
                      nl: bool)
    requires Live(p) && Name(w) && |w| <= 95 && Solid(value) && |value| <= 255 && Blanks(bl, value)
    requires Find(p.core.macros, w) >= 0 || |p.core.macros| < MAX_MACROS
    requires |p.core.out| + 1 < MAX_OUT && forall k :: 0 <= k < |mid| ==> !Defines(mid[k], w)
    ensures var define := Line(DefineText(bl, w, value), true);
      var q := Steps(p, [define] + mid);
      var ms, m := q.core.macros, Start(q.core.inBlock);
      var text := Render(a, m, ms) + value + Render(b, Word, ms);
      Live(q) && Stands(a, w, b, m) && !IsDirective(a + w + b) && |q.core.out| + |text| + 1 < MAX_OUT ==>
        Steps(p, [define] + mid + [Line(a + w + b, nl)]).core.out == q.core.out + text + if nl then "\n" else ""
  {
    hide Means, IsDirective, Render, End, Stands, Step, Find, Live, Defines, Name;
    var define, use := Line(DefineText(bl, w, value), true), Line(a + w + b, nl);
    var q1 := Step(p, define);
    DefineSteps(p, bl, w, value, true);
    assert ([define] + mid)[1..] == mid;
    StepsKeep(q1, mid, w, value);
    var q := Steps(p, [define] + mid);
    StepsAppend(p, [define] + mid, [use]);
    OneStep(q, use);
    if Live(q) && Stands(a, w, b, Start(q.core.inBlock)) && !IsDirective(a + w + b) {
      UseSteps(q, a, w, b, nl, value);
    }
  }

  /** A second definition of a name wins over the first. */
  lemma SecondWins(p: Pass, b1: seq<string>, b2: seq<string>, w: string, v1: string, v2: string, mid: seq<Line>)
    requires Live(p) && Name(w) && |w| <= 95 && Solid(v1) && |v1| <= 255 && Solid(v2) && |v2| <= 255
    requires Blanks(b1, v1) && Blanks(b2, v2) && |p.core.out| + 1 < MAX_OUT
    requires Find(p.core.macros, w) >= 0 || |p.core.macros| < MAX_MACROS
    requires forall k :: 0 <= k < |mid| ==> !Defines(mid[k], w)
    ensures var q := Steps(p, [Line(DefineText(b1, w, v1), true)] + mid);
      && Means(q.core.macros, w, v1)
      && (Live(q) && |q.core.out| + 1 < MAX_OUT ==>
            Means(Step(q, Line(DefineText(b2, w, v2), true)).core.macros, w, v2))
  {
    hide Means, Step, Find, Live, Defines, Name;
    var define := Line(DefineText(b1, w, v1), true);
    DefineSteps(p, b1, w, v1, true);
    assert ([define] + mid)[1..] == mid;
    StepsKeep(Step(p, define), mid, w, v1);
    var q := Steps(p, [define] + mid);
    MeansFound(q.core.macros, w, v1);
    if Live(q) && |q.core.out| + 1 < MAX_OUT { DefineSteps(q, b2, w, v2, true); }
  }

  lemma MeansFound(ms: seq<Macro>, name: string, value: string)
    requires Means(ms, name, value)
    ensures Find(ms, name) >= 0
  {
    var i :| 0 <= i < |ms| && ms[i] == Macro(name, value) && forall k :: 0 <= k < i ==> ms[k].name != name;
    assert ms[i].name == name;
  }

  lemma OneStep(p: Pass, l: Line)
    ensures Steps(p, [l]) == Step(p, l)
  {
    hide Step;
    assert [l][1..] == [];
  }
}
