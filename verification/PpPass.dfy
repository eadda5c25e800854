/** The preprocessor as it runs: one pass over the text, updating flags, macros and output in place. */
module PpPass {
  import opened Basics
  import opened PpText
  import opened PpTree
  import opened PpFiles

  /** The same output, macros and error flag, and without an error the same in everything. */
  predicate Reached(c: Core, spec: Core) { c == spec.(inBlock := c.inBlock) && (!c.error ==> c == spec) }

  function Frames(parent: seq<bool>, taken: seq<bool>): (r: seq<Frame>)
    requires |parent| == |taken|
    ensures |r| == |parent|
  {
    seq(|parent|, i requires 0 <= i < |parent| => Frame(parent[i], taken[i]))
  }

  class Preprocessor {
    var macros: seq<Macro>
    var inBlock: bool
    var active: bool
    var depth: nat
    const parent: array<bool>
    const taken: array<bool>
    var out: string
    var error: bool
    const files: Files

    constructor (files: Files)
      ensures Valid() && View() == PpFiles.Fresh && fresh(parent) && fresh(taken) && this.files == files
    {
      this.files := files;
      macros, inBlock, active, depth, out, error := [], false, true, 0, "", false;
      parent := new bool[MAX_DEPTH](_ => false);
      taken := new bool[MAX_DEPTH](_ => false);
    }

    ghost predicate Valid()
      reads this
    {
      parent.Length == taken.Length == MAX_DEPTH && parent != taken && depth <= MAX_DEPTH && |out| < MAX_OUT
    }

    ghost function Text(): Core
      reads this
    {
      Core(macros, inBlock, out, error)
    }

    ghost function View(): Pass
      requires Valid()
      reads this, parent, taken
    {
      Pass(Text(), active, Frames(parent[..depth], taken[..depth]))
    }

    method AppendChar(c: char)
      requires Valid()
      modifies this`out, this`error
      ensures Valid() && Text() == Put(old(Text()), [c])
    {
      if error { return; }
      if |out| + 1 >= MAX_OUT {
        assert (out + [c])[..MAX_OUT - 1] == out;
        error := true;
        return;
      }
      out := out + [c];
    }

    method AppendText(s: string)
      requires Valid()
      modifies this`out, this`error
      ensures Valid() && Text() == Put(old(Text()), s)
    {
      hide Put;
      ghost var c := Text();
      var i := 0;
      PutNothing(c);
      while !error && i < |s|
        invariant 0 <= i <= |s| && Valid() && Text() == Put(c, s[..i])
      {
        PutPut(c, s[..i], [s[i]]);
        assert s[..i + 1] == s[..i] + [s[i]];
        AppendChar(s[i]);
        i := i + 1;
      }
      PutPut(c, s[..i], s[i..]);
      assert s == s[..i] + s[i..];
      PutStops(Text(), s[i..]);
    }

    method FindMacro(name: string) returns (i: int)
      ensures i == PpText.Find(macros, name)
    {
      i := 0;
      while i < |macros|
        invariant 0 <= i <= |macros| && forall k :: 0 <= k < i ==> macros[k].name != name
      {
        if macros[i].name == name { return; }
        i := i + 1;
      }
      i := -1;
    }

    method DefineMacro(name: string, value: string)
      requires Valid() && !error
      modifies this`macros, this`error
      ensures Valid() && Text() == SetMacro(old(Text()), name, value)
    {
      var i := FindMacro(name);
      if i < 0 {
        if |macros| >= MAX_MACROS { error := true; return; }
        macros := macros + [Macro(name, value)];
      } else {
        macros := macros[i := Macro(name, value)];
      }
    }

    /** Copies a string or character literal, up to its closing quote or the end of the line. */
    method CopyQuoted(line: string, start: nat) returns (p: nat, ghost done: string)
      requires Valid() && !error && start < |line| && (line[start] == '"' || line[start] == '\'')
      modifies this`out, this`error
      ensures Valid() && start < p <= |line| && Text() == Put(old(Text()), done)
      ensures done <= Render(line[start..], Code, macros)
      ensures !error ==> Leads(line, start, Code, p, Code, done, macros)
    {
      hide Put, Render, PpText.End;
      ghost var c0 := Text();
      var q := line[start];
      done := line[start..start + 1];
      AppendChar(line[start]);
      p := start + 1;
      LeadsOne(line, start, Code, macros);
      while !error && p < |line|
        invariant start < p <= |line| && Valid() && Text() == Put(c0, done)
        invariant Leads(line, start, Code, p, Quote(q), done, macros)
      {
        var c := line[p];
        ghost var at, sofar := p, done;
        PutPut(c0, done, [c]);
        AppendChar(c);
        p := p + 1;
        done := done + [c];
        LeadsOne(line, at, Quote(q), macros);
        LeadsOn(line, start, Code, at, Quote(q), sofar, p, Next(Quote(q), c), [c], macros);
        if c == '\\' && p < |line| {
          PutPut(c0, done, [line[p]]);
          ghost var sofar1 := done;
          done := done + [line[p]];
          AppendChar(line[p]);
          p := p + 1;
          LeadsOne(line, p - 1, Escape(q), macros);
          LeadsOn(line, start, Code, p - 1, Escape(q), sofar1, p, Quote(q), [line[p - 1]], macros);
          continue;
        }
        if c == q {
          LeadsStart(line, start, Code, p, Code, done, macros);
          return;
        }
        LeadsEnd(line, start, Code, p, Next(Quote(q), c), Quote(q), done, macros);
      }
      LeadsStart(line, start, Code, p, Quote(q), done, macros);
      if !error { LeadsEnd(line, start, Code, p, Quote(q), Code, done, macros); }
    }

    /** Replaces the word at `start`, if it is a macro. */
    method CopyWord(line: string, start: nat) returns (p: nat, ghost done: string)
      requires Valid() && !error && start < |line| && IsAlpha(line[start])
      modifies this`out, this`error
      ensures Valid() && start < p <= |line| && Text() == Put(old(Text()), done)
      ensures Leads(line, start, Code, p, Code, done, macros)
    {
      hide Put, Render;
      var ident := "";
      p := start;
      while p < |line| && IsAlnum(line[p])
        invariant start <= p <= |line| && ident == Cut(line[start..p], MAX_IDENT - 1)
        invariant forall k :: start <= k < p ==> IsAlnum(line[k])
      {
        assert line[start..p + 1] == line[start..p] + [line[p]];
        if |ident| < MAX_IDENT - 1 { ident := ident + [line[p]]; }
        p := p + 1;
      }
      WordAt(line, start, p);
      LeadsWord(line, start, p, macros);
      done := Subst(macros, line[start..p]);
      var i := FindMacro(ident);
      if i >= 0 { AppendText(macros[i].value); } else { AppendText(line[start..p]); }
    }

    /** Copies one line, replacing the macros in it. */
    method ExpandLine(line: string)
      requires Valid() && !error
      modifies this`inBlock, this`out, this`error
      ensures Valid() && Reached(Text(), Expand(old(Text()), line))
    {
      hide Put, Render, PpText.End, Expand;
      ghost var c0, m0, done := Text(), Start(inBlock), "";
      var p := 0;
      PutNothing(c0);
      LeadsHere(line, m0, macros);
      while !error && p < |line|
        invariant 0 <= p <= |line| && Valid() && Text() == Put(c0, done).(inBlock := inBlock)
        invariant done <= Render(line, m0, macros) && (!error ==> Leads(line, 0, m0, p, Start(inBlock), done, macros))
      {
        ghost var at, m, sofar, c1 := p, Start(inBlock), done, Text();
        ghost var piece;
        p, piece := ExpandNext(line, p);
        done := done + piece;
        PutBlock(Put(c0, sofar), c1.inBlock, piece);
        PutPut(c0, sofar, piece);
        LeadsPrefix(line, 0, m0, at, m, sofar, piece, macros);
        if !error { LeadsOn(line, 0, m0, at, m, sofar, p, Start(inBlock), piece, macros); }
      }
      Expanded(c0, line, Text(), done, p);
    }

    /** Copies what starts at `start`: a comment or a part of it, a literal, a word or a character. */
    method ExpandNext(line: string, start: nat) returns (p: nat, ghost done: string)
      requires Valid() && !error && start < |line|
      modifies this`inBlock, this`out, this`error
      ensures Valid() && start < p <= |line| && Text() == Put(old(Text()), done).(inBlock := inBlock)
      ensures done <= Render(line[start..], Start(old(inBlock)), macros)
      ensures !error ==> Leads(line, start, Start(old(inBlock)), p, Start(inBlock), done, macros)
    {
      hide Put, Render, PpText.End;
      ghost var c0, m0, ms := Text(), Start(inBlock), macros;
      p := start;
      var c := line[p];
      if inBlock {
        AppendChar(c);
        done := [c];
        if c == '*' && p + 1 < |line| && line[p + 1] == '/' {
          PutPut(c0, done, "/");
          assert done + "/" == "*/";
          AppendChar('/');
          done := "*/";
          p := p + 2;
          inBlock := false;
          LeadsTwo(line, start, Block, ms);
        } else {
          p := p + 1;
          LeadsOne(line, start, Block, ms);
          LeadsEnd(line, start, Block, p, Next(Block, c), Block, done, ms);
        }
      } else if c == '/' && p + 1 < |line| && line[p + 1] == '/' {
        done := line[p..];
        AppendText(line[p..]);
        p := |line|;
        LeadsComment(line, start, ms);
      } else if c == '/' && p + 1 < |line| && line[p + 1] == '*' {
        AppendChar('/');
        PutPut(c0, "/", "*");
        assert "/" + "*" == "/*";
        AppendChar('*');
        done := "/*";
        p := p + 2;
        inBlock := true;
        LeadsTwo(line, start, Code, ms);
      } else if c == '"' || c == '\'' {
        p, done := CopyQuoted(line, p);
        return;
      } else if IsAlpha(c) {
        p, done := CopyWord(line, p);
      } else {
        done := [c];
        AppendChar(c);
        p := p + 1;
        LeadsOne(line, start, Code, ms);
        LeadsEnd(line, start, Code, p, Next(Code, c), Code, done, ms);
      }
      LeadsStart(line, start, m0, p, Start(inBlock), done, ms);
    }

    /** Carries out a line that starts with #, in the file `path`. */
    method HandleDirective(line: string, path: string, nested: nat)
      requires Valid() && !error && IsDirective(line) && nested <= MAX_INCLUDES
      modifies this, parent, taken
      ensures Valid() && Reached(Text(), Directed(files, old(View()), line, path, nested).core)
      ensures !error ==> View() == Directed(files, old(View()), line, path, nested)
      decreases Left(nested), 0
    {
      hide SpaceLen, AlphaLen, WordLen, TrimEnd, PpText.Find, Cut, Obey, Parse, IsDirective, Command, ParseDefine,
           ParseInclude, FollowFile, QuoteLen;
      var p := SpacesEnd(line, 0);
      assert line[0..] == line;
      SkipFirst(line);
      p := p + 1;
      ghost var a := p;
      p := SpacesEnd(line, p);
      var word := p;
      p := AlphaEnd(line, p);
      var key := line[word..p];
      ghost var b := p;
      p := SpacesEnd(line, p);
      ghost var rest := line[p..];
      ParseIs(line, a, word, b, p);
      CommandIs(key, rest);
      if key == "include" {
        HandleInclude(rest, line, p, path, nested);
      } else if key == "define" {
        HandleDefine(rest, line, p);
      } else if key == "ifdef" || key == "ifndef" {
        var name := NameAt(line, p);
        HandleIf(name, key == "ifdef");
      } else if key == "else" {
        HandleElse();
      } else if key == "endif" {
        HandleEnd();
      } else {
        OtherKey(View(), key, rest);
      }
    }

    method HandleInclude(ghost rest: string, line: string, start: nat, path: string, nested: nat)
      requires Valid() && !error && start <= |line| && rest == line[start..] && nested <= MAX_INCLUDES
      modifies this, parent, taken
      ensures Valid() && Reached(Text(), Taken(files, old(View()), ParseInclude(rest), path, nested).core)
      ensures !error ==> View() == Taken(files, old(View()), ParseInclude(rest), path, nested)
      decreases Left(nested), 0, 0
    {
      hide QuoteLen, FollowFile, Cut, PpText.Find;
      if !active { return; }
      var p := start;
      if p >= |line| || line[p] != '"' { return; }
      p := p + 1;
      assert rest[1..] == line[p..];
      var name := "";
      ghost var first := p;
      while p < |line| && line[p] != '"' && |name| < MAX_PATH - 1
        invariant first <= p <= |line| && name == line[first..p] && |name| <= MAX_PATH - 1
        invariant forall k :: first <= k < p ==> line[k] != '"'
      {
        name := name + [line[p]];
        p := p + 1;
      }
      QuotedAt(line, first, p);
      if p >= |line| || line[p] != '"' { error := true; return; }
      var target := ResolvePath(path, name);
      ProcessFile(target, nested + 1);
    }

    method HandleDefine(ghost rest: string, line: string, start: nat)
      requires Valid() && !error && start <= |line| && rest == line[start..]
      modifies this`macros, this`error
      ensures Valid() && View() == Obey(old(View()), ParseDefine(rest))
    {
      hide SpaceLen, WordLen, TrimEnd, PpText.Find, Cut, ParseDefine, Skip;
      ghost var n := WordLen(rest);
      DefineParts(rest);
      if !active { return; }
      var p := start;
      if p >= |line| || !IsAlpha(line[p]) { error := true; return; }
      p := WordEnd(line, p);
      var name := NameAt(line, start);
      Slices(line, start, n);
      if p < |line| && line[p] == '(' { return; }
      SkipAt(line, p);
      p := SpacesEnd(line, p);
      var value := ValueAt(line, p);
      DefineMacro(name, value);
    }

    method HandleIf(name: string, wanted: bool)
      requires Valid() && !error
      modifies this`active, this`depth, this`error, parent, taken
      ensures Valid() && View() == Obey(old(View()), IfDef(name, wanted))
    {
      hide PpText.Find;
      ghost var v := View();
      if depth >= MAX_DEPTH { error := true; return; }
      var i := FindMacro(name);
      var cond := (|name| > 0 && i >= 0) == wanted;
      ghost var a, b := parent[..depth], taken[..depth];
      parent[depth] := active;
      taken[depth] := cond;
      FramesPush(a, b, active, cond);
      active := active && cond;
      depth := depth + 1;
      assert parent[..depth] == a + [v.active] && taken[..depth] == b + [cond];
    }

    method HandleElse()
      requires Valid() && !error
      modifies this`active, this`error, taken
      ensures Valid() && View() == Obey(old(View()), Else)
    {
      if depth == 0 { error := true; return; }
      var i := depth - 1;
      ghost var a, b := parent[..depth], taken[..depth];
      FramesPush(a[..i], b[..i], a[i], b[i]);
      FramesPush(a[..i], b[..i], a[i], true);
      assert a == a[..i] + [a[i]] && b == b[..i] + [b[i]];
      active := parent[i] && !taken[i];
      taken[i] := true;
      assert parent[..depth] == a && taken[..depth] == b[..i] + [true];
    }

    method HandleEnd()
      requires Valid() && !error
      modifies this`active, this`depth, this`error
      ensures Valid() && View() == Obey(old(View()), EndIf)
    {
      if depth == 0 { error := true; return; }
      ghost var a, b, i := parent[..depth], taken[..depth], depth - 1;
      FramesPush(a[..i], b[..i], a[i], b[i]);
      assert a == a[..i] + [a[i]] && b == b[..i] + [b[i]];
      depth := depth - 1;
      active := parent[depth];
      assert parent[..depth] == a[..i] && taken[..depth] == b[..i];
    }

    /** One pass over the text of a file. */
    method ProcessText(text: string, path: string, nested: nat)
      requires Valid() && !error && nested <= MAX_INCLUDES
      modifies this, parent, taken
      ensures Valid() && Reached(Text(), Follow(files, old(View()), Split(text), path, nested).core)
      ensures !error ==> View() == Follow(files, old(View()), Split(text), path, nested)
      decreases Left(nested), 1
    {
      hide Step, Split, LineLen, Put, Expand, Directed, FollowLine, Follow, IsDirective, SpaceLen;
      ghost var v, pass := View(), View();
      var p := 0;
      assert text[0..] == text;
      while !error && p < |text|
        invariant 0 <= p <= |text| && Valid()
        invariant Reached(Text(), pass.core) && (!error ==> View() == pass)
        invariant Follow(files, pass, Split(text[p..]), path, nested) == Follow(files, v, Split(text), path, nested)
      {
        ghost var was, left := pass, text[p..];
        var end := LineEnd(text, p);
        var line := text[p..end];
        ghost var l := Line(line, end < |text|);
        SplitAt(text, p, end);
        var s := SpacesEnd(line, 0);
        assert line[0..] == line;
        DirectiveIs(line, s);
        if s < |line| && line[s] == '#' {
          HandleDirective(line, path, nested);
          pass := Directed(files, was, line, path, nested);
        } else if active {
          ExpandLine(line);
          pass := was.(core := Expand(was.core, line));
        }
        p := end;
        if p < |text| {
          NewlineReached(Text(), pass.core);
          AppendChar('\n');
          p := p + 1;
        }
        LineIsStep(files, was, l, pass, path, nested);
        if end == |text| { SplitDone(text, p); }
        assert Split(left) == [l] + Split(text[p..]);
        FollowFirst(files, was, l, Split(text[p..]), path, nested);
        pass := FollowLine(files, was, l, path, nested);
      }
      if error {
        FollowFailed(files, pass, Split(text[p..]), path, nested);
      } else {
        FollowDone(files, pass, text, p, path, nested);
      }
    }

    /** Reads a file and preprocesses it. */
    method ProcessFile(path: string, nested: nat)
      requires Valid()
      modifies this, parent, taken
      ensures Valid() && Reached(Text(), FollowFile(files, old(View()), path, nested).core)
      ensures !error ==> View() == FollowFile(files, old(View()), path, nested)
      decreases Left(nested), 2
    {
      hide Follow, Split;
      if error { return; }
      if nested > MAX_INCLUDES { error := true; return; }
      var source := files(path);
      if source.None? { error := true; return; }
      ProcessText(source.value, path, nested);
    }

    /** Preprocesses a file: the output, unless there was an error or a conditional is still open. */
    method Preprocess(path: string) returns (r: Option<string>)
      requires Valid() && View() == PpFiles.Fresh
      modifies this, parent, taken
      ensures r == Preprocessed(files, path)
    {
      hide FollowFile, Put;
      ProcessFile(path, 0);
      if !error && depth != 0 { error := true; }
      if !error { AppendChar('\0'); }
      r := if error then None else Some(out);
    }
  }

  /** What a directive does to the pass, an include that is followed among them. */
  function Taken(files: Files, p: Pass, d: Directive, path: string, nested: nat): Pass
  {
    if p.active && d.Include? then FollowFile(files, p, Resolve(path, d.path), nested + 1) else Obey(p, d)
  }

  function Directed(files: Files, p: Pass, line: string, path: string, nested: nat): Pass
    requires IsDirective(line)
  {
    Taken(files, p, Parse(line), path, nested)
  }

  // ----- scanning -----

  method SpacesEnd(s: string, i: nat) returns (j: nat)
    requires i <= |s|
    ensures i <= j <= |s| && j == i + SpaceLen(s[i..])
  {
    j := i;
    while j < |s| && IsSpace(s[j])
      invariant i <= j <= |s| && forall k :: i <= k < j ==> IsSpace(s[k])
    {
      j := j + 1;
    }
    SpaceIs(s[i..], j - i);
  }

  method AlphaEnd(s: string, i: nat) returns (j: nat)
    requires i <= |s|
    ensures i <= j <= |s| && j == i + AlphaLen(s[i..])
  {
    j := i;
    while j < |s| && IsAlpha(s[j])
      invariant i <= j <= |s| && forall k :: i <= k < j ==> IsAlpha(s[k])
    {
      j := j + 1;
    }
    AlphaIs(s[i..], j - i);
  }

  method WordEnd(s: string, i: nat) returns (j: nat)
    requires i <= |s|
    ensures i <= j <= |s| && j == i + WordLen(s[i..])
  {
    j := i;
    while j < |s| && IsAlnum(s[j])
      invariant i <= j <= |s| && forall k :: i <= k < j ==> IsAlnum(s[k])
    {
      j := j + 1;
    }
    WordIs(s[i..], j - i);
  }

  method LineEnd(s: string, i: nat) returns (j: nat)
    requires i <= |s|
    ensures i <= j <= |s| && j == i + LineLen(s[i..])
  {
    j := i;
    while j < |s| && s[j] != '\n'
      invariant i <= j <= |s| && forall k :: i <= k < j ==> s[k] != '\n'
    {
      j := j + 1;
    }
    LineIs(s[i..], j - i);
  }

  /** The name at `i`, cut to what an identifier may have. */
  method NameAt(s: string, i: nat) returns (name: string)
    requires i <= |s|
    ensures name == Cut(s[i..][..WordLen(s[i..])], MAX_IDENT - 1)
  {
    name := "";
    var j := i;
    while j < |s| && IsAlnum(s[j])
      invariant i <= j <= |s| && name == Cut(s[i..j], MAX_IDENT - 1) && forall k :: i <= k < j ==> IsAlnum(s[k])
    {
      assert s[i..j + 1] == s[i..j] + [s[j]];
      if |name| < MAX_IDENT - 1 { name := name + [s[j]]; }
      j := j + 1;
    }
    WordIs(s[i..], j - i);
    assert s[i..][..j - i] == s[i..j];
  }

  /** The value from `i` to the end of the line without its trailing spaces, cut to what a value may have. */
  method ValueAt(s: string, i: nat) returns (value: string)
    requires i <= |s|
    ensures value == Cut(TrimEnd(s[i..]), MAX_VALUE - 1)
  {
    var end := |s|;
    while end > i && IsSpace(s[end - 1])
      invariant i <= end <= |s| && forall k :: end <= k < |s| ==> IsSpace(s[k])
    {
      end := end - 1;
    }
    TrimIs(s[i..], end - i);
    assert s[i..][..end - i] == s[i..end];
    value := "";
    var j := i;
    while j < end && |value| < MAX_VALUE - 1
      invariant i <= j <= end && value == s[i..j] && |value| <= MAX_VALUE - 1
    {
      value := value + [s[j]];
      j := j + 1;
    }
    assert s[i..end][..j - i] == s[i..j];
  }

  lemma {:induction false} SpaceIs(s: string, n: nat)
    requires n <= |s| && (n < |s| ==> !IsSpace(s[n])) && forall k :: 0 <= k < n ==> IsSpace(s[k])
    ensures SpaceLen(s) == n
  {
    if n > 0 { SpaceIs(s[1..], n - 1); }
  }

  lemma {:induction false} AlphaIs(s: string, n: nat)
    requires n <= |s| && (n < |s| ==> !IsAlpha(s[n])) && forall k :: 0 <= k < n ==> IsAlpha(s[k])
    ensures AlphaLen(s) == n
  {
    if n > 0 { AlphaIs(s[1..], n - 1); }
  }

  lemma {:induction false} LineIs(s: string, n: nat)
    requires n <= |s| && (n < |s| ==> s[n] == '\n') && forall k :: 0 <= k < n ==> s[k] != '\n'
    ensures LineLen(s) == n
  {
    if n > 0 { LineIs(s[1..], n - 1); }
  }

  lemma {:induction false} TrimIs(s: string, n: nat)
    requires n <= |s| && (n > 0 ==> !IsSpace(s[n - 1])) && forall k :: n <= k < |s| ==> IsSpace(s[k])
    ensures TrimEnd(s) == s[..n]
    decreases |s|
  {
    if n < |s| {
      TrimIs(s[..|s| - 1], n);
      assert s[..|s| - 1][..n] == s[..n];
    } else {
      assert s[..n] == s;
    }
  }

  lemma ParseIs(line: string, a: nat, word: nat, b: nat, p: nat)
    requires IsDirective(line) && a == SpaceLen(line) + 1 <= |line| && word == a + SpaceLen(line[a..]) <= |line|
    requires b == word + AlphaLen(line[word..]) <= |line| && p == b + SpaceLen(line[b..]) <= |line|
    ensures Parse(line) == Command(line[word..b], line[p..])
  {
    hide SpaceLen, AlphaLen, Command, Skip, Parse, IsDirective;
    var t, s, e, n := line[a..], line[word..], line[b..], b - word;
    assert Skip(line) != "" && Skip(line)[1..] == t by { SkipFirst(line); }
    assert Skip(t) == s by { SkipAt(line, a); }
    assert s[..n] == line[word..b] && s[n..] == e by { Slices(line, word, n); }
    assert Skip(e) == line[p..] by { SkipAt(line, b); }
    ParseOf(line, t, s, n, s[..n], e);
  }

  lemma ParseOf(line: string, t: string, s: string, n: nat, key: string, e: string)
    requires IsDirective(line) && Skip(line) != "" && t == Skip(line)[1..] && s == Skip(t) && n == AlphaLen(s)
    requires key == s[..n] && e == s[n..]
    ensures Parse(line) == Command(key, Skip(e))
  {
    hide Skip, AlphaLen, Command;
  }

  lemma Slices(s: string, i: nat, n: nat)
    requires i + n <= |s|
    ensures s[i..][n..] == s[i + n..] && s[i..][..n] == s[i..i + n]
  {
  }

  lemma SkipFirst(line: string)
    requires IsDirective(line)
    ensures var a := SpaceLen(line) + 1; a <= |line| && Skip(line) != "" && Skip(line)[1..] == line[a..]
  {
    hide SpaceLen;
    assert Skip(line)[1..] == line[SpaceLen(line) + 1..];
  }

  lemma SkipAt(line: string, a: nat)
    requires a <= |line|
    ensures Skip(line[a..]) == line[a + SpaceLen(line[a..])..]
  {
    hide SpaceLen;
  }

  lemma DefineParts(rest: string)
    ensures var n := WordLen(rest);
      ParseDefine(rest) == if rest == "" || !IsAlpha(rest[0]) then BadDefine
                           else if n < |rest| && rest[n] == '(' then Unknown
                           else Define(Cut(rest[..n], MAX_IDENT - 1), Cut(TrimEnd(Skip(rest[n..])), MAX_VALUE - 1))
  {
    hide WordLen, Cut, TrimEnd, Skip;
  }

  lemma CommandIs(key: string, rest: string)
    ensures var d := Command(key, rest);
      && (key == "include" ==> d == ParseInclude(rest)) && (key == "define" ==> d == ParseDefine(rest) && !d.Include?)
      && (key == "ifdef" || key == "ifndef" ==> d == IfDef(Cut(rest[..WordLen(rest)], MAX_IDENT - 1), key == "ifdef"))
      && (key == "else" ==> d == Else) && (key == "endif" ==> d == EndIf)
  {
    hide ParseInclude, WordLen, Cut, TrimEnd, Skip;
  }

  lemma OtherKey(v: Pass, key: string, rest: string)
    requires key != "include" && key != "define" && key != "ifdef" && key != "ifndef"
    requires key != "else" && key != "endif"
    ensures Obey(v, Command(key, rest)) == v && !Command(key, rest).Include?
  {
  }

  lemma FramesPush(a: seq<bool>, b: seq<bool>, x: bool, y: bool)
    requires |a| == |b|
    ensures Frames(a + [x], b + [y]) == Frames(a, b) + [Frame(x, y)]
  {
  }

  lemma SplitAt(text: string, p: nat, end: nat)
    requires p < |text| && end == p + LineLen(text[p..])
    ensures Split(text[p..])
         == [Line(text[p..end], end < |text|)] + (if end < |text| then Split(text[end + 1..]) else [])
  {
    hide LineLen, Split;
    var n := LineLen(text[p..]);
    SplitFirst(text[p..]);
    Slices(text, p, n);
    if end < |text| { Slices(text, p, n + 1); }
  }

  lemma SplitDone(text: string, p: nat)
    requires p == |text|
    ensures Split(text[p..]) == []
  {
  }

  lemma DirectiveIs(line: string, s: nat)
    requires s == SpaceLen(line)
    ensures IsDirective(line) <==> s < |line| && line[s] == '#'
  {
  }

  lemma NewlineReached(c: Core, spec: Core)
    requires Reached(c, spec)
    ensures Reached(Put(c, "\n"), Put(spec, "\n")) && (c.error ==> Put(c, "\n").error)
  {
  }

  lemma LineIsStep(files: Files, p: Pass, l: Line, q: Pass, path: string, nested: nat)
    requires !p.core.error && nested <= MAX_INCLUDES
    requires q == if IsDirective(l.text) then Directed(files, p, l.text, path, nested)
                  else if p.active then p.(core := Expand(p.core, l.text)) else p
    ensures FollowLine(files, p, l, path, nested) == q.(core := if l.nl then Put(q.core, "\n") else q.core)
  {
    hide Obey, Parse, Expand, Put, FollowFile, IsDirective;
  }

  lemma FollowDone(files: Files, p: Pass, text: string, at: nat, path: string, nested: nat)
    requires at == |text| && nested <= MAX_INCLUDES
    ensures Follow(files, p, Split(text[at..]), path, nested) == p
  {
    SplitDone(text, at);
  }

  lemma QuotedAt(line: string, a: nat, b: nat)
    requires a <= b <= |line| && (forall k :: a <= k < b ==> line[k] != '"')
    requires b < |line| && line[b] != '"' ==> b - a >= MAX_PATH - 1
    ensures var s := line[a..]; var n := QuoteLen(s);
      && (b < |line| && line[b] == '"' ==> n == b - a < |s| && s[..n] == line[a..b])
      && (b == |line| ==> n == |s|) && (b < |line| && line[b] != '"' ==> n > b - a || n == |s|)
  {
    var s := line[a..];
    assert forall k :: 0 <= k < b - a ==> s[k] == line[a + k];
    QuoteBound(s, b - a);
  }

  lemma QuoteBound(s: string, n: nat)
    requires n <= |s| && forall k :: 0 <= k < n ==> s[k] != '"'
    ensures n <= QuoteLen(s) && (n < |s| && s[n] == '"' ==> QuoteLen(s) == n)
  {
  }

  /** The path of an included file. */
  method ResolvePath(base: string, path: string) returns (target: string)
    requires |path| < MAX_PATH
    ensures target == Resolve(base, path)
  {
    if |path| > 0 && path[0] == '/' { return path; }
    var slash := |base| - 1;
    while slash >= 0 && base[slash] != '/'
      invariant -1 <= slash < |base| && forall k :: slash < k < |base| ==> base[k] != '/'
    {
      slash := slash - 1;
    }
    if slash < 0 { return path; }
    var n := slash + 1;
    if n > MAX_PATH - 1 { n := MAX_PATH - 1; }
    target := base[..n];
    ghost var dir := target;
    var i := 0;
    while i < |path| && |target| < MAX_PATH - 1
      invariant 0 <= i <= |path| && target == dir + path[..i] && |target| <= MAX_PATH - 1
    {
      target := target + [path[i]];
      i := i + 1;
    }
    assert LastSlash(base) == slash;
    assert base[..slash + 1][..n] == dir;
    assert (dir + path)[..n + i] == dir + path[..i];
  }

  lemma PutNothing(c: Core)
    requires |c.out| < MAX_OUT
    ensures Put(c, "") == c
  {
    assert c.out + "" == c.out;
  }

  lemma PutStops(c: Core, s: string)
    requires |c.out| < MAX_OUT && (c.error || s == "")
    ensures Put(c, s) == c
  {
    PutNothing(c);
  }

  lemma PutBlock(c: Core, b: bool, s: string)
    ensures Put(c.(inBlock := b), s) == Put(c, s).(inBlock := b)
  {
  }

  /** Reading the line from `a` in mode m comes to `b` in mode n, with `done` as the output in between. */
  ghost predicate Leads(line: string, a: nat, m: Mode, b: nat, n: Mode, done: string, ms: seq<Macro>)
  {
    && a <= b <= |line| && Render(line[a..], m, ms) == done + Render(line[b..], n, ms)
    && InComment(PpText.End(m, line[a..])) == InComment(PpText.End(n, line[b..]))
  }

  lemma LeadsHere(line: string, m: Mode, ms: seq<Macro>)
    ensures Leads(line, 0, m, 0, m, "", ms)
  {
    hide Render, PpText.End;
    assert "" + Render(line[0..], m, ms) == Render(line[0..], m, ms);
  }

  lemma LeadsOne(line: string, a: nat, m: Mode, ms: seq<Macro>)
    requires a < |line| && Next(m, line[a]) != Word
    ensures Leads(line, a, m, a + 1, Next(m, line[a]), [line[a]], ms) && line[a..a + 1] == [line[a]]
  {
    hide Render;
    var s := line[a..];
    assert s[1..] == line[a + 1..];
    RenderChar(s, m, ms);
  }

  lemma LeadsOn(line: string, a: nat, m: Mode, b: nat, n: Mode, done: string, c: nat, k: Mode, more: string,
      ms: seq<Macro>)
    requires Leads(line, a, m, b, n, done, ms) && Leads(line, b, n, c, k, more, ms)
    ensures Leads(line, a, m, c, k, done + more, ms)
  {
    hide Render, PpText.End;
    Cat(done, more, Render(line[c..], k, ms));
  }

  /** The mode may be exchanged for one that reads the rest of the line the same. */
  lemma LeadsEnd(line: string, a: nat, m: Mode, b: nat, n: Mode, k: Mode, done: string, ms: seq<Macro>)
    requires Leads(line, a, m, b, n, done, ms) && Same(n, k, line[b..]) && InComment(n) == InComment(k)
    ensures Leads(line, a, m, b, k, done, ms)
  {
    hide Render, PpText.End;
    SameRender(n, k, line[b..], ms);
  }

  lemma LeadsStart(line: string, a: nat, m: Mode, b: nat, n: Mode, done: string, ms: seq<Macro>)
    requires Leads(line, a, m, b, n, done, ms)
    ensures done <= Render(line[a..], m, ms)
  {
    hide Render, PpText.End;
  }

  lemma LeadsPrefix(line: string, a: nat, m: Mode, b: nat, n: Mode, done: string, more: string, ms: seq<Macro>)
    requires Leads(line, a, m, b, n, done, ms) && more <= Render(line[b..], n, ms)
    ensures done + more <= Render(line[a..], m, ms) && line[0..] == line
  {
    hide Render, PpText.End;
  }

  /** The opening and the closing of a block comment. */
  lemma LeadsTwo(line: string, a: nat, m: Mode, ms: seq<Macro>)
    requires a + 1 < |line|
    requires
      || (m == Block && line[a] == '*' && line[a + 1] == '/')
      || (m == Code && line[a] == '/' && line[a + 1] == '*')
    ensures Leads(line, a, m, a + 2, if m == Block then Code else Block, [line[a], line[a + 1]], ms)
  {
    hide Render, PpText.End;
    var n := Next(m, line[a]);
    LeadsOne(line, a, m, ms);
    LeadsOne(line, a + 1, n, ms);
    LeadsOn(line, a, m, a + 1, n, [line[a]], a + 2, Next(n, line[a + 1]), [line[a + 1]], ms);
    assert [line[a]] + [line[a + 1]] == [line[a], line[a + 1]];
  }

  lemma LeadsComment(line: string, a: nat, ms: seq<Macro>)
    requires a + 1 < |line| && line[a] == '/' && line[a + 1] == '/'
    ensures Leads(line, a, Code, |line|, Code, line[a..], ms)
  {
    hide Render;
    LeadsOne(line, a, Code, ms);
    LeadsOne(line, a + 1, Slash, ms);
    LeadsOn(line, a, Code, a + 1, Slash, [line[a]], a + 2, LineComment, [line[a + 1]], ms);
    CommentCopied(line[a + 2..], ms);
    RenderNone(Code, ms);
    assert line[|line|..] == "";
    assert [line[a]] + [line[a + 1]] + line[a + 2..] == line[a..] + "";
  }

  lemma WordAt(line: string, a: nat, b: nat)
    requires a < b <= |line| && (b < |line| ==> !IsAlnum(line[b])) && forall k :: a <= k < b ==> IsAlnum(line[k])
    ensures WordLen(line[a..]) == b - a && line[a..][..b - a] == line[a..b] && line[a..][b - a..] == line[b..]
  {
    WordIs(line[a..], b - a);
  }

  lemma LeadsWord(line: string, a: nat, b: nat, ms: seq<Macro>)
    requires a < b <= |line| && IsAlpha(line[a]) && WordLen(line[a..]) == b - a
    requires line[a..][..b - a] == line[a..b] && line[a..][b - a..] == line[b..] && (b < |line| ==> !IsAlnum(line[b]))
    ensures Leads(line, a, Code, b, Code, Subst(ms, line[a..b]), ms)
  {
    hide Render, Subst;
    var s := line[a..];
    RenderWord(s, Code, ms);
    WordHead(s, Code, b - a);
    SameRender(Word, Code, line[b..], ms);
  }

  lemma Expanded(c0: Core, line: string, c: Core, done: string, p: nat)
    requires |c0.out| < MAX_OUT && !c0.error && p <= |line| && c == Put(c0, done).(inBlock := c.inBlock)
    requires done <= Render(line, Start(c0.inBlock), c0.macros)
    requires !c.error ==> p == |line| && Leads(line, 0, Start(c0.inBlock), p, Start(c.inBlock), done, c0.macros)
    ensures Reached(c, Expand(c0, line))
  {
    var whole := Render(line, Start(c0.inBlock), c0.macros);
    hide Render;
    assert line[0..] == line && line[|line|..] == "";
    PutPut(c0, done, whole[|done|..]);
    assert whole == done + whole[|done|..];
    if !c.error {
      RenderNone(Start(c.inBlock), c0.macros);
      assert done + "" == done;
    }
  }
}
