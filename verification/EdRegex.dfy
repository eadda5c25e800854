/** The pattern matcher of the line editor: literals, `.`, `x*`, a leading `^` and a final `$`. */
module EdRegex {
  import opened Basics

  // ----- what a pattern means -----

  /** One character, or any number of the same; `.` stands for every character. */
  datatype Item = One(c: char) | Many(c: char)

  predicate Fits(c: char, x: char) { c == '.' || c == x }

  predicate ItemHas(i: Item, s: string)
  {
    match i
    case One(c) => |s| == 1 && Fits(c, s[0])
    case Many(c) => forall k :: 0 <= k < |s| ==> Fits(c, s[k])
  }

  function Concat(parts: seq<string>): string { if parts == [] then "" else parts[0] + Concat(parts[1..]) }

  /** `s` falls into parts, one for each item. */
  ghost predicate InLanguage(items: seq<Item>, s: string)
  {
    exists parts: seq<string> :: IsSplit(items, s, parts)
  }

  ghost predicate IsSplit(items: seq<Item>, s: string, parts: seq<string>)
  {
    |parts| == |items| && Concat(parts) == s && forall k :: 0 <= k < |items| ==> ItemHas(items[k], parts[k])
  }

  /** The items of a pattern; a final `$` is not an item. */
  function Items(pat: string): seq<Item>
  {
    if pat == "" then []
    else if |pat| >= 2 && pat[1] == '*' then [Many(pat[0])] + Items(pat[2..])
    else if pat == "$" then []
    else [One(pat[0])] + Items(pat[1..])
  }

  /** The pattern ends in a `$` of its own. */
  predicate Anchored(pat: string)
  {
    if pat == "" then false
    else if |pat| >= 2 && pat[1] == '*' then Anchored(pat[2..])
    else if pat == "$" then true
    else Anchored(pat[1..])
  }

  /** Some prefix of the text is in the language of the pattern; the whole text if the pattern is anchored. */
  ghost predicate Matches(pat: string, text: string)
  {
    exists n :: 0 <= n <= |text| && InLanguage(Items(pat), text[..n]) && (Anchored(pat) ==> n == |text|)
  }

  // ----- how the matcher decides -----

  predicate Here(pat: string, text: string)
    decreases |pat|, 0, 0
  {
    if pat == "" then true
    else if |pat| >= 2 && pat[1] == '*' then Star(pat[0], pat[2..], text)
    else if pat == "$" then text == ""
    else text != "" && Fits(pat[0], text[0]) && Here(pat[1..], text[1..])
  }

  predicate Star(c: char, rest: string, text: string)
    decreases |rest|, 1, |text|
  {
    Here(rest, text) || (text != "" && Fits(c, text[0]) && Star(c, rest, text[1..]))
  }

  lemma Front(items: seq<Item>, s: string, i: Item, a: string, b: string)
    requires items != [] && items[0] == i && ItemHas(i, a) && InLanguage(items[1..], b) && s == a + b
    ensures InLanguage(items, s)
  {
    var parts :| IsSplit(items[1..], b, parts);
    var all := [a] + parts;
    assert all[1..] == parts && Concat(all) == s;
    forall k | 0 <= k < |items|
      ensures ItemHas(items[k], all[k])
    {
      if k > 0 { assert items[k] == items[1..][k - 1]; }
    }
    assert IsSplit(items, s, all);
  }

  lemma Unfront(items: seq<Item>, s: string) returns (a: string, b: string)
    requires items != [] && InLanguage(items, s)
    ensures s == a + b && ItemHas(items[0], a) && InLanguage(items[1..], b)
  {
    var parts :| IsSplit(items, s, parts);
    a, b := parts[0], Concat(parts[1..]);
    assert IsSplit(items[1..], b, parts[1..]);
  }

  /** Every match found is one. */
  lemma {:induction false} Sound(pat: string, text: string)
    requires Here(pat, text)
    ensures Matches(pat, text)
    decreases |pat|, 0, 0
  {
    hide Items, Anchored, InLanguage;
    if pat == "" || pat == "$" {
      ItemsNone(pat);
      var n := if pat == "" then 0 else |text|;
      assert text[..n] == "";
    } else if |pat| >= 2 && pat[1] == '*' {
      StarSound(pat[0], pat[2..], text);
      Items2(pat);
    } else {
      Sound(pat[1..], text[1..]);
      var n :| 0 <= n <= |text[1..]| && InLanguage(Items(pat[1..]),
        text[1..][..n]) && (Anchored(pat[1..]) ==> n == |text[1..]|);
      Items1(pat);
      assert text[..n + 1] == [text[0]] + text[1..][..n];
      Front(Items(pat), text[..n + 1], One(pat[0]), [text[0]], text[1..][..n]);
    }
  }

  lemma ItemsNone(pat: string)
    requires pat == "" || pat == "$"
    ensures InLanguage(Items(pat), "") && (Anchored(pat) ==> pat == "$")
  {
    assert IsSplit([], "", []);
  }

  lemma Items1(pat: string)
    requires pat != "" && pat != "$" && !(|pat| >= 2 && pat[1] == '*')
    ensures Items(pat) != [] && Items(pat)[0] == One(pat[0]) && Items(pat)[1..] == Items(pat[1..])
    ensures Anchored(pat) == Anchored(pat[1..])
  {
  }

  lemma Items2(pat: string)
    requires |pat| >= 2 && pat[1] == '*'
    ensures Items(pat) == [Many(pat[0])] + Items(pat[2..]) && Anchored(pat) == Anchored(pat[2..])
  {
  }

  ghost predicate StarMatches(c: char, rest: string, text: string)
  {
    exists n :: 0 <= n <= |text| && InLanguage([Many(c)] + Items(rest), text[..n]) && (Anchored(rest) ==> n == |text|)
  }

  lemma {:induction false} StarSound(c: char, rest: string, text: string)
    requires Star(c, rest, text)
    ensures StarMatches(c, rest, text)
    decreases |rest|, 1, |text|
  {
    var items := [Many(c)] + Items(rest);
    assert items[1..] == Items(rest);
    if Here(rest, text) {
      Sound(rest, text);
      var n :| 0 <= n <= |text| && InLanguage(Items(rest), text[..n]) && (Anchored(rest) ==> n == |text|);
      Front(items, text[..n], Many(c), "", text[..n]);
    } else {
      StarSound(c, rest, text[1..]);
      var n :| 0 <= n <= |text[1..]| && InLanguage(items, text[1..][..n]) && (Anchored(rest) ==> n == |text[1..]|);
      var a, b := Unfront(items, text[1..][..n]);
      assert text[..n + 1] == ([text[0]] + a) + b;
      Front(items, text[..n + 1], Many(c), [text[0]] + a, b);
    }
  }

  lemma Behead(text: string, n: nat, a: string, b: string)
    requires n <= |text| && text[..n] == a + b && a != ""
    ensures n > 0 && a[0] == text[0] && text[1..][..n - 1] == a[1..] + b
  {
    assert text[..n][1..] == (a + b)[1..] == a[1..] + b;
    assert text[..n][0] == (a + b)[0];
  }

  /** Every match there is, is found. */
  lemma {:induction false} Complete(pat: string, text: string)
    requires Matches(pat, text)
    ensures Here(pat, text)
    decreases |pat|, 0, 0
  {
    var n :| 0 <= n <= |text| && InLanguage(Items(pat), text[..n]) && (Anchored(pat) ==> n == |text|);
    if pat == "$" {
      var parts :| IsSplit(Items(pat), text[..n], parts);
    } else if |pat| >= 2 && pat[1] == '*' {
      Items2(pat);
      StarComplete(pat[0], pat[2..], text);
    } else if pat != "" {
      Items1(pat);
      var a, b := Unfront(Items(pat), text[..n]);
      Behead(text, n, a, b);
      assert a[1..] + b == b;
      Complete(pat[1..], text[1..]);
    }
  }

  lemma {:induction false} StarComplete(c: char, rest: string, text: string)
    requires StarMatches(c, rest, text)
    ensures Star(c, rest, text)
    decreases |rest|, 1, |text|
  {
    var items := [Many(c)] + Items(rest);
    assert items[1..] == Items(rest);
    var n :| 0 <= n <= |text| && InLanguage(items, text[..n]) && (Anchored(rest) ==> n == |text|);
    var a, b := Unfront(items, text[..n]);
    if a == "" {
      assert b == text[..n];
      Complete(rest, text);
    } else {
      Behead(text, n, a, b);
      Front(items, text[1..][..n - 1], Many(c), a[1..], b);
      StarComplete(c, rest, text[1..]);
    }
  }

  /** The matcher: one loop over the pattern, one over the text of a star. */
  method MatchHere(pattern: string, line: string) returns (yes: bool)
    ensures yes <==> Matches(pattern, line)
    decreases |pattern|
  {
    var pat, text := pattern, line;
    while true
      invariant |pat| <= |pattern| && Here(pat, text) == Here(pattern, line)
      decreases |pat|
    {
      Decided(pattern, line);
      if pat == "" { return true; }
      if |pat| >= 2 && pat[1] == '*' {
        var t := text;
        while true
          invariant Star(pat[0], pat[2..], t) == Here(pat, text)
          decreases |t|
        {
          var rest := MatchHere(pat[2..], t);
          Decided(pat[2..], t);
          if rest { return true; }
          if t == "" || !Fits(pat[0], t[0]) { return false; }
          t := t[1..];
        }
      }
      if pat == "$" { return text == ""; }
      if text == "" || !Fits(pat[0], text[0]) { return false; }
      pat, text := pat[1..], text[1..];
    }
  }

  lemma Decided(pat: string, text: string)
    ensures Here(pat, text) <==> Matches(pat, text)
  {
    if Here(pat, text) { Sound(pat, text); }
    if Matches(pat, text) { Complete(pat, text); }
  }

  /** The least start of a match, -1 exactly if there is none; only the start of the line if the pattern begins with
      `^`. */
  method Search(pat: string, text: string) returns (at: int)
    ensures pat != "" && pat[0] == '^' ==> at == if Matches(pat[1..], text) then 0 else -1
    ensures !(pat != "" && pat[0] == '^') ==>
              && (0 <= at ==> at <= |text| && Matches(pat, text[at..]))
              && (forall i :: 0 <= i < at ==> !Matches(pat, text[i..]))
              && (at < 0 ==> at == -1 && forall i :: 0 <= i <= |text| ==> !Matches(pat, text[i..]))
  {
    if pat != "" && pat[0] == '^' {
      var yes := MatchHere(pat[1..], text);
      return if yes then 0 else -1;
    }
    at := 0;
    while true
      invariant 0 <= at <= |text| && forall i :: 0 <= i < at ==> !Matches(pat, text[i..])
      decreases |text| - at
    {
      var yes := MatchHere(pat, text[at..]);
      if yes { return; }
      if at == |text| { break; }
      at := at + 1;
    }
    at := -1;
  }

  // ----- patterns spelled out -----

  /** `.` matches every character, any other character itself. */
  predicate Agree(p: string, text: string)
    requires |p| <= |text|
  {
    forall k :: 0 <= k < |p| ==> p[k] == '.' || p[k] == text[k]
  }

  /** Without stars and dollars, a pattern matches the texts that begin with its characters, and with a final `$` the
      texts that consist of them; `.` stands for any one character. */
  lemma CharsMatch(p: string, text: string)
    requires forall k :: 0 <= k < |p| ==> p[k] !in "*$"
    ensures Matches(p, text) <==> |p| <= |text| && Agree(p, text)
    ensures Matches(p + "$", text) <==> |p| == |text| && Agree(p, text)
  {
    Decided(p, text);
    Decided(p + "$", text);
    CharsHere(p, text);
  }

  lemma {:induction false} CharsHere(p: string, text: string)
    requires forall k :: 0 <= k < |p| ==> p[k] !in "*$"
    ensures Here(p, text) <==> |p| <= |text| && Agree(p, text)
    ensures Here(p + "$", text) <==> |p| == |text| && Agree(p, text)
  {
    var q := p + "$";
    if p == "" {
      assert q == "$";
    } else {
      assert p[0] !in "*$" && (|p| > 1 ==> p[1] !in "*$");
      assert q[1..] == p[1..] + "$";
      if text != "" {
        CharsHere(p[1..], text[1..]);
        if |p| <= |text| { AgreeFirst(p, text); }
      }
    }
  }

  lemma AgreeFirst(p: string, text: string)
    requires p != "" && text != "" && |p| <= |text|
    ensures Agree(p, text) <==> (p[0] == '.' || p[0] == text[0]) && Agree(p[1..], text[1..])
  {
    if Agree(p[1..], text[1..]) {
      assert forall k :: 1 <= k < |p| ==> p[k] == p[1..][k - 1] && text[k] == text[1..][k - 1];
    }
  }

  /** A text without `.`, `*` and `$` matches exactly itself, and as a prefix the texts that begin with it. */
  lemma LiteralMatches(p: string, text: string)
    requires forall k :: 0 <= k < |p| ==> p[k] !in ".*$"
    ensures Matches(p, text) <==> p <= text
    ensures Matches(p + "$", text) <==> text == p
  {
    forall k | 0 <= k < |p|
      ensures p[k] !in "*$" && p[k] != '.'
    {
      assert p[k] !in ".*$";
      Specials(p[k]);
    }
    CharsMatch(p, text);
  }

  lemma Specials(c: char)
    ensures c !in ".*$" <==> c != '.' && c !in "*$"
  {
    var s, t := ".*$", "*$";
    assert s[0] == '.' && s[1] == '*' && s[2] == '$' && t[0] == '*' && t[1] == '$';
  }

  /** c* and what follows: some of the first characters, all of them c unless it is `.`, and then the rest. */
  lemma StarMatchesSome(c: char, rest: string, text: string)
    ensures Matches([c, '*'] + rest, text) <==>
      exists n :: 0 <= n <= |text| && Matches(rest, text[n..]) && forall k :: 0 <= k < n ==> c == '.' || text[k] == c
  {
    hide Matches, Here;
    var pat := [c, '*'] + rest;
    Decided(pat, text);
    StarFirst(c, rest, text);
    StarSkips(c, rest, text);
    forall n | 0 <= n <= |text|
      ensures Here(rest, text[n..]) <==> Matches(rest, text[n..])
    {
      Decided(rest, text[n..]);
    }
    if n :| Skips(c, rest, text, n) { assert Matches(rest, text[n..]); }
    if n :| 0 <= n <= |text| && Matches(rest, text[n..]) && forall k :: 0 <= k < n ==> c == '.' || text[k] == c {
      assert Skips(c, rest, text, n);
    }
  }

  lemma StarFirst(c: char, rest: string, text: string)
    ensures Here([c, '*'] + rest, text) == Star(c, rest, text)
  {
    assert ([c, '*'] + rest)[2..] == rest;
  }

  /** The rest of a star matches behind the first n characters. */
  predicate Skips(c: char, rest: string, text: string, n: int)
  {
    0 <= n <= |text| && Here(rest, text[n..]) && forall k :: 0 <= k < n ==> c == '.' || text[k] == c
  }

  lemma {:induction false} StarSkips(c: char, rest: string, text: string)
    ensures Star(c, rest, text) <==> exists n :: Skips(c, rest, text, n)
    decreases |text|
  {
    hide Skips, Here;
    SkipNone(c, rest, text);
    if text != "" { StarSkips(c, rest, text[1..]); }
    if Star(c, rest, text) && !Here(rest, text) {
      var n :| Skips(c, rest, text[1..], n);
      SkipMore(c, rest, text, n);
    }
    if n :| Skips(c, rest, text, n) && n != 0 { SkipLess(c, rest, text, n); }
  }

  lemma SkipNone(c: char, rest: string, text: string)
    ensures Skips(c, rest, text, 0) <==> Here(rest, text)
  {
    hide Here;
    assert text[0..] == text;
  }

  lemma SkipMore(c: char, rest: string, text: string, n: int)
    requires text != "" && Fits(c, text[0]) && Skips(c, rest, text[1..], n)
    ensures Skips(c, rest, text, n + 1)
  {
    hide Here;
    assert text[1..][n..] == text[n + 1..];
    assert forall k :: 1 <= k < n + 1 ==> text[k] == text[1..][k - 1];
  }

  lemma SkipLess(c: char, rest: string, text: string, n: int)
    requires Skips(c, rest, text, n) && n != 0
    ensures text != "" && Fits(c, text[0]) && Skips(c, rest, text[1..], n - 1)
  {
    hide Here;
    assert text[1..][n - 1..] == text[n..];
    assert forall k :: 0 <= k < n - 1 ==> text[1..][k] == text[k + 1];
  }
}
