/** File names in 8.3 form. */
module FatNames {
  import opened Basics
  import opened FatVolume
  import opened FatFiles

  const SPACE: Byte := 0x20
  const DOT: Byte := 0x2E

  const SLASH: Byte := 0x2F

  /** A file name without a zero byte that the driver looks up in the root directory: a slash behind the first
      character would lead to a subdirectory. */
  predicate RootName(s: seq<Byte>)
  {
    (forall k :: 0 <= k < |s| ==> s[k] != 0) && forall k :: 1 <= k < |s| ==> s[k] != SLASH
  }

  function Upper(c: Byte): Byte { if 0x61 <= c <= 0x7A then c - 0x20 else c }

  /** The position of the first dot, or the length. */
  function DotAt(s: seq<Byte>): (r: nat)
    ensures r <= |s| && (r < |s| ==> s[r] == DOT) && forall k :: 0 <= k < r ==> s[k] != DOT
  {
    if s == [] || s[0] == DOT then 0 else 1 + DotAt(s[1..])
  }

  /** Character k of the 8.3 name: the part before the first dot, cut to 8, then the part after it, cut to 3. */
  function Char83(s: seq<Byte>, k: nat): Byte
  {
    var dot := DotAt(s);
    if k < 8 then (if k < dot then Upper(s[k]) else SPACE)
    else if dot + 1 + (k - 8) < |s| then Upper(s[dot + 1 + (k - 8)]) else SPACE
  }

  function To83(s: seq<Byte>): (r: seq<Byte>)
    ensures |r| == 11
  {
    seq(11, (k: nat) => Char83(s, k))
  }

  method Convert(input: seq<Byte>, output: array<Byte>)
    requires output.Length == 11
    modifies output
    ensures output[..] == To83(input)
  {
    var i := 0;
    while i < 11
      invariant 0 <= i <= 11 && forall k :: 0 <= k < i ==> output[k] == SPACE
    {
      output[i] := SPACE;
      i := i + 1;
    }
    ghost var dot := DotAt(input);
    var at := 0;
    i := 0;
    while at < |input| && input[at] != DOT && i < 8
      invariant at == i <= 8 && at <= dot && (at < |input| && input[at] != DOT ==> at < dot)
      invariant forall k :: 0 <= k < 11 ==> output[k] == if k < i then Char83(input, k) else SPACE
    {
      output[i] := Upper(input[at]);
      at := at + 1;
      i := i + 1;
    }
    assert forall k :: 0 <= k < 8 ==> output[k] == Char83(input, k);
    while at < |input| && input[at] != DOT
      invariant at <= dot
    {
      at := at + 1;
    }
    assert at == dot;
    if at < |input| { at := at + 1; }
    i := 8;
    while at < |input| && i < 11
      invariant 8 <= i <= 11 && at == (if dot < |input| then dot + 1 else dot) + (i - 8)
      invariant forall k :: 0 <= k < 11 ==> output[k] == if k < i then Char83(input, k) else SPACE
    {
      output[i] := Upper(input[at]);
      at := at + 1;
      i := i + 1;
    }
  }

  /** A text without zero bytes has a usable 8.3 name exactly when it does not start with the byte
      that marks deleted slots. */
  lemma ProperNames(s: seq<Byte>)
    requires forall k :: 0 <= k < |s| ==> s[k] != 0
    ensures Proper(To83(s)) <==> !(s != [] && s[0] == DELETED)
  {
    assert To83(s)[0] == Char83(s, 0);
  }

  // ----- what the 8.3 form of a name is -----

  predicate IsLower(c: Byte) { exists i :: 0 <= i < 26 && c == LOWER[i] as int }

  /** A small letter and its capital. */
  predicate Pair(c: Byte, d: Byte) { exists i :: 0 <= i < 26 && c == LOWER[i] as int && d == UPPER[i] as int }

  lemma LowerIs(c: Byte)
    ensures IsLower(c) <==> 0x61 <= c <= 0x7A
  {
    hide LOWER, UPPER;
    if IsLower(c) {
      Letters(0);
      var i :| 0 <= i < 26 && c == LOWER[i] as int;
      Letters(i);
    }
    if 0x61 <= c <= 0x7A { Letters(c - 0x61); }
  }

  lemma PairIs(c: Byte, d: Byte)
    ensures Pair(c, d) <==> 0x61 <= c <= 0x7A && d == c - 0x20
  {
    hide LOWER, UPPER;
    Letters(0);
    if Pair(c, d) {
      var i :| 0 <= i < 26 && c == LOWER[i] as int && d == UPPER[i] as int;
      Letters(i);
    }
    if 0x61 <= c <= 0x7A && d == c - 0x20 { Letters(c - 0x61); }
  }

  /** Upper makes a capital of each small letter, keeps every other byte, and yields no small letter. */
  lemma UpperCapital(c: Byte)
    ensures if IsLower(c) then Pair(c, Upper(c)) else Upper(c) == c
    ensures !IsLower(Upper(c))
  {
    hide IsLower, Pair;
    LowerIs(c);
    LowerIs(Upper(c));
    PairIs(c, Upper(c));
  }

  function Uppers(s: seq<Byte>): (r: seq<Byte>)
    ensures |r| == |s| && forall k :: 0 <= k < |s| ==> r[k] == Upper(s[k])
  {
    seq(|s|, (k: nat) requires k < |s| => Upper(s[k]))
  }

  /** `s` cut to `n` bytes and filled up with spaces. */
  function Field(s: seq<Byte>, n: nat): (r: seq<Byte>)
    ensures |r| == n
  {
    if |s| >= n then s[..n] else s + seq(n - |s|, (_: nat) => ' ' as int)
  }

  /** The 8.3 form: the capitals of the part before the first dot in 8 bytes, those of the part after it in 3. */
  lemma DottedForm(base: seq<Byte>, ext: seq<Byte>)
    requires '.' as int !in base
    ensures To83(base + ['.' as int] + ext) == Field(Uppers(base), 8) + Field(Uppers(ext), 3)
  {
    hide Char83, Field, Uppers;
    assert DOT == '.' as int;
    var s := base + [DOT] + ext;
    forall k | 0 <= k < 11
      ensures To83(s)[k] == (Field(Uppers(base), 8) + Field(Uppers(ext), 3))[k]
    {
      DottedAt(base, ext, k);
    }
  }

  lemma DottedAt(base: seq<Byte>, ext: seq<Byte>, k: nat)
    requires DOT !in base && k < 11
    ensures Char83(base + [DOT] + ext, k) == if k < 8 then Field(Uppers(base), 8)[k] else Field(Uppers(ext), 3)[k - 8]
  {
    hide DotAt, Upper;
    var s := base + [DOT] + ext;
    DotIs(s, |base|);
    assert k < |base| ==> s[k] == base[k];
    assert 0 <= k - 8 < |ext| ==> s[|base| + 1 + (k - 8)] == ext[k - 8];
  }

  /** A name without a dot has the form of that name with an empty extension. */
  lemma PlainForm(base: seq<Byte>)
    requires '.' as int !in base
    ensures To83(base) == Field(Uppers(base), 8) + Field([], 3)
  {
    DotIs(base, |base|);
  }

  lemma DotIs(s: seq<Byte>, n: nat)
    requires n <= |s| && (n < |s| ==> s[n] == DOT) && forall k :: 0 <= k < n ==> s[k] != DOT
    ensures DotAt(s) == n
  {
    if n > 0 { DotIs(s[1..], n - 1); }
  }

  /** No byte of an 8.3 name is a small letter. */
  lemma NoSmallLetters(s: seq<Byte>, k: nat)
    requires k < 11
    ensures !IsLower(To83(s)[k])
  {
    hide IsLower, Upper;
    assert To83(s)[k] == Char83(s, k);
    LowerIs(SPACE);
    if k < DotAt(s) { UpperCapital(s[k]); }
    if k >= 8 && DotAt(s) + 1 + (k - 8) < |s| { UpperCapital(s[DotAt(s) + 1 + (k - 8)]); }
  }

  // ----- which names are the same file -----

  predicate SameLetter(c: Byte, d: Byte) { c == d || Pair(c, d) || Pair(d, c) }

  lemma SameUpper(c: Byte, d: Byte)
    ensures SameLetter(c, d) <==> Upper(c) == Upper(d)
  {
    hide Pair;
    PairIs(c, d);
    PairIs(d, c);
  }

  /** Equal up to the case of letters. */
  predicate Alike(a: seq<Byte>, b: seq<Byte>)
  {
    |a| == |b| && forall k :: 0 <= k < |a| ==> SameLetter(a[k], b[k])
  }

  /** At most `n` bytes, without the spaces at their end. */
  function Part(s: seq<Byte>, n: nat): seq<Byte> { Trim(if |s| > n then s[..n] else s) }

  function Trim(s: seq<Byte>): (r: seq<Byte>)
    ensures r <= s && (r != [] ==> r[|r| - 1] != ' ' as int) && forall k :: |r| <= k < |s| ==> s[k] == ' ' as int
  {
    if s != [] && s[|s| - 1] == ' ' as int then Trim(s[..|s| - 1]) else s
  }

  lemma FieldAt(s: seq<Byte>, n: nat, k: nat)
    requires k < n
    ensures Field(Uppers(s), n)[k] == if k < |Part(s, n)| then Upper(Part(s, n)[k]) else SPACE
  {
    hide Trim;
    var cut := if |s| > n then s[..n] else s;
    assert k < |s| ==> cut[k] == s[k];
  }

  lemma SameField(a: seq<Byte>, b: seq<Byte>, n: nat)
    ensures Field(Uppers(a), n) == Field(Uppers(b), n) <==> Alike(Part(a, n), Part(b, n))
  {
    hide Field, Upper, Part, SameLetter;
    var fa, fb, pa, pb := Field(Uppers(a), n), Field(Uppers(b), n), Part(a, n), Part(b, n);
    PartFits(a, n);
    PartFits(b, n);
    forall k | 0 <= k < n
      ensures fa[k] == if k < |pa| then Upper(pa[k]) else SPACE
      ensures fb[k] == if k < |pb| then Upper(pb[k]) else SPACE
    {
      FieldAt(a, n, k);
      FieldAt(b, n, k);
    }
    forall k | 0 <= k < |pa| && k < |pb|
      ensures SameLetter(pa[k], pb[k]) <==> Upper(pa[k]) == Upper(pb[k])
    {
      SameUpper(pa[k], pb[k]);
    }
    if fa == fb { EndsAgree(fa, pa, pb); }
  }

  /** A part fits its field, and its last byte is not a space, nor is the capital of that byte. */
  lemma PartFits(s: seq<Byte>, n: nat)
    ensures var p := Part(s, n); |p| <= n && (p != [] ==> Upper(p[|p| - 1]) != ' ' as int)
  {
    hide Trim;
  }

  lemma EndsAgree(f: seq<Byte>, a: seq<Byte>, b: seq<Byte>)
    requires |a| <= |f| && |b| <= |f|
    requires a != [] ==> Upper(a[|a| - 1]) != SPACE
    requires b != [] ==> Upper(b[|b| - 1]) != SPACE
    requires forall k :: 0 <= k < |f| ==> f[k] == if k < |a| then Upper(a[k]) else SPACE
    requires forall k :: 0 <= k < |f| ==> f[k] == if k < |b| then Upper(b[k]) else SPACE
    ensures |a| == |b|
  {
    hide Upper;
    var n := if |a| > |b| then |a| else |b|;
    assert n > 0 ==> f[n - 1] == f[n - 1];
  }

  /** Two names are the same file exactly when their parts agree up to case, as far as they are kept. */
  lemma SameName(b1: seq<Byte>, e1: seq<Byte>, b2: seq<Byte>, e2: seq<Byte>)
    requires '.' as int !in b1 && '.' as int !in b2
    ensures To83(b1 + ['.' as int] + e1) == To83(b2 + ['.' as int] + e2) <==>
      Alike(Part(b1, 8), Part(b2, 8)) && Alike(Part(e1, 3), Part(e2, 3))
  {
    hide To83, Field, Uppers, Alike, Part;
    DottedForm(b1, e1);
    DottedForm(b2, e2);
    SameField(b1, b2, 8);
    SameField(e1, e2, 3);
    var f, g := Field(Uppers(b1), 8) + Field(Uppers(e1), 3), Field(Uppers(b2), 8) + Field(Uppers(e2), 3);
    assert f[..8] == Field(Uppers(b1), 8) && f[8..] == Field(Uppers(e1), 3);
    assert g[..8] == Field(Uppers(b2), 8) && g[8..] == Field(Uppers(e2), 3);
  }

  /** Short parts that do not end in a space are kept whole. */
  lemma ShortName(b1: seq<Byte>, e1: seq<Byte>, b2: seq<Byte>, e2: seq<Byte>)
    requires '.' as int !in b1 && '.' as int !in b2 && |b1| <= 8 && |b2| <= 8 && |e1| <= 3 && |e2| <= 3
    requires Full(b1) && Full(e1) && Full(b2) && Full(e2)
    ensures To83(b1 + ['.' as int] + e1) == To83(b2 + ['.' as int] + e2) <==> Alike(b1, b2) && Alike(e1, e2)
  {
    hide To83, Alike;
    SameName(b1, e1, b2, e2);
  }

  predicate Full(s: seq<Byte>) { s == [] || s[|s| - 1] != ' ' as int }
}