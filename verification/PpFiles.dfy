/** Includes: files that are preprocessed in the place of a line. */
module PpFiles {
  import opened Basics
  import opened PpText
  import opened PpTree

  const MAX_INCLUDES := 8

  /** The text of a file, if it can be read. */
  type Files = string -> Option<string>

  /** The position of the last slash, or -1. */
  function LastSlash(s: string): (i: int)
    ensures -1 <= i < |s| && (i >= 0 ==> s[i] == '/') && forall k :: i < k < |s| ==> s[k] != '/'
  {
    if s == "" then -1 else if s[|s| - 1] == '/' then |s| - 1 else LastSlash(s[..|s| - 1])
  }

  /** A path that does not start with a slash is relative to the directory of the including file. */
  function Resolve(base: string, path: string): string
  {
    if path != "" && path[0] == '/' then Cut(path, MAX_PATH - 1)
    else
      var i := LastSlash(base);
      if i < 0 then Cut(path, MAX_PATH - 1) else Cut(Cut(base[..i + 1], MAX_PATH - 1) + path, MAX_PATH - 1)
  }

  /** How many more files may be nested. */
  function Left(depth: nat): nat { if depth > MAX_INCLUDES then 0 else MAX_INCLUDES + 1 - depth }

  /** An include is followed where the code around it is active. */
  predicate Includes(p: Pass, text: string) { p.active && IsDirective(text) && Parse(text).Include? }

  function FollowFile(files: Files, p: Pass, path: string, depth: nat): Pass
    decreases Left(depth), 1, 0
  {
    if p.core.error then p
    else if depth > MAX_INCLUDES then Failed(p)
    else match files(path)
      case None => Failed(p)
      case Some(text) => Follow(files, p, Split(text), path, depth)
  }

  /** One pass over the lines of a file. */
  function Follow(files: Files, p: Pass, lines: seq<Line>, path: string, depth: nat): Pass
    requires depth <= MAX_INCLUDES
    decreases Left(depth), 0, |lines|
  {
    if lines == [] then p else Follow(files, FollowLine(files, p, lines[0], path, depth), lines[1..], path, depth)
  }

  function FollowLine(files: Files, p: Pass, l: Line, path: string, depth: nat): Pass
    requires depth <= MAX_INCLUDES
    decreases Left(depth), 0, 0
  {
    if p.core.error || !Includes(p, l.text) then Step(p, l)
    else
      var q := FollowFile(files, p, Resolve(path, Parse(l.text).path), depth + 1);
      q.(core := Newline(q.core, l))
  }

  lemma {:induction false} FollowFailed(files: Files, p: Pass, lines: seq<Line>, path: string, depth: nat)
    requires depth <= MAX_INCLUDES && p.core.error
    ensures Follow(files, p, lines, path, depth) == p
    decreases |lines|
  {
    if lines != [] { FollowFailed(files, p, lines[1..], path, depth); }
  }

  lemma FollowFirst(files: Files, p: Pass, l: Line, rest: seq<Line>, path: string, depth: nat)
    requires depth <= MAX_INCLUDES
    ensures Follow(files, p, [l] + rest, path, depth)
         == Follow(files, FollowLine(files, p, l, path, depth), rest, path, depth)
  {
    assert ([l] + rest)[1..] == rest;
  }

  // ----- texts of which no include is followed -----

  /** No include is met where the code is active. */
  predicate Unfollowed(p: Pass, lines: seq<Line>)
    decreases |lines|
  {
    lines == [] || p.core.error || (!Includes(p, lines[0].text) && Unfollowed(Step(p, lines[0]), lines[1..]))
  }

  lemma {:induction false} FollowSteps(files: Files, p: Pass, lines: seq<Line>, path: string, depth: nat)
    requires depth <= MAX_INCLUDES && Unfollowed(p, lines)
    ensures Follow(files, p, lines, path, depth) == Steps(p, lines)
    decreases |lines|
  {
    hide Step;
    if p.core.error {
      FollowFailed(files, p, lines, path, depth);
      StepsFailed(p, lines);
    } else if lines != [] {
      FollowSteps(files, Step(p, lines[0]), lines[1..], path, depth);
    }
  }

  // ----- whole programs -----

  const Empty: Core := Core([], false, "", false)
  const Fresh: Pass := Pass(Empty, true, [])

  /** The output and a final zero, unless there was an error or a conditional is still open. */
  function Result(p: Pass): Option<string>
  {
    if p.core.error || p.stack != [] then None
    else
      var c := Put(p.core, "\0");
      if c.error then None else Some(c.out)
  }

  function Preprocessed(files: Files, path: string): Option<string> { Result(FollowFile(files, Fresh, path, 0)) }

  /** A file of which no include is followed is preprocessed successfully if and only if its lines are nested blocks
      whose meaning has no error and fits the buffer; the result is then that meaning. */
  lemma PreprocessesBlocks(files: Files, path: string, text: string, out: string)
    requires files(path) == Some(text) && Unfollowed(Fresh, Split(text))
    ensures Preprocessed(files, path) == Some(out) <==> exists ns :: Means(ns, Split(text), out)
  {
    hide Split, AllFlat, AllMeaning, Steps, Put;
    var lines := Split(text);
    FollowSteps(files, Fresh, lines, path, 0);
    if Preprocessed(files, path) == Some(out) {
      var ns := ReadAll(Fresh, lines);
      NodesRun(Fresh, ns);
      assert Means(ns, lines, out);
    }
    if ns :| Means(ns, lines, out) { NodesRun(Fresh, ns); }
  }

  /** The lines are those of the blocks, and the blocks mean this output. */
  predicate Means(ns: Nodes, lines: seq<Line>, out: string)
  {
    && AllFormed(ns) && lines == AllFlat(ns)
    && var c := AllMeaning(ns, Empty, true, 0); !c.error && !Put(c, "\0").error && out == Put(c, "\0").out
  }

  /** Without followed includes the output has exactly the newlines of the text. */
  lemma PreprocessKeepsLines(files: Files, path: string, text: string)
    requires files(path) == Some(text) && Unfollowed(Fresh, Split(text)) && Preprocessed(files, path).Some?
    ensures Newlines(Preprocessed(files, path).value) == Newlines(text)
  {
    hide Steps, Split, Newlines, Put, Follow, Unfollowed;
    FollowSteps(files, Fresh, Split(text), path, 0);
    var p := Steps(Fresh, Split(text));
    SplitLines(text);
    RunLines(Fresh, Split(text));
    PutLines(p.core, "\0");
    NoNewlines("\0");
    NoNewlines("");
  }

  /** A file that includes itself is an error, since files are nested nine deep at most. */
  lemma {:induction false} SelfInclude(files: Files, p: Pass, path: string, depth: nat, l: Line, rest: seq<Line>)
    requires files(path).Some? && Split(files(path).value) == [l] + rest && p.active && !p.core.error
    requires IsDirective(l.text) && Parse(l.text).Include? && Resolve(path, Parse(l.text).path) == path
    ensures FollowFile(files, p, path, depth).core.error
    decreases Left(depth)
  {
    hide Step, Split, Parse, IsDirective, Follow;
    if depth <= MAX_INCLUDES {
      SelfInclude(files, p, path, depth + 1, l, rest);
      FollowFirst(files, p, l, rest, path, depth);
      FollowFailed(files, FollowLine(files, p, l, path, depth), rest, path, depth);
    }
  }
}
