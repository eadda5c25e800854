/** The line buffer of the editor: two arrays of pointers to separately allocated lines. */
module EdLines {
  import opened Basics

  const MAX_LINES := 1024
  const MARKS := 26

  // ----- the text as a sequence -----

  /** A line, or nothing where the copy of a line could not be allocated. */
  type Line = Option<string>

  /** What the user sees: text, current line and marks, and the text and current line that undo brings back. */
  datatype Doc = Doc(text: seq<Line>, cur: int, marks: seq<nat>, undo: seq<Line>, undoCur: int, undoValid: bool)

  function Inserted<T>(s: seq<T>, after: nat, x: T): seq<T>
    requires after <= |s|
  {
    s[..after] + [x] + s[after..]
  }

  function Deleted<T>(s: seq<T>, at: nat): seq<T>
    requires at < |s|
  {
    s[..at] + s[at + 1..]
  }

  /** Lines `a` up to but not including `b` go behind line number `dest`, which is outside them. */
  function Moved<T>(s: seq<T>, a: nat, b: nat, dest: nat): seq<T>
    requires a < b <= |s| && dest <= |s| && (dest <= a || b <= dest)
  {
    if dest <= a then s[..dest] + s[a..b] + s[dest..a] + s[b..] else s[..a] + s[b..dest] + s[a..b] + s[dest..]
  }

  /** One change of the line array. `memory` tells whether the allocation it makes succeeds. */
  datatype Edit =
    | Insert(after: nat, line: string, memory: bool)
    | Delete(pos: nat)
    | Replace(pos: nat, line: string, memory: bool)
    | Move(first: nat, last: nat, dest: nat, memory: bool)

  /** The addresses the command parser lets through: a line to insert after, a block and a destination outside it. */
  predicate Addressed(text: seq<Line>, e: Edit)
  {
    match e
    case Insert(after, _, _) => after <= |text|
    case Move(first, last, dest, _) => 1 <= first <= last <= |text| && dest <= |text| && (dest < first || dest > last)
    case _ => true
  }

  /** The edit on the text; it changes nothing if the buffer is full, the line does not exist or memory runs out. */
  function Edited(text: seq<Line>, e: Edit): seq<Line>
    requires Addressed(text, e)
  {
    match e
    case Insert(after, line, memory) => if |text| < MAX_LINES && memory then Inserted(text, after, Some(line)) else text
    case Delete(pos) => if 1 <= pos <= |text| then Deleted(text, pos - 1) else text
    case Replace(pos, line, memory) => if 1 <= pos <= |text| && memory then text[pos - 1 := Some(line)] else text
    case Move(first, last, dest, memory) => if memory then Moved(text, first - 1, last, dest) else text
  }

  /** Marks follow their lines: those after an inserted line move up, */
  function MarkUp(mark: nat, after: nat): nat { if mark > after then mark + 1 else mark }

  /** the mark of a deleted line is lost and those after it move down. */
  function MarkDown(mark: nat, pos: nat): nat { if mark == pos then 0 else if mark > pos then mark - 1 else mark }

  function MarksAfter(text: seq<Line>, marks: seq<nat>, e: Edit): (r: seq<nat>)
    ensures |r| == |marks|
  {
    match e
    case Insert(after, _, memory) =>
      if |text| < MAX_LINES && memory then seq(|marks|, k requires 0 <= k < |marks| => MarkUp(marks[k], after))
      else marks
    case Delete(pos) =>
      if 1 <= pos <= |text| then seq(|marks|, k requires 0 <= k < |marks| => MarkDown(marks[k], pos)) else marks
    case _ => marks
  }

  function Applied(d: Doc, e: Edit): Doc
    requires Addressed(d.text, e)
  {
    d.(text := Edited(d.text, e), marks := MarksAfter(d.text, d.marks, e))
  }

  predicate AllAddressed(d: Doc, edits: seq<Edit>)
    decreases |edits|
  {
    edits == [] || (Addressed(d.text, edits[0]) && AllAddressed(Applied(d, edits[0]), edits[1..]))
  }

  function AllApplied(d: Doc, edits: seq<Edit>): Doc
    requires AllAddressed(d, edits)
    decreases |edits|
  {
    if edits == [] then d else AllApplied(Applied(d, edits[0]), edits[1..])
  }

  /** Whether the copy of line i can be allocated. */
  type Memory = nat -> bool

  function Copies(text: seq<Line>, memory: Memory): (r: seq<Line>)
    ensures |r| == |text|
  {
    seq(|text|, i requires 0 <= i < |text| => if memory(i) then text[i] else None)
  }

  function Saved(d: Doc, memory: Memory): Doc { d.(undo := Copies(d.text, memory), undoCur := d.cur,
      undoValid := true) }

  function Undone(d: Doc): Doc
  {
    if d.undoValid then d.(text := d.undo, cur := d.undoCur, undo := d.text, undoCur := d.cur) else d
  }

  /** A command saves what undo brings back, makes its edits, and leaves the current line where it likes. */
  function Performed(d: Doc, edits: seq<Edit>, cur: int, memory: Memory): Doc
    requires AllAddressed(Saved(d, memory), edits)
  {
    AllApplied(Saved(d, memory), edits).(cur := cur)
  }

  /** No line is lost for lack of memory. */
  ghost predicate Enough(text: seq<Line>, memory: Memory)
  {
    forall i :: 0 <= i < |text| ==> memory(i) || text[i].None?
  }

  lemma {:induction false} EditsKeepUndo(d: Doc, edits: seq<Edit>)
    requires AllAddressed(d, edits)
    ensures var r := AllApplied(d, edits);
      r.undo == d.undo && r.undoCur == d.undoCur && r.undoValid == d.undoValid && r.cur == d.cur
    decreases |edits|
  {
    if edits != [] { EditsKeepUndo(Applied(d, edits[0]), edits[1..]); }
  }

  /** Undo after a command restores the current line, and the text exactly if every line could be copied;
      undoing twice changes nothing. */
  lemma UndoRestores(d: Doc, edits: seq<Edit>, cur: int, memory: Memory)
    requires AllAddressed(Saved(d, memory), edits)
    ensures var after := Performed(d, edits, cur, memory);
      && Undone(after).cur == d.cur && Undone(Undone(after)) == after
      && (Undone(after).text == d.text <==> Enough(d.text, memory))
  {
    EditsKeepUndo(Saved(d, memory), edits);
    CopiesExact(d.text, memory);
  }

  lemma CopiesExact(text: seq<Line>, memory: Memory)
    ensures Copies(text, memory) == text <==> Enough(text, memory)
  {
    if Copies(text, memory) == text {
      forall i | 0 <= i < |text|
        ensures memory(i) || text[i].None?
      {
        assert Copies(text, memory)[i] == text[i];
      }
    }
  }

  /** A line is lost: the copy of the only line of a text is not made, and undo brings back nothing in its place. */
  lemma UndoLoses(line: string, memory: Memory)
    requires !memory(0)
    ensures var d := Doc([Some(line)], 1, [], [], 0, false);
      Undone(Performed(d, [Delete(1)], 0, memory)).text == [None] != d.text
  {
    var d := Doc([Some(line)], 1, [], [], 0, false);
    assert Copies(d.text, memory) == [None];
    assert [Delete(1)][1..] == [];
    EditsKeepUndo(Saved(d, memory), [Delete(1)]);
  }

  /** What a session consists of. */
  datatype Op = Do(edits: seq<Edit>, cur: int, memory: Memory) | Undo

  predicate OpAddressed(d: Doc, op: Op) { op.Do? ==> AllAddressed(Saved(d, op.memory), op.edits) }

  function OpDone(d: Doc, op: Op): Doc
    requires OpAddressed(d, op)
  {
    match op
    case Do(edits, cur, memory) => Performed(d, edits, cur, memory)
    case Undo => Undone(d)
  }

  predicate SessionAddressed(d: Doc, ops: seq<Op>)
    decreases |ops|
  {
    ops == [] || (OpAddressed(d, ops[0]) && SessionAddressed(OpDone(d, ops[0]), ops[1..]))
  }

  function Session(d: Doc, ops: seq<Op>): Doc
    requires SessionAddressed(d, ops)
    decreases |ops|
  {
    if ops == [] then d else Session(OpDone(d, ops[0]), ops[1..])
  }

  /** Moving neither loses nor duplicates a line, and keeps the order inside and outside the block. */
  lemma MovedLines<T>(s: seq<T>, a: nat, b: nat, dest: nat)
    requires a < b <= |s| && dest <= |s| && (dest <= a || b <= dest)
    ensures var r, to := Moved(s, a, b, dest), if dest <= a then dest else dest - (b - a);
      && |r| == |s| && multiset(r) == multiset(s)
      && r[to..to + (b - a)] == s[a..b] && r[..to] + r[to + (b - a)..] == s[..a] + s[b..]
  {
    if dest <= a { MovedBack(s, a, b, dest); } else { MovedOn(s, a, b, dest); }
  }

  lemma MovedBack<T>(s: seq<T>, a: nat, b: nat, dest: nat)
    requires a < b <= |s| && dest <= a
    ensures var r := s[..dest] + s[a..b] + s[dest..a] + s[b..];
      && |r| == |s| && multiset(r) == multiset(s)
      && r[dest..dest + (b - a)] == s[a..b] && r[..dest] + r[dest + (b - a)..] == s[..a] + s[b..]
  {
    var p, q, x, y := s[..dest], s[dest..a], s[a..b], s[b..];
    Four(s, dest, a, b);
    Exchange(p, q, x, y);
    MovedAround(s, a, b, dest);
  }

  lemma MovedAround<T>(s: seq<T>, a: nat, b: nat, dest: nat)
    requires a < b <= |s| && dest <= a
    ensures var r := s[..dest] + s[a..b] + s[dest..a] + s[b..];
      |r| == |s| && r[dest..dest + (b - a)] == s[a..b] && r[..dest] + r[dest + (b - a)..] == s[..a] + s[b..]
  {
    var p, q, x, y := s[..dest], s[dest..a], s[a..b], s[b..];
    assert s[..a] == p + q;
    Around(p, x, q, y);
    Regroup(p, q, y);
  }

  lemma MovedOn<T>(s: seq<T>, a: nat, b: nat, dest: nat)
    requires a < b <= dest <= |s|
    ensures var r, to := s[..a] + s[b..dest] + s[a..b] + s[dest..], dest - (b - a);
      && |r| == |s| && multiset(r) == multiset(s)
      && r[to..to + (b - a)] == s[a..b] && r[..to] + r[to + (b - a)..] == s[..a] + s[b..]
  {
    var p, x, q, y := s[..a], s[a..b], s[b..dest], s[dest..];
    Four(s, a, b, dest);
    Exchange(p, x, q, y);
    Around3(p + q, x, y);
    assert s[b..] == q + y;
    Regroup(p, q, y);
  }

  lemma Four<T>(s: seq<T>, i: nat, j: nat, k: nat)
    requires i <= j <= k <= |s|
    ensures s == s[..i] + s[i..j] + s[j..k] + s[k..]
  {
  }

  lemma Exchange<T>(p: seq<T>, q: seq<T>, x: seq<T>, y: seq<T>)
    ensures multiset(p + q + x + y) == multiset(p + x + q + y)
  {
    assert multiset(p + q + x + y) == multiset(p) + multiset(q) + multiset(x) + multiset(y);
    assert multiset(p + x + q + y) == multiset(p) + multiset(x) + multiset(q) + multiset(y);
  }

  lemma Around<T>(p: seq<T>, x: seq<T>, q: seq<T>, y: seq<T>)
    ensures var r := p + x + q + y; r[|p|..|p| + |x|] == x && r[..|p|] == p && r[|p| + |x|..] == q + y
  {
    Regroup(p + x, q, y);
    Around3(p, x, q + y);
  }

  lemma Around3<T>(p: seq<T>, x: seq<T>, y: seq<T>)
    ensures var r := p + x + y; r[|p|..|p| + |x|] == x && r[..|p|] == p && r[|p| + |x|..] == y
  {
  }

  lemma Regroup<T>(p: seq<T>, q: seq<T>, y: seq<T>)
    ensures p + (q + y) == p + q + y
  {
  }

  // ----- pointers -----

  /** Live different buffers or nothing in the slots from `lo` up to `n`, nothing in the others. */
  ghost predicate Holds(a: seq<nat>, lo: nat, n: nat, heap: map<nat, string>)
  {
    && lo <= n <= |a| && (forall i :: 0 <= i < lo || n <= i < |a| ==> a[i] == 0)
    && (forall i :: lo <= i < n ==> a[i] == 0 || a[i] in heap)
    && (forall i, j :: lo <= i < j < n ==> a[i] != a[j] || a[i] == 0)
  }

  /** No buffer is in two slots, and every live buffer is in one. */
  ghost predicate Owned(a: seq<nat>, n: nat, u: seq<nat>, lo: nat, m: nat, heap: map<nat, string>)
  {
    && Holds(a, 0, n, heap) && Holds(u, lo, m, heap) && 0 !in heap
    && (forall i, j :: 0 <= i < n && lo <= j < m ==> a[i] != u[j] || a[i] == 0)
    && (forall p :: p in heap ==> Has(a, 0, n, p) || Has(u, lo, m, p))
  }

  /** A slot from `lo` up to `n` holds p. */
  ghost predicate Has(a: seq<nat>, lo: nat, n: nat, p: nat)
    requires n <= |a|
  {
    exists i :: lo <= i < n && a[i] == p
  }

  function LineAt(heap: map<nat, string>, p: nat): Line { if p in heap then Some(heap[p]) else None }

  function Lines(a: seq<nat>, n: nat, heap: map<nat, string>): (r: seq<Line>)
    requires n <= |a|
    ensures |r| == n
  {
    seq(n, i requires 0 <= i < n => LineAt(heap, a[i]))
  }

  class Editor {
    const lines: array<nat>
    const undoLines: array<nat>
    const marks: array<nat>
    var nlines: nat
    var cur: int
    var undoCount: nat
    var undoCur: int
    var undoValid: bool
    var heap: map<nat, string>
    var next: nat

    constructor ()
      ensures Valid() && fresh(lines) && fresh(undoLines) && fresh(marks)
      ensures View() == Doc([], 0, seq(MARKS, _ => 0), [], 0, false)
    {
      lines := new nat[MAX_LINES](_ => 0);
      undoLines := new nat[MAX_LINES](_ => 0);
      marks := new nat[MARKS](_ => 0);
      nlines, cur, undoCount, undoCur, undoValid := 0, 0, 0, 0, false;
      heap, next := map[], 1;
    }

    ghost predicate Valid()
      reads this, lines, undoLines, marks
    {
      && lines.Length == undoLines.Length == MAX_LINES && marks.Length == MARKS
      && lines != undoLines && lines != marks && undoLines != marks
      && Owned(lines[..], nlines, undoLines[..], 0, undoCount, heap)
      && next > 0 && forall p :: p in heap ==> p < next
    }

    ghost function View(): Doc
      requires Valid()
      reads this, lines, undoLines, marks
    {
      Doc(Lines(lines[..], nlines, heap), cur, marks[..], Lines(undoLines[..], undoCount, heap), undoCur, undoValid)
    }

    /** Copies a line into a buffer of its own. */
    method Dup(text: string) returns (p: nat)
      requires next > 0 && forall q :: q in heap ==> q < next
      modifies this`heap, this`next
      ensures p == old(next) && p !in old(heap) && p != 0 && heap == old(heap)[p := text] && next == p + 1
    {
      p := next;
      heap := heap[p := text];
      next := next + 1;
    }

    /** Gives the buffer of a slot back, if it has one; it must be live. */
    method Free(p: nat)
      requires p == 0 || p in heap
      modifies this`heap
      ensures heap == if p == 0 then old(heap) else old(heap) - {p}
    {
      if p != 0 { heap := heap - {p}; }
    }

    /** Inserts a line after line number `after`; `memory` tells whether a buffer can be allocated. */
    method InsertLine(after: nat, text: string, memory: bool) returns (ok: bool)
      requires Valid() && after <= nlines
      modifies this`nlines, this`heap, this`next, lines, marks
      ensures Valid() && ok == (old(nlines) < MAX_LINES && memory)
      ensures View() == Applied(old(View()), Insert(after, text, memory))
    {
      hide Owned, Lines, Opens;
      OwnedFits(lines[..], nlines, undoLines[..], undoCount, heap);
      if nlines >= MAX_LINES || !memory { return false; }
      ghost var a, u, h := lines[..], undoLines[..], heap;
      var dup := Dup(text);
      OpenGap(lines, after, nlines, 1);
      ghost var mid := lines[..];
      lines[after] := dup;
      InsertOwned(a, nlines, u, undoCount, h, after, dup, text, mid, lines[..]);
      nlines := nlines + 1;
      ghost var now := lines[..];
      MarksUp(marks, after);
      assert lines[..] == now && undoLines[..] == u;
      ok := true;
    }

    /** Deletes line number `pos`, if there is one. */
    method DeleteLine(pos: nat)
      requires Valid()
      modifies this`nlines, this`heap, lines, marks
      ensures Valid() && View() == Applied(old(View()), Delete(pos))
    {
      hide Owned, Lines, Removes;
      OwnedFits(lines[..], nlines, undoLines[..], undoCount, heap);
      if pos < 1 || pos > nlines { return; }
      ghost var a, u, h := lines[..], undoLines[..], heap;
      Free(lines[pos - 1]);
      RemoveSlot(lines, pos - 1, nlines);
      DeleteOwned(a, nlines, u, undoCount, h, pos - 1, lines[..]);
      nlines := nlines - 1;
      ghost var now := lines[..];
      MarksDown(marks, pos);
      assert lines[..] == now && undoLines[..] == u;
    }

    /** Replaces line number `pos`, if there is one. */
    method ReplaceLine(pos: nat, text: string, memory: bool) returns (ok: bool)
      requires Valid()
      modifies this`heap, this`next, lines
      ensures Valid() && ok == (1 <= pos <= nlines && memory)
      ensures View() == Applied(old(View()), Replace(pos, text, memory))
    {
      hide Owned, Lines;
      OwnedFits(lines[..], nlines, undoLines[..], undoCount, heap);
      if pos < 1 || pos > nlines || !memory { return false; }
      ghost var a, u, h := lines[..], undoLines[..], heap;
      var dup := Dup(text);
      Free(lines[pos - 1]);
      lines[pos - 1] := dup;
      ReplaceOwned(a, nlines, u, undoCount, h, pos - 1, dup, text, lines[..], heap);
      ok := true;
    }

    /** Gives back the buffers of the undo lines. */
    method DropUndo()
      requires Valid()
      modifies this`undoCount, this`heap, undoLines
      ensures Valid() && undoCount == 0 && View() == old(View()).(undo := [])
    {
      hide Owned, Lines;
      ghost var a, h := lines[..], heap;
      var i := 0;
      DropStart(a, nlines, undoLines[..], undoCount, heap);
      while i < undoCount
        invariant 0 <= i <= undoCount == old(undoCount) && lines[..] == a
        invariant Owned(a, nlines, undoLines[..], i, undoCount, heap)
        invariant SameText(a, nlines, h, heap) && forall p :: p in heap ==> p < next
      {
        DropStep(a, nlines, undoLines[..], i, undoCount, h, heap);
        Free(undoLines[i]);
        undoLines[i] := 0;
        i := i + 1;
      }
      DropEnd(a, nlines, undoLines[..], undoCount, h, heap);
      undoCount := 0;
    }

    /** Saves text and current line for undo; `memory` tells which copies can be allocated. */
    method SaveUndo(memory: Memory)
      requires Valid()
      modifies this`undoCount, this`undoCur, this`undoValid, this`heap, this`next, undoLines
      ensures Valid() && View() == Saved(old(View()), memory)
    {
      hide Owned, Lines;
      DropUndo();
      ghost var a, h := lines[..], heap;
      CopyStart(a, nlines, undoLines[..], h, memory);
      var i := 0;
      while i < nlines
        invariant 0 <= i <= nlines && lines[..] == a && Owned(a, nlines, undoLines[..], 0, i, heap)
        invariant SameText(a, nlines, h, heap) && Copied(a, undoLines[..], i, heap, memory)
        invariant next > 0 && forall p :: p in heap ==> p < next
      {
        ghost var heap0, u := heap, undoLines[..];
        var src := lines[i];
        CopyReady(a, nlines, u, i, heap);
        var dup := 0;
        if src != 0 && memory(i) { dup := Dup(heap[src]); }
        CopyStep(a, nlines, u, i, h, heap0, dup, heap, memory);
        undoLines[i] := dup;
        i := i + 1;
      }
      CopyEnd(a, nlines, undoLines[..], h, heap, memory);
      undoCount, undoCur, undoValid := nlines, cur, true;
    }

    /** Exchanges the text and the saved one. */
    method RestoreUndo() returns (ok: bool)
      requires Valid()
      modifies this, lines, undoLines
      ensures Valid() && ok == old(undoValid) && View() == Undone(old(View()))
    {
      hide Lines;
      if !undoValid { return false; }
      ghost var a, u := lines[..], undoLines[..];
      var i := 0;
      while i < MAX_LINES
        modifies lines, undoLines
        invariant 0 <= i <= MAX_LINES
        invariant forall k :: 0 <= k < i ==> lines[k] == u[k] && undoLines[k] == a[k]
        invariant forall k :: i <= k < MAX_LINES ==> lines[k] == a[k] && undoLines[k] == u[k]
      {
        lines[i], undoLines[i] := undoLines[i], lines[i];
        i := i + 1;
      }
      assert lines[..] == u && undoLines[..] == a;
      nlines, undoCount := undoCount, nlines;
      cur, undoCur := undoCur, cur;
      ok := true;
    }

    /** Moves the lines from `first` to `last` behind line `dest`, which is outside them. */
    method MoveLines(first: nat, last: nat, dest: nat, memory: bool)
      requires Valid() && Addressed(View().text, Move(first, last, dest, memory))
      modifies lines
      ensures Valid() && View() == Applied(old(View()), Move(first, last, dest, memory))
    {
      hide Owned, Lines, Moved, Permuted;
      if !memory { return; }
      OwnedFits(lines[..], nlines, undoLines[..], undoCount, heap);
      ghost var a, u, k := lines[..], undoLines[..], marks[..];
      MoveSlots(lines, nlines, first - 1, last, dest);
      assert undoLines[..] == u && marks[..] == k;
      MoveOwned(a, nlines, u, undoCount, heap, first - 1, last, dest, lines[..]);
    }

    /** One edit on the arrays is the edit on the text. */
    method Apply(e: Edit)
      requires Valid() && Addressed(View().text, e)
      modifies this`nlines, this`heap, this`next, lines, marks
      ensures Valid() && View() == Applied(old(View()), e)
    {
      hide Owned, Lines, Applied, Valid;
      match e
      case Insert(after, line, memory) => var ok := InsertLine(after, line, memory);
      case Delete(pos) => DeleteLine(pos);
      case Replace(pos, line, memory) => var ok := ReplaceLine(pos, line, memory);
      case Move(first, last, dest, memory) => MoveLines(first, last, dest, memory);
    }

    /** A command: save, edit, set the current line. */
    method Perform(edits: seq<Edit>, newCur: int, memory: Memory)
      requires Valid() && AllAddressed(Saved(View(), memory), edits)
      modifies this, lines, undoLines, marks
      ensures Valid() && View() == Performed(old(View()), edits, newCur, memory)
    {
      hide Owned, Lines, Applied, Addressed, Saved;
      SaveUndo(memory);
      ghost var d := View();
      var i := 0;
      while i < |edits|
        invariant 0 <= i <= |edits| && Valid() && AllAddressed(View(), edits[i..])
        invariant AllApplied(View(), edits[i..]) == AllApplied(d, edits)
      {
        assert edits[i..][0] == edits[i] && edits[i..][1..] == edits[i + 1..];
        Apply(edits[i]);
        i := i + 1;
      }
      ghost var r := View();
      cur := newCur;
      assert View() == r.(cur := newCur);
    }

    /** A session of commands and undos on the arrays is the session on the text. */
    method RunSession(ops: seq<Op>)
      requires Valid() && SessionAddressed(View(), ops)
      modifies this, lines, undoLines, marks
      ensures Valid() && View() == Session(old(View()), ops)
    {
      hide Owned, Lines, Performed, Undone, AllAddressed;
      ghost var d := View();
      var i := 0;
      while i < |ops|
        invariant 0 <= i <= |ops| && Valid() && SessionAddressed(View(), ops[i..])
        invariant Session(View(), ops[i..]) == Session(d, ops)
      {
        assert ops[i..][0] == ops[i] && ops[i..][1..] == ops[i + 1..];
        if ops[i].Do? {
          Perform(ops[i].edits, ops[i].cur, ops[i].memory);
        } else {
          var ok := RestoreUndo();
        }
        i := i + 1;
      }
    }

    /** A command and an undo leave the current line as it was, and the text too exactly if every line could be
        copied; a second undo brings back what the command had made. */
    method PerformAndUndo(edits: seq<Edit>, newCur: int, memory: Memory, twice: bool)
      requires Valid() && AllAddressed(Saved(View(), memory), edits)
      modifies this, lines, undoLines, marks
      ensures Valid() && (twice ==> View() == Performed(old(View()), edits, newCur, memory))
      ensures !twice ==> View().cur == old(View().cur)
      ensures !twice ==> (View().text == old(View().text) <==> Enough(old(View().text), memory))
    {
      hide Owned, Lines, AllAddressed, Valid;
      ghost var d := View();
      UndoRestores(d, edits, newCur, memory);
      hide Performed;
      Perform(edits, newCur, memory);
      assert View().undoValid by { PerformedValid(d, edits, newCur, memory); }
      var ok := RestoreUndo();
      if twice { ok := RestoreUndo(); }
    }
  }

  lemma PerformedValid(d: Doc, edits: seq<Edit>, cur: int, memory: Memory)
    requires AllAddressed(Saved(d, memory), edits)
    ensures Performed(d, edits, cur, memory).undoValid
  {
    EditsKeepUndo(Saved(d, memory), edits);
  }

  /** `t` is `s` without the slot `at` of its first `n`; the slot that becomes free is cleared. */
  ghost predicate Removes(s: seq<nat>, t: seq<nat>, at: nat, n: nat) {
    && at < n <= |s| == |t| && t[n - 1] == 0
    && (forall i :: 0 <= i < at || n <= i < |s| ==> t[i] == s[i])
    && (forall i :: at <= i < n - 1 ==> t[i] == s[i + 1])
  }

  method RemoveSlot(lines: array<nat>, at: nat, n: nat)
    requires at < n <= lines.Length
    modifies lines
    ensures Removes(old(lines[..]), lines[..], at, n)
  {
    CloseGap(lines, at, n, 1);
    lines[n - 1] := 0;
  }

  /** Takes the slots from `a` up to `b` out, closes the gap, opens one behind slot number `dest` and puts them
      there. */
  method MoveSlots(lines: array<nat>, n: nat, a: nat, b: nat, dest: nat)
    requires a < b <= n <= lines.Length && dest <= n && (dest <= a || b < dest)
    modifies lines
    ensures Permuted(old(lines[..]), n, a, b, dest, lines[..])
  {
    hide Permuted, Closes, Opens, Puts, Takes;
    var count := b - a;
    ghost var s := lines[..];
    var tmp := TakeOut(lines, a, count);
    ghost var taken := tmp[..];
    assert Takes(s, taken, a, count);
    CloseGap(lines, a, n, count);
    assert tmp[..] == taken;
    var to := if dest > b then dest - count else dest;
    ghost var closed := lines[..];
    OpenGap(lines, to, n - count, count);
    ghost var open := lines[..];
    assert tmp[..] == taken;
    PutIn(lines, to, tmp);
    ghost var t := lines[..];
    assert Puts(open, t, to, taken);
    Assembled(s, closed, open, taken, n, a, count, dest, to, t);
  }

  method TakeOut(lines: array<nat>, at: nat, count: nat) returns (tmp: array<nat>)
    requires at + count <= lines.Length
    ensures fresh(tmp) && tmp.Length == count && Takes(lines[..], tmp[..], at, count)
  {
    tmp := new nat[count];
    var i := 0;
    while i < count
      invariant 0 <= i <= count && forall k :: 0 <= k < i ==> tmp[k] == lines[at + k]
    {
      tmp[i] := lines[at + i];
      i := i + 1;
    }
  }

  method PutIn(lines: array<nat>, at: nat, tmp: array<nat>)
    requires at + tmp.Length <= lines.Length && tmp != lines
    modifies lines
    ensures Puts(old(lines[..]), lines[..], at, tmp[..])
  {
    var i := 0;
    while i < tmp.Length
      invariant 0 <= i <= tmp.Length
      invariant forall k :: 0 <= k < lines.Length ==>
        lines[k] == if at <= k < at + i then tmp[k - at] else old(lines[k])
    {
      lines[at + i] := tmp[i];
      i := i + 1;
    }
  }

  lemma Assembled(s: seq<nat>, closed: seq<nat>, open: seq<nat>, tmp: seq<nat>, n: nat, a: nat, count: nat, dest: nat,
      to: nat, t: seq<nat>)
    requires 0 < count <= n - a && n <= |s| && dest <= n && (dest <= a || a + count < dest)
    requires to == (if dest > a + count then dest - count else dest)
    requires Takes(s, tmp, a, count) && Closes(s, closed, a, n, count) && Opens(closed, open, to, n - count, count)
    requires Puts(open, t, to, tmp)
    ensures Permuted(s, n, a, a + count, dest, t)
  {
    forall i | 0 <= i < n
      ensures Source(a, a + count, dest, i) < n && t[i] == s[Source(a, a + count, dest, i)]
    {
    }
  }

  method MarksUp(marks: array<nat>, after: nat)
    modifies marks
    ensures forall k :: 0 <= k < marks.Length ==> marks[k] == MarkUp(old(marks[k]), after)
  {
    var m := 0;
    while m < marks.Length
      invariant 0 <= m <= marks.Length
      invariant forall k :: 0 <= k < marks.Length ==>
        marks[k] == if k < m then MarkUp(old(marks[k]), after) else old(marks[k])
    {
      if marks[m] > after { marks[m] := marks[m] + 1; }
      m := m + 1;
    }
  }

  method MarksDown(marks: array<nat>, pos: nat)
    modifies marks
    ensures forall k :: 0 <= k < marks.Length ==> marks[k] == MarkDown(old(marks[k]), pos)
  {
    var m := 0;
    while m < marks.Length
      invariant 0 <= m <= marks.Length
      invariant forall k :: 0 <= k < marks.Length ==>
        marks[k] == if k < m then MarkDown(old(marks[k]), pos) else old(marks[k])
    {
      if marks[m] == pos { marks[m] := 0; } else if marks[m] > pos { marks[m] := marks[m] - 1; }
      m := m + 1;
    }
  }

  /** `t` is `s` with the slots from `at + step` up to `n` moved down by `step`. */
  ghost predicate Closes(s: seq<nat>, t: seq<nat>, at: nat, n: nat, step: nat) {
    && at + step <= n <= |s| == |t|
    && (forall i :: 0 <= i < at || n - step <= i < |s| ==> t[i] == s[i])
    && (forall i :: at <= i < n - step ==> t[i] == s[i + step])
  }

  /** `t` is `s` with the slots from `at` up to `n` moved up by `step`; those left behind may hold anything. */
  ghost predicate Opens(s: seq<nat>, t: seq<nat>, at: nat, n: nat, step: nat) {
    && at <= n && n + step <= |s| == |t|
    && (forall i :: 0 <= i < at || n + step <= i < |s| ==> t[i] == s[i])
    && (forall i :: at + step <= i < n + step ==> t[i] == s[i - step])
  }

  /** `tmp` is the `count` slots of `s` from `at`. */
  ghost predicate Takes(s: seq<nat>, tmp: seq<nat>, at: nat, count: nat) {
    at + count <= |s| && tmp == s[at..at + count]
  }

  /** `t` is `s` with `tmp` written from `at`. */
  ghost predicate Puts(s: seq<nat>, t: seq<nat>, at: nat, tmp: seq<nat>) {
    && at + |tmp| <= |s| == |t|
    && forall k :: 0 <= k < |t| ==> t[k] == if at <= k < at + |tmp| then tmp[k - at] else s[k]
  }

  /** Moves the slots from `at + step` up to `n` down by `step`. */
  method CloseGap(a: array<nat>, at: nat, n: nat, step: nat)
    requires at + step <= n <= a.Length
    modifies a
    ensures Closes(old(a[..]), a[..], at, n, step)
  {
    var i := at;
    while i < n - step
      invariant at <= i <= n - step && forall k :: 0 <= k < at || i <= k < a.Length ==> a[k] == old(a[k])
      invariant forall k :: at <= k < i ==> a[k] == old(a[k + step])
    {
      a[i] := a[i + step];
      i := i + 1;
    }
  }

  /** Moves the slots from `at` up to `n` up by `step`. */
  method OpenGap(a: array<nat>, at: nat, n: nat, step: nat)
    requires at <= n && n + step <= a.Length
    modifies a
    ensures Opens(old(a[..]), a[..], at, n, step)
  {
    var i := n;
    while i > at
      invariant at <= i <= n && forall k :: 0 <= k < i || n + step <= k < a.Length ==> a[k] == old(a[k])
      invariant forall k :: i + step <= k < n + step ==> a[k] == old(a[k - step])
    {
      i := i - 1;
      a[i + step] := a[i];
    }
  }

  lemma OwnedFits(a: seq<nat>, n: nat, u: seq<nat>, m: nat, heap: map<nat, string>)
    requires Owned(a, n, u, 0, m, heap)
    ensures n <= |a| && m <= |u| && (forall i :: 0 <= i < n ==> a[i] == 0 || a[i] in heap)
    ensures (forall i :: 0 <= i < m ==> u[i] == 0 || u[i] in heap)
  {
  }

  function Without(heap: map<nat, string>, p: nat): map<nat, string> { if p == 0 then heap else heap - {p} }

  /** A new buffer in a new slot. */
  lemma InsertOwned(a: seq<nat>, n: nat, u: seq<nat>, m: nat, heap: map<nat, string>, after: nat, p: nat,
      text: string, mid: seq<nat>, b: seq<nat>)
    requires Owned(a, n, u, 0, m, heap) && after <= n < |a| && p != 0 && p !in heap && Opens(a, mid, after, n, 1)
    requires b == mid[after := p]
    ensures var h := heap[p := text];
      && Owned(b, n + 1, u, 0, m, h) && Lines(u, m, h) == Lines(u, m, heap)
      && Lines(b, n + 1, h) == Inserted(Lines(a, n, heap), after, Some(text))
  {
    var h := heap[p := text];
    forall q | q in h
      ensures Has(b, 0, n + 1, q) || Has(u, 0, m, q)
    {
      if q == p {
        assert b[after] == q;
      } else if Has(a, 0, n, q) {
        var i :| 0 <= i < n && a[i] == q;
        if i < after { assert b[i] == q; } else { assert b[i + 1] == q; }
      }
    }
  }

  /** The buffer of one slot is given back and the slots after it move down. */
  lemma DeleteOwned(a: seq<nat>, n: nat, u: seq<nat>, m: nat, heap: map<nat, string>, at: nat, b: seq<nat>)
    requires Owned(a, n, u, 0, m, heap) && at < n && Removes(a, b, at, n)
    ensures var h := Without(heap, a[at]);
      && Owned(b, n - 1, u, 0, m, h) && Lines(u, m, h) == Lines(u, m, heap)
      && Lines(b, n - 1, h) == Deleted(Lines(a, n, heap), at)
  {
    var h := Without(heap, a[at]);
    forall q | q in h
      ensures Has(b, 0, n - 1, q) || Has(u, 0, m, q)
    {
      if Has(a, 0, n, q) {
        var i :| 0 <= i < n && a[i] == q;
        if i < at { assert b[i] == q; } else { assert b[i - 1] == q; }
      }
    }
  }

  /** The buffer of one slot is exchanged for a new one. */
  lemma ReplaceOwned(a: seq<nat>, n: nat, u: seq<nat>, m: nat, heap: map<nat, string>, at: nat, p: nat, text: string,
      b: seq<nat>, h: map<nat, string>)
    requires Owned(a, n, u, 0, m, heap) && at < n && p != 0 && p !in heap && b == a[at := p]
    requires h == Without(heap[p := text], a[at])
    ensures Owned(b, n, u, 0, m, h) && Lines(u, m, h) == Lines(u, m, heap)
    ensures Lines(b, n, h) == Lines(a, n, heap)[at := Some(text)]
  {
    forall q | q in h
      ensures Has(b, 0, n, q) || Has(u, 0, m, q)
    {
      if q == p {
        assert b[at] == q;
      } else if Has(a, 0, n, q) {
        var i :| 0 <= i < n && a[i] == q;
        assert b[i] == q;
      }
    }
  }

  // ----- saving -----

  /** The lines of `a` read the same. */
  ghost predicate SameText(a: seq<nat>, n: nat, h: map<nat, string>, heap: map<nat, string>)
  {
    n <= |a| && forall i :: 0 <= i < n ==> LineAt(heap, a[i]) == LineAt(h, a[i])
  }

  ghost predicate Copied(a: seq<nat>, u: seq<nat>, n: nat, heap: map<nat, string>, memory: Memory)
  {
    && n <= |a| && n <= |u|
    && forall i :: 0 <= i < n ==> LineAt(heap, u[i]) == if memory(i) then LineAt(heap, a[i]) else None
  }

  lemma DropStart(a: seq<nat>, n: nat, u: seq<nat>, m: nat, heap: map<nat, string>)
    requires Owned(a, n, u, 0, m, heap)
    ensures SameText(a, n, heap, heap)
  {
  }

  lemma DropStep(a: seq<nat>, n: nat, u: seq<nat>, i: nat, m: nat, h: map<nat, string>, heap: map<nat, string>)
    requires Owned(a, n, u, i, m, heap) && i < m && SameText(a, n, h, heap)
    ensures i < |u| && (u[i] == 0 || u[i] in heap)
    ensures Owned(a, n, u[i := 0], i + 1, m, Without(heap, u[i])) && SameText(a, n, h, Without(heap, u[i]))
  {
    var heap1, u1 := Without(heap, u[i]), u[i := 0];
    forall q | q in heap1
      ensures Has(a, 0, n, q) || Has(u1, i + 1, m, q)
    {
      if Has(u, i, m, q) {
        var k :| i <= k < m && u[k] == q;
        assert u1[k] == q;
      }
    }
  }

  lemma DropEnd(a: seq<nat>, n: nat, u: seq<nat>, m: nat, h: map<nat, string>, heap: map<nat, string>)
    requires Owned(a, n, u, m, m, heap) && SameText(a, n, h, heap)
    ensures Owned(a, n, u, 0, 0, heap) && Lines(a, n, heap) == Lines(a, n, h) && Lines(u, 0, heap) == []
  {
    assert forall q :: q in heap ==> Has(a, 0, n, q);
  }

  lemma CopyStart(a: seq<nat>, n: nat, u: seq<nat>, heap: map<nat, string>, memory: Memory)
    requires Owned(a, n, u, 0, 0, heap)
    ensures SameText(a, n, heap, heap) && Copied(a, u, 0, heap, memory)
  {
  }

  lemma CopyReady(a: seq<nat>, n: nat, u: seq<nat>, i: nat, heap: map<nat, string>)
    requires Owned(a, n, u, 0, i, heap) && i < n
    ensures i < |a| && (a[i] == 0 || a[i] in heap)
  {
  }

  /** Line i is copied into buffer `p`, or into none. */
  lemma CopyStep(a: seq<nat>, n: nat, u: seq<nat>, i: nat, h: map<nat, string>, heap: map<nat, string>, p: nat,
      heap1: map<nat, string>, memory: Memory)
    requires Owned(a, n, u, 0, i, heap) && i < n && |u| == |a| && SameText(a, n, h, heap)
    requires Copied(a, u, i, heap, memory)
    requires a[i] == 0 || a[i] in heap
    requires if a[i] != 0 && memory(i) then p != 0 && p !in heap && heap1 == heap[p := heap[a[i]]]
             else p == 0 && heap1 == heap
    ensures Owned(a, n, u[i := p], 0, i + 1, heap1) && SameText(a, n, h, heap1)
    ensures Copied(a, u[i := p], i + 1, heap1, memory)
  {
    var u1 := u[i := p];
    CopiedOne(a, n, u, i, h, heap, p, heap1, memory);
    hide SameText, Copied;
    assert Holds(u1, 0, i + 1, heap1) && Holds(a, 0, n, heap1);
    assert forall k, j :: 0 <= k < n && 0 <= j < i + 1 ==> a[k] != u1[j] || a[k] == 0;
    hide Holds;
    forall q | q in heap1
      ensures Has(a, 0, n, q) || Has(u1, 0, i + 1, q)
    {
      CopyCovers(a, n, u, i, heap, p, q);
    }
  }

  lemma CopyCovers(a: seq<nat>, n: nat, u: seq<nat>, i: nat, heap: map<nat, string>, p: nat, q: nat)
    requires n <= |a| && i < |u| && (q == p || (q in heap && (Has(a, 0, n, q) || Has(u, 0, i, q))))
    ensures Has(a, 0, n, q) || Has(u[i := p], 0, i + 1, q)
  {
    var u1 := u[i := p];
    if q == p {
      assert u1[i] == q;
    } else if !Has(a, 0, n, q) {
      var k :| 0 <= k < i && u[k] == q;
      assert u1[k] == q;
    }
  }

  lemma CopiedOne(a: seq<nat>, n: nat, u: seq<nat>, i: nat, h: map<nat, string>, heap: map<nat, string>, p: nat,
      heap1: map<nat, string>, memory: Memory)
    requires Owned(a, n, u, 0, i, heap) && i < n && |u| == |a| && SameText(a, n, h, heap)
    requires Copied(a, u, i, heap, memory)
    requires a[i] == 0 || a[i] in heap
    requires if a[i] != 0 && memory(i) then p != 0 && p !in heap && heap1 == heap[p := heap[a[i]]]
             else p == 0 && heap1 == heap
    ensures SameText(a, n, h, heap1) && Copied(a, u[i := p], i + 1, heap1, memory)
  {
  }

  lemma CopyEnd(a: seq<nat>, n: nat, u: seq<nat>, h: map<nat, string>, heap: map<nat, string>, memory: Memory)
    requires Owned(a, n, u, 0, n, heap) && SameText(a, n, h, heap) && Copied(a, u, n, heap, memory)
    ensures Lines(a, n, heap) == Lines(a, n, h) && Lines(u, n, heap) == Copies(Lines(a, n, h), memory)
  {
  }

  // ----- moving -----

  /** Which old slot the new slot `i` gets its line from, and the other way round. */
  function Source(a: nat, b: nat, dest: nat, i: nat): nat
    requires a < b && (dest <= a || b <= dest)
  {
    var k := b - a;
    var to := if dest <= a then dest else dest - k;
    if to <= i < to + k then a + (i - to)
    else
      var j := if i < to then i else i - k;
      if j < a then j else j + k
  }

  function Target(a: nat, b: nat, dest: nat, j: nat): nat
    requires a < b && (dest <= a || b <= dest)
  {
    var k := b - a;
    var to := if dest <= a then dest else dest - k;
    if a <= j < b then to + (j - a)
    else
      var r := if j < a then j else j - k;
      if r < to then r else r + k
  }

  lemma Inverse(a: nat, b: nat, dest: nat, n: nat, i: nat)
    requires a < b <= n && dest <= n && (dest <= a || b <= dest) && i < n
    ensures Source(a, b, dest, i) < n && Target(a, b, dest, Source(a, b, dest, i)) == i
    ensures Target(a, b, dest, i) < n && Source(a, b, dest, Target(a, b, dest, i)) == i
  {
  }

  lemma MovedAt<T>(s: seq<T>, a: nat, b: nat, dest: nat, i: nat)
    requires a < b <= |s| && dest <= |s| && (dest <= a || b <= dest) && i < |s|
    ensures Source(a, b, dest, i) < |s| && |Moved(s, a, b, dest)| == |s|
    ensures Moved(s, a, b, dest)[i] == s[Source(a, b, dest, i)]
  {
    if dest <= a {
      At4(s[..dest], s[a..b], s[dest..a], s[b..], i);
    } else {
      At4(s[..a], s[b..dest], s[a..b], s[dest..], i);
    }
  }

  lemma At4<T>(p: seq<T>, q: seq<T>, x: seq<T>, y: seq<T>, i: nat)
    requires i < |p| + |q| + |x| + |y|
    ensures (p + q + x + y)[i] == if i < |p| then p[i] else if i < |p| + |q| then q[i - |p|]
                                  else if i < |p| + |q| + |x| then x[i - |p| - |q|] else y[i - |p| - |q| - |x|]
  {
  }

  // ----- marks -----

  /** A mark set on a line. */
  predicate Marks(d: Doc, k: nat) { k < |d.marks| && 1 <= d.marks[k] <= |d.text| }

  /** Insertions and deletions keep every mark on its line; the mark of a deleted line is lost. */
  lemma MarksFollow(d: Doc, e: Edit, k: nat)
    requires Addressed(d.text, e) && Marks(d, k) && (e.Insert? || e.Delete?)
    ensures var d1 := Applied(d, e);
      if e.Delete? && e.pos == d.marks[k] then d1.marks[k] == 0
      else Marks(d1, k) && d1.text[d1.marks[k] - 1] == d.text[d.marks[k] - 1]
  {
    var m := d.marks[k] - 1;
    if e.Delete? && 1 <= e.pos <= |d.text| && m >= e.pos {
      assert Deleted(d.text, e.pos - 1)[m - 1] == d.text[m];
    }
  }

  /** Moving does not: of lines that are all different, a mark still shows the one it did exactly if no line moved
      past it. */
  lemma MovedMarks(d: Doc, e: Edit, k: nat)
    requires Addressed(d.text, e) && e.Move? && Marks(d, k)
    requires forall i, j :: 0 <= i < j < |d.text| ==> d.text[i] != d.text[j]
    ensures var d1, m := Applied(d, e), d.marks[k];
      && Marks(d1, k)
      && (d1.text[d1.marks[k] - 1] == d.text[m - 1] <==>
            !e.memory || (m < e.first && m <= e.dest) || (m > e.last && m > e.dest) || e.dest == e.first - 1)
  {
    hide Moved, Source;
    if e.memory {
      var i := d.marks[k] - 1;
      MovedAt(d.text, e.first - 1, e.last, e.dest, i);
      Fixed(e.first - 1, e.last, e.dest, i);
      var p := Source(e.first - 1, e.last, e.dest, i);
      assert p != i ==> d.text[p] != d.text[i];
    }
  }

  lemma Fixed(a: nat, b: nat, dest: nat, i: nat)
    requires a < b && (dest <= a || b <= dest)
    ensures Source(a, b, dest, i) == i <==> (i < a && i < dest) || (i >= b && i >= dest) || dest == a || dest == b
  {
  }

  /** A mark that is left on another line. */
  lemma LostMark()
    ensures var d := Doc([Some("a"), Some("b")], 1, [1], [], 0, false);
      var e := Move(1, 1, 2, true);
      && Addressed(d.text, e) && Marks(d, 0)
      && Marks(Applied(d, e), 0) && Applied(d, e).text[Applied(d, e).marks[0] - 1] == Some("b")
  {
    var d := Doc([Some("a"), Some("b")], 1, [1], [], 0, false);
    MovedAt(d.text, 0, 1, 2, 0);
  }

  /** The slots of a moved block and of the lines around it, one by one. */
  ghost predicate Permuted(s: seq<nat>, n: nat, a: nat, b: nat, dest: nat, t: seq<nat>)
    requires a < b && (dest <= a || b <= dest)
  {
    && n <= |s| == |t| && (forall i :: n <= i < |s| ==> t[i] == s[i])
    && (forall i :: 0 <= i < n ==> Source(a, b, dest, i) < n && t[i] == s[Source(a, b, dest, i)])
  }

  lemma MoveOwned(s: seq<nat>, n: nat, u: seq<nat>, m: nat, heap: map<nat, string>, a: nat, b: nat, dest: nat,
      t: seq<nat>)
    requires Owned(s, n, u, 0, m, heap) && a < b <= n && dest <= n && (dest <= a || b <= dest)
    requires Permuted(s, n, a, b, dest, t)
    ensures Owned(t, n, u, 0, m, heap) && Lines(t, n, heap) == Moved(Lines(s, n, heap), a, b, dest)
  {
    hide Moved, Source, Target;
    forall i, j | 0 <= i < j < n
      ensures t[i] != t[j] || t[i] == 0
    {
      Inverse(a, b, dest, n, i);
      Inverse(a, b, dest, n, j);
    }
    forall q | q in heap
      ensures Has(t, 0, n, q) || Has(u, 0, m, q)
    {
      if Has(s, 0, n, q) {
        var i :| 0 <= i < n && s[i] == q;
        Inverse(a, b, dest, n, i);
        assert t[Target(a, b, dest, i)] == q;
      }
    }
    var was := Lines(s, n, heap);
    if n > 0 { MovedAt(was, a, b, dest, 0); }
    forall i | 0 <= i < n
      ensures Lines(t, n, heap)[i] == Moved(was, a, b, dest)[i]
    {
      MovedAt(was, a, b, dest, i);
    }
  }
}
