/** Whole runs of the driver: sequences of requests, and reading back in pieces what was written. */
module FatRuns {
  import opened Basics
  import opened FatTable
  import opened FatVolume
  import opened FatFiles
  import opened FatDisk
  import opened FatNames
  import opened FatDriver
  import opened FatReads

  /** A request with a file name as the caller writes it. */
  datatype Request = Put(name: seq<Byte>, bytes: seq<Byte>) | Remove(name: seq<Byte>) | MakeDirectory(name: seq<Byte>)

  /** Root-level names, none of them starting with the mark of deleted slots. */
  predicate Acceptable(r: Request)
  {
    match r
    case Put(name, bytes) => RootName(name) && Proper(To83(name)) && |bytes| < 0x8000_0000
    case Remove(name) => RootName(name)
    case MakeDirectory(name) => Proper(To83(name))
  }

  /** The operation on the volume; a directory without a name is refused. */
  function OpsOf(r: Request): seq<Op>
  {
    match r
    case Put(name, bytes) => [Write(To83(name), bytes)]
    case Remove(name) => [Delete(To83(name))]
    case MakeDirectory(name) => if name == [] then [] else [MakeDir(To83(name))]
  }

  function AllOps(rs: seq<Request>): seq<Op> { if rs == [] then [] else OpsOf(rs[0]) + AllOps(rs[1..]) }

  predicate AllProper(ops: seq<Op>) { forall k :: 0 <= k < |ops| ==> ProperOp(ops[k]) }

  lemma {:induction false} OpsProper(rs: seq<Request>)
    requires forall k :: 0 <= k < |rs| ==> Acceptable(rs[k])
    ensures AllProper(AllOps(rs))
  {
    hide To83, Proper;
    if rs != [] { OpsProper(rs[1..]); }
  }

  /** A run of one more operation. */
  lemma RunFirst(v: Vol, g: Geo, op: Op, ops: seq<Op>)
    requires Sized(v, g) && Consistent(v, g) && g.size >= 64 && ProperOp(op)
    requires forall k :: 0 <= k < |ops| ==> ProperOp(ops[k])
    ensures Sized(Apply(v, g, op), g) && Consistent(Apply(v, g, op), g)
    ensures Run(v, g, [op] + ops) == Run(Apply(v, g, op), g, ops)
  {
    hide Sized, Consistent, Apply, ProperOp;
    ApplyConsistent(v, g, op);
    assert ([op] + ops)[1..] == ops;
  }

  /** A driver that is asked for a sequence of writes, deletions and directories ends with the volume that the
      operations make of the one it started with, and that volume is consistent. */
  method RunAll(d: Driver, rs: seq<Request>)
    requires d.Sound() && Consistent(d.View(), GeoOf(d.b)) && forall k :: 0 <= k < |rs| ==> Acceptable(rs[k])
    modifies d`disk
    ensures d.Sound() && Sized(old(d.View()), GeoOf(d.b)) && GeoOf(d.b).size >= 64 && Consistent(d.View(), GeoOf(d.b))
    ensures AllProper(AllOps(rs))
    ensures d.View() == Run(old(d.View()), GeoOf(d.b), AllOps(rs))
  {
    hide VolOf, Mirrored, Good, Sized, Consistent, Linkable, Run, AllOps, Acceptable, ProperOp;
    ghost var v, g := d.View(), GeoOf(d.b);
    ViewSized(d.b, d.disk);
    BigClusters(d.b, d.disk);
    OpsProper(rs);
    var i := 0;
    assert rs[0..] == rs;
    while i < |rs|
      invariant 0 <= i <= |rs| && d.Sound() && Sized(d.View(), g) && Consistent(d.View(), g)
      invariant AllProper(AllOps(rs[i..]))
      invariant Run(d.View(), g, AllOps(rs[i..])) == Run(v, g, AllOps(rs))
    {
      ghost var now := d.View();
      FirstOps(rs, i, now, g);
      Handle(d, rs[i]);
      i := i + 1;
    }
    RunNone(d.View(), g, rs, i);
  }

  lemma RunNone(v: Vol, g: Geo, rs: seq<Request>, i: nat)
    requires i == |rs| && Sized(v, g) && Consistent(v, g) && g.size >= 64
    ensures AllOps(rs[i..]) == [] && Run(v, g, []) == v
  {
  }

  lemma BigClusters(b: Bpb, disk: seq<Sector>)
    requires Disk(b, disk)
    ensures GeoOf(b).size >= 64
  {
  }

  ghost function Handled(v: Vol, g: Geo, r: Request): Vol
    requires Sized(v, g) && g.size >= 64 && Acceptable(r)
  {
    match r
    case Put(name, bytes) => Apply(v, g, Write(To83(name), bytes))
    case Remove(name) => Apply(v, g, Delete(To83(name)))
    case MakeDirectory(name) => if name == [] then v else Apply(v, g, MakeDir(To83(name)))
  }

  /** The first of the requests that are left. */
  lemma FirstOps(rs: seq<Request>, i: nat, v: Vol, g: Geo)
    requires i < |rs| && Acceptable(rs[i]) && Sized(v, g) && Consistent(v, g) && g.size >= 64
    requires AllProper(AllOps(rs[i..]))
    ensures AllProper(AllOps(rs[i + 1..]))
    ensures var w := Handled(v, g, rs[i]);
      Sized(w, g) && Consistent(w, g) && Run(v, g, AllOps(rs[i..])) == Run(w, g, AllOps(rs[i + 1..]))
  {
    hide Sized, Consistent, Run, Apply, To83, Proper;
    var first, rest := OpsOf(rs[i]), AllOps(rs[i + 1..]);
    assert rs[i..][1..] == rs[i + 1..] && AllOps(rs[i..]) == first + rest;
    forall k | 0 <= k < |rest|
      ensures ProperOp(rest[k])
    {
      assert (first + rest)[|first| + k] == rest[k];
    }
    if first == [] {
      assert first + rest == rest;
    } else {
      assert first == [first[0]] && ProperOp(first[0]);
      RunFirst(v, g, first[0], rest);
    }
  }

  method Handle(d: Driver, r: Request)
    requires d.Sound() && Acceptable(r)
    modifies d`disk
    ensures d.Sound() && Sized(old(d.View()), GeoOf(d.b)) && GeoOf(d.b).size >= 64
    ensures d.View() == Handled(old(d.View()), GeoOf(d.b), r)
  {
    hide VolOf, Mirrored, Good, Sized, Disk, Linkable, FatFiles.WriteFile, FatFiles.DeleteFile, FatFiles.Mkdir, To83;
    BigClusters(d.b, d.disk);
    match r
    case Put(name, bytes) => var _ := d.WriteFile(name, bytes);
    case Remove(name) => var _ := d.DeleteFile(name);
    case MakeDirectory(name) => ViewSized(d.b, d.disk); var _ := d.Mkdir(name);
  }

  /** Reads with the sizes `counts`, one after the other, up to the first read that goes past the end of the file. */
  method ReadPieces(d: Driver, h: nat, counts: seq<Word>, ghost cs: seq<nat>) returns (pieces: seq<seq<Byte>>)
    requires d.Ready() && h < |d.files| && d.files[h].isOpen && Backs(d.View(), GeoOf(d.b), d.files[h], cs)
    modifies d`files
    ensures old(d.files)[h].pos <= old(d.files)[h].size <= |Content(d.View().data, cs)|
    ensures pieces == Pieces(Content(d.View().data, cs), old(d.files)[h], counts)
  {
    hide VolOf, Mirrored, Good, Content, Backs, Piece, Wanted, Pieces;
    ghost var f, g, v := d.files[h], GeoOf(d.b), d.View();
    BacksSpan(v, g, f, cs);
    ghost var all := Content(v.data, cs);
    pieces := [];
    var i := 0;
    while i < |counts|
      invariant 0 <= i <= |counts| && d.Ready() && d.View() == v && h < |d.files|
      invariant d.files[h] == f.(pos := d.files[h].pos)
      invariant Backs(v, g, d.files[h], cs) && d.files[h].pos <= f.size <= |all| && f.isOpen
      invariant pieces + Pieces(all, d.files[h], counts[i..]) == Pieces(all, f, counts)
    {
      var now := d.files[h];
      PiecesFrom(all, now, counts, i, pieces);
      var r := d.Read(h, counts[i], cs);
      pieces := pieces + [r.value];
      if now.pos + |r.value| > now.size { return; }
      BacksOn(v, g, now, cs, |r.value|);
      i := i + 1;
    }
    PiecesNone(all, d.files[h], counts, i, pieces);
  }

  /** The next piece and those after it. */
  lemma PiecesFrom(all: seq<Byte>, f: File, counts: seq<Word>, i: nat, done: seq<seq<Byte>>)
    requires f.pos <= f.size <= |all| && i < |counts|
    ensures var piece := Piece(all, f.pos, Wanted(f, counts[i]));
      done + Pieces(all, f, counts[i..]) == done + [piece]
        + if f.pos + |piece| > f.size then [] else Pieces(all, f.(pos := f.pos + |piece|), counts[i + 1..])
  {
    hide Piece, Wanted;
    var left := counts[i..];
    assert left[0] == counts[i] && left[1..] == counts[i + 1..];
  }

  lemma PiecesNone(all: seq<Byte>, f: File, counts: seq<Word>, i: nat, done: seq<seq<Byte>>)
    requires f.pos <= f.size <= |all| && i == |counts|
    ensures done + Pieces(all, f, counts[i..]) == done
  {
  }

  lemma BacksOn(v: Vol, g: Geo, f: File, cs: seq<nat>, n: nat)
    requires Backs(v, g, f, cs) && f.pos + n <= f.size
    ensures (f.pos + n) % LIMIT == f.pos + n && Backs(v, g, f.(pos := f.pos + n), cs)
  {
  }

  /** Writing a file, opening it and reading it in pieces of any sizes gives back what was written, whatever the volume
      held before, exactly if every read is exact. */
  method WriteAndReadBack(d: Driver, name: seq<Byte>, bytes: seq<Byte>, counts: seq<Word>, ghost chains: seq<seq<nat>>)
    returns (rc: int, pieces: Option<seq<seq<Byte>>>)
    requires d.Sound() && Valid(d.View(), GeoOf(d.b), chains) && |d.files| == MAX_FILES
    requires RootName(name) && Proper(To83(name)) && |bytes| < 0x8000_0000
    modifies d`disk, d`files
    ensures d.Sound()
    ensures (rc < 0 ==> d.View().fat == old(d.View()).fat && d.View().root == old(d.View()).root && pieces.None?)
    ensures rc >= 0 && (exists k :: 0 <= k < MAX_FILES && !old(d.files)[k].isOpen) ==> pieces.Some?
    ensures GeoOf(d.b).size > 0
    ensures pieces.Some? ==>
      (Flatten(pieces.value) == bytes[..Min(Sum(counts), |bytes|)] <==>
        AllExact(Span(|bytes|, GeoOf(d.b)), File(0, |bytes|, 0, true), counts))
  {
    hide VolOf, Mirrored, Good, Linkable, FatFiles.WriteFile, Find, Content, Chosen, Scan, To83, Proper, Pieces,
         Flatten, Sum, Backs, Valid, AllExact, Span;
    ghost var v, g, cs := d.View(), GeoOf(d.b), [];
    pieces := None;
    ProperLong(To83(name));
    rc := d.WriteFile(name, bytes);
    WriteFails(v, g, To83(name), bytes);
    if rc >= 0 {
      WriteReadBack(v, g, chains, To83(name), bytes, counts);
      cs := Chosen(v.fat, g, |bytes|);
      var h := d.Open(name);
      if h.Some? {
        ghost var f := d.files[h.value];
        var ps := ReadPieces(d, h.value, counts, cs);
        ExactSame(Span(|bytes|, g), f, File(0, |bytes|, 0, true), counts);
        pieces := Some(ps);
      }
    }
  }

  /** Where a file starts does not matter for whether reads are exact. */
  lemma {:induction false} ExactSame(total: nat, f: File, e: File, counts: seq<Word>)
    requires f.pos <= f.size && e.pos == f.pos && e.size == f.size
    ensures AllExact(total, f, counts) == AllExact(total, e, counts)
    decreases |counts|
  {
    if counts != [] {
      var next := Min(f.pos + counts[0], f.size);
      ExactSame(total, f.(pos := next), e.(pos := next), counts[1..]);
    }
  }
}
