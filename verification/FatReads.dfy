/** Reading a file in pieces returns its bytes in order. */
module FatReads {
  import opened Basics
  import opened FatTable
  import opened FatVolume
  import opened FatFiles
  import opened FatDriver

  const LIMIT := 0x1_0000_0000

  /** A read is cut to the end of the file, the last of whose clusters ends at `total`, unless position and count
      together pass 32 bits, the wrapped sum lies inside the file and the last cluster is not full. */
  predicate Exact(total: nat, f: File, count: Word)
  {
    f.pos + count < LIMIT || f.pos + count - LIMIT > f.size || f.size == total
  }

  /** Exactly then it returns the requested bytes of the file, cut to its end; and otherwise bytes past the end. */
  lemma ReadExactly(all: seq<Byte>, f: File, count: Word)
    requires f.pos <= f.size <= |all|
    ensures Piece(all, f.pos, Wanted(f, count)) == all[f.pos..Min(f.pos + count, f.size)] <==> Exact(|all|, f, count)
    ensures !Exact(|all|, f, count) ==> f.pos + |Piece(all, f.pos, Wanted(f, count))| > f.size
  {
    var got, right := Piece(all, f.pos, Wanted(f, count)), all[f.pos..Min(f.pos + count, f.size)];
    assert |got| == Min(f.pos + Wanted(f, count), |all|) - f.pos && |right| == Min(f.pos + count, f.size) - f.pos;
    if f.pos + count < LIMIT {
      assert (f.pos + count) % LIMIT == f.pos + count;
    } else {
      assert (f.pos + count) % LIMIT == f.pos + count - LIMIT;
    }
  }

  /** A one-byte file in a full-size cluster: a second read with the largest count returns the padding. */
  lemma ReadPastEnd(all: seq<Byte>)
    requires |all| == 512
    ensures var f := File(2, 1, 1, true); Piece(all, f.pos, Wanted(f, 0xFFFF_FFFF)) == all[1..] != []
  {
  }

  function Sum(counts: seq<Word>): nat { if counts == [] then 0 else counts[0] + Sum(counts[1..]) }

  function Flatten(pieces: seq<seq<Byte>>): seq<Byte> { if pieces == [] then [] else pieces[0] + Flatten(pieces[1..]) }

  /** What a sequence of reads of the sizes `counts` returns, one after the other, up to the first one that goes past
      the end of the file. */
  function Pieces(all: seq<Byte>, f: File, counts: seq<Word>): seq<seq<Byte>>
    requires f.pos <= f.size <= |all|
    decreases |counts|
  {
    if counts == [] then []
    else
      var piece := Piece(all, f.pos, Wanted(f, counts[0]));
      [piece] + if f.pos + |piece| > f.size then [] else Pieces(all, f.(pos := f.pos + |piece|), counts[1..])
  }

  /** Every read, at the position it starts from, is exact. */
  predicate AllExact(total: nat, f: File, counts: seq<Word>)
    requires f.pos <= f.size
    decreases |counts|
  {
    counts == [] ||
    (Exact(total, f, counts[0]) && AllExact(total, f.(pos := Min(f.pos + counts[0], f.size)), counts[1..]))
  }

  /** Reads are exact if none of the sizes reaches 2^32 from the end of the file. */
  lemma {:induction false} SmallCounts(total: nat, f: File, counts: seq<Word>)
    requires f.pos <= f.size && forall k :: 0 <= k < |counts| ==> f.size + counts[k] < LIMIT
    ensures AllExact(total, f, counts)
    decreases |counts|
  {
    if counts != [] { SmallCounts(total, f.(pos := Min(f.pos + counts[0], f.size)), counts[1..]); }
  }

  lemma InFile(all: seq<Byte>, f: File, count: Word)
    requires f.pos <= f.size <= |all| && Exact(|all|, f, count)
    ensures Piece(all, f.pos, Wanted(f, count)) == all[f.pos..Min(f.pos + count, f.size)]
  {
    ReadExactly(all, f, count);
  }

  /** The pieces are consecutive: together they are the file from the position on, up to the total requested, exactly
      if every read is exact. */
  lemma {:induction false} ReadsJoin(all: seq<Byte>, f: File, counts: seq<Word>)
    requires f.pos <= f.size <= |all|
    ensures Flatten(Pieces(all, f, counts)) == all[f.pos..Min(f.pos + Sum(counts), f.size)] <==>
      AllExact(|all|, f, counts)
    ensures !AllExact(|all|, f, counts) ==> |Flatten(Pieces(all, f, counts))| > f.size - f.pos
    decreases |counts|
  {
    hide Piece, Wanted, Exact;
    if counts != [] {
      var n, rest := counts[0], counts[1..];
      ReadExactly(all, f, n);
      var piece := Piece(all, f.pos, Wanted(f, n));
      if Exact(|all|, f, n) {
        var f1 := f.(pos := f.pos + |piece|);
        assert f1.pos == Min(f.pos + n, f.size);
        ReadsJoin(all, f1, rest);
        JoinsOn(piece, Pieces(all, f1, rest));
        FollowOn(all, f.pos, f1.pos, Min(f1.pos + Sum(rest), f.size), Flatten(Pieces(all, f1, rest)));
      } else {
        JoinsOn(piece, []);
      }
    }
  }

  lemma JoinsOn(piece: seq<Byte>, pieces: seq<seq<Byte>>)
    ensures Flatten([piece] + pieces) == piece + Flatten(pieces)
  {
    assert ([piece] + pieces)[1..] == pieces;
  }

  lemma FollowOn(all: seq<Byte>, a: nat, b: nat, c: nat, s: seq<Byte>)
    requires a <= b <= c <= |all|
    ensures all[a..b] + s == all[a..c] <==> s == all[b..c]
  {
    assert all[a..c] == all[a..b] + all[b..c];
    assert (all[a..b] + s)[b - a..] == s && (all[a..b] + all[b..c])[b - a..] == all[b..c];
  }

  /** The bytes that the clusters of a file of n bytes have room for. */
  function Span(n: nat, g: Geo): nat
    requires g.size > 0
  {
    Clusters(n, g.size) * g.size
  }

  /** After a successful write, opening the name and reading in pieces of any sizes gives back the bytes written,
      exactly if every read is exact. */
  lemma WriteReadBack(v: Vol, g: Geo, chains: seq<seq<nat>>, name: seq<Byte>, bytes: seq<Byte>, counts: seq<Word>)
    requires Valid(v, g, chains) && Proper(name) && |bytes| < 0x8000_0000 && WriteFile(v, g, name, bytes).1
    ensures var w := WriteFile(v, g, name, bytes).0; var cs := Chosen(v.fat, g, |bytes|);
      && Find(w.root, name, 0).Some?
      && (var e := w.root[Find(w.root, name, 0).value]; var f := File(e.first, e.size, 0, true);
        && Backs(w, g, f, cs) && f.size <= |Content(w.data, cs)| == Span(|bytes|, g) && f.size == |bytes|
        && (Flatten(Pieces(Content(w.data, cs), f, counts)) == bytes[..Min(Sum(counts), |bytes|)] <==>
            AllExact(Span(|bytes|, g), f, counts)))
  {
    hide WriteFile, Find, Scan, Chosen, Content, Clusters, Pieces, AllExact, Flatten, Sum;
    WriteFails(v, g, name, bytes);
    WriteFound(v, g, chains, name, bytes);
    WriteHolds(v, g, chains, name, bytes);
    var i, w := WriteIs(v, g, chains, name, bytes);
    var cs := Chosen(v.fat, g, |bytes|);
    ChosenCount(v.fat, g, |bytes|);
    ClustersHold(|bytes|, g.size);
    WrittenSwaps(v, w, g, chains, i, |bytes|);
    var f := File(FirstOf(cs), |bytes|, 0, true);
    BacksSpan(w, g, f, cs);
    var all, n := Content(w.data, cs), Min(Sum(counts), |bytes|);
    ReadsJoin(all, f, counts);
    assert all[..|bytes|] == bytes && all[0..n] == bytes[..n];
  }
}
