/** The FAT16 driver on the sectors of a disk: each operation does to the bytes what the
    operations on volumes say. */
module FatDriver {
  import opened Basics
  import opened FatTable
  import opened FatVolume
  import opened FatFiles
  import opened FatDisk
  import opened FatNames

  /** An open file: where its chain starts, its size and the read position. */
  datatype File = File(first: Half, size: Word, pos: Word, isOpen: bool)

  const MAX_FILES := 8

  // ----- one table entry in every copy -----

  /** The entry c holds v in the first `k` copies; everything else is as in `d`. */
  ghost predicate Partly(b: Bpb, d: seq<Sector>, e: seq<Sector>, k: nat, c: nat, v: Half)
    requires Disk(b, d)
  {
    && Disk(b, e) && SameOutside(d, e, FatStart(b), RootStart(b))
    && forall j: nat, x: nat :: j < b.fats && x < 256 * b.perFat ==>
         Copy(b, e, j, x) == if j < k && x == c then v else Copy(b, d, j, x)
  }

  lemma PartlyStep(b: Bpb, d: seq<Sector>, e: seq<Sector>, k: nat, c: nat, v: Half)
    requires Disk(b, d) && Partly(b, d, e, k, c, v) && k < b.fats && c < 256 * b.perFat
    ensures FatLba(b, k, c / 256) < |e| && |e[FatLba(b, k, c / 256)]| == 512
    ensures var l := FatLba(b, k, c / 256); Partly(b, d, e[l := PutHalf(e[l], 2 * (c % 256), v)], k + 1, c, v)
  {
    hide FatLba, RootStart, FatStart, Good, PutHalf, GetHalf;
    FatInside(b, e, k, c);
    var l := FatLba(b, k, c / 256);
    var f := e[l := PutHalf(e[l], 2 * (c % 256), v)];
    Regions(b);
    assert FatStart(b) <= l;
    forall j: nat, x: nat | j < b.fats && x < 256 * b.perFat
      ensures Copy(b, f, j, x) == if j < k + 1 && x == c then v else Copy(b, d, j, x)
    {
      CopyPut(b, e, k, c, v, j, x);
    }
  }

  lemma CopyPut(b: Bpb, e: seq<Sector>, k: nat, c: nat, v: Half, j: nat, x: nat)
    requires Disk(b, e) && k < b.fats && c < 256 * b.perFat && j < b.fats && x < 256 * b.perFat
    ensures FatLba(b, k, c / 256) < |e|
    ensures var l := FatLba(b, k, c / 256); var f := e[l := PutHalf(e[l], 2 * (c % 256), v)];
      Disk(b, f) && Copy(b, f, j, x) == if j == k && x == c then v else Copy(b, e, j, x)
  {
    hide FatLba, Good, PutHalf, GetHalf;
    FatInside(b, e, k, c);
    FatInside(b, e, j, x);
    var l := FatLba(b, k, c / 256);
    if FatLba(b, j, x / 256) == l {
      FatApart(b, k, c / 256, j, x / 256);
      GetPut(e[l], 2 * (c % 256), v, 2 * (x % 256));
    }
  }

  /** When every copy is written the table has one new entry. */
  lemma PartlyDone(b: Bpb, d: seq<Sector>, e: seq<Sector>, c: nat, v: Half)
    requires Disk(b, d) && Mirrored(b, d) && Partly(b, d, e, b.fats, c, v) && c < 256 * b.perFat
    ensures Mirrored(b, e) && VolOf(b, e) == VolOf(b, d).(fat := FatOf(b, d)[c := v])
  {
    hide FatWord, RootOf, DataOf, RootStart, FatStart, FatLba, Good;
    TablesOnly(b, d, e);
    forall x | 0 <= x < 256 * b.perFat
      ensures FatOf(b, e)[x] == FatOf(b, d)[c := v][x]
    {
      FatIsCopy(b, d, x);
      FatIsCopy(b, e, x);
      FatsExist(b);
      assert Copy(b, e, 0, x) == if x == c then v else Copy(b, d, 0, x);
    }
    forall k: nat, x: nat | k < b.fats && x < 256 * b.perFat
      ensures Copy(b, e, k, x) == Copy(b, e, 0, x)
    {
      FatsExist(b);
      assert Copy(b, d, k, x) == Copy(b, d, 0, x);
    }
  }

  lemma FatsExist(b: Bpb)
    requires Good(b)
    ensures b.fats > 0
  {
  }

  lemma FatIsCopy(b: Bpb, d: seq<Sector>, x: nat)
    requires Disk(b, d) && x < 256 * b.perFat
    ensures b.fats > 0 && FatOf(b, d)[x] == Copy(b, d, 0, x)
  {
  }

  /** All `n` clusters are taken. */
  lemma TakenAll(fat: Table, top: nat, n: nat, cur: Table)
    requires 2 <= top <= |fat| && top <= BAD && Taken(fat, top, n, cur)
    ensures var free := FreeList(fat, 2, top);
      && n <= |free| && cur == Linked(fat, free[..n]) && FirstOf(free[..n]) == (if n == 0 then 0 else Nth(fat, top, 0))
      && (n > 0 ==> 2 <= Nth(fat, top, n - 1) < |cur| && cur[Nth(fat, top, n - 1) := EOC_MAX] == cur)
  {
    hide FreeList;
    if n > 0 { EndAgain(fat, FreeList(fat, 2, top)[..n]); }
  }

  /** No cluster is left after `i`: what was taken is given back. */
  lemma TakenNone(fat: Table, g: Geo, i: nat, cur: Table)
    requires 2 <= g.top <= |fat| && g.top <= BAD && Inside(fat) && Taken(fat, g.top, i, cur) && Nth(fat, g.top, i) == 0
    ensures var free := FreeList(fat, 2, g.top); var first := Nth(fat, g.top, 0);
      && i == |free| && Inside(cur) && Undone(fat, g, free) == (if first == 0 then cur else Freed(cur, first))
      && first < |cur|
  {
    hide FreeList;
    var free := FreeList(fat, 2, g.top);
    LinkedInside(fat, free);
    assert free[..|free|] == free;
  }

  /** The first `s` sectors of cluster c hold `bytes` from offset `from` on; everything else is as in `d`. */
  ghost predicate Sectors(b: Bpb, d: seq<Sector>, e: seq<Sector>, c: nat, s: nat, bytes: seq<Byte>, from: nat)
    requires Disk(b, d) && 2 <= c < Top(b) && s <= b.perCluster
  {
    ClusterInside(b, c, b.perCluster - 1);
    var lba := ClusterLba(b, c, 0);
    Disk(b, e) && SameOutside(d, e, lba, lba + b.perCluster) && Joined(e, lba, s) == Padded(bytes, from, 512 * s)
  }

  lemma SectorsStart(b: Bpb, d: seq<Sector>, c: nat, bytes: seq<Byte>, from: nat)
    requires Disk(b, d) && 2 <= c < Top(b)
    ensures Sectors(b, d, d, c, 0, bytes, from)
  {
  }

  lemma SectorsStep(b: Bpb, d: seq<Sector>, e: seq<Sector>, c: nat, s: nat, bytes: seq<Byte>, from: nat, sector: Sector)
    requires Disk(b, d) && 2 <= c < Top(b) && s < b.perCluster && Sectors(b, d, e, c, s, bytes, from)
    requires sector == Padded(bytes, from + 512 * s, 512)
    ensures ClusterLba(b, c, s) < |e| == |d| && Sectors(b, d, e[ClusterLba(b, c, s) := sector], c, s + 1, bytes, from)
  {
    hide Padded, Good, DataStart;
    ClusterInside(b, c, b.perCluster - 1);
    JoinedGrows(e, ClusterLba(b, c, 0), s, sector);
    PaddedJoin(bytes, from, 512 * s, 512);
  }

  lemma SectorsDone(b: Bpb, d: seq<Sector>, e: seq<Sector>, c: nat, bytes: seq<Byte>, from: nat)
    requires Disk(b, d) && Mirrored(b, d) && 2 <= c < Top(b) && Sectors(b, d, e, c, b.perCluster, bytes, from)
    ensures Disk(b, e) && Mirrored(b, e) && |e| == |d|
    ensures VolOf(b, e) == VolOf(b, d).(data := DataOf(b, d)[c := Padded(bytes, from, 512 * b.perCluster)])
  {
    hide Padded, FatOf, RootOf, DataOf, Joined, Mirrored;
    ClusterInside(b, c, b.perCluster - 1);
    ClusterOnly(b, d, e, c);
  }

  lemma SectorIs(bytes: seq<Byte>, at: nat, sector: seq<Byte>)
    requires var n := if at < |bytes| then Min(|bytes| - at, 512) else 0;
      |sector| == 512 && (n > 0 ==> sector == bytes[at..at + n] + Zeros(512)[n..]) && (n == 0 ==> sector == Zeros(512))
    ensures sector == Padded(bytes, at, 512)
  {
  }

  lemma MoreBytes(n: nat, done: nat, size: nat)
    ensures Min(n, Min(n, done * size) + size) == Min(n, (done + 1) * size)
  {
  }

  lemma ChainStep(fat: Table, cs: seq<nat>, top: nat, k: nat)
    requires IsChain(fat, cs, top) && k < |cs|
    ensures 2 <= cs[k] < top && (if k + 1 < |cs| then fat[cs[k]] == cs[k + 1] else fat[cs[k]] >= EOC_MIN)
  {
  }

  lemma FilledNone(data: seq<seq<Byte>>, bytes: seq<Byte>, size: nat)
    ensures Filled(data, [], bytes, size) == data
  {
  }

  lemma SlotAt(b: Bpb, d: seq<Sector>, sector: nat, i: nat)
    requires Disk(b, d) && sector < RootSectors(b) && i < 16
    ensures RootStart(b) + sector < |d| && |d[RootStart(b) + sector]| == 512 && 16 * sector + i < |RootOf(b, d)|
    ensures RootOf(b, d)[16 * sector + i] == EntryOf(d[RootStart(b) + sector], i)
  {
    hide RootStart, RootSectors, EntryOf;
    RootInside(b, d, 16 * sector + i);
    assert (16 * sector + i) / 16 == sector && (16 * sector + i) % 16 == i;
  }

  /** Writing a slot changes that slot only. */
  lemma SlotPut(b: Bpb, d: seq<Sector>, i: nat, e: Entry)
    requires Disk(b, d) && Mirrored(b, d) && i < |RootOf(b, d)| && |e.name| == 11 && |e.times| == 14
    ensures RootStart(b) + i / 16 < |d| && |d[RootStart(b) + i / 16]| == 512
    ensures var lba := RootStart(b) + i / 16; var f := d[lba := PutEntry(d[lba], i % 16, e)];
      Disk(b, f) && Mirrored(b, f) && VolOf(b, f) == VolOf(b, d).(root := RootOf(b, d)[i := e])
  {
    hide RootStart, DataStart, FatStart, RootSectors, EntryOf, PutEntry, FatOf, DataOf, Mirrored, Good;
    RootInside(b, d, i);
    var lba := RootStart(b) + i / 16;
    var f := d[lba := PutEntry(d[lba], i % 16, e)];
    RootOnly(b, d, f);
    forall j | 0 <= j < 16 * RootSectors(b)
      ensures RootOf(b, f)[j] == RootOf(b, d)[i := e][j]
    {
      RootInside(b, d, j);
      EntryPut(d[lba], i % 16, e, j % 16);
    }
  }

  lemma RootLength(b: Bpb, d: seq<Sector>)
    requires Disk(b, d)
    ensures |VolOf(b, d).root| == 16 * RootSectors(b)
  {
  }

  /** The search has passed the first `k` slots and remembers `free`. */
  predicate Scanned(root: seq<Entry>, name: seq<Byte>, files: bool, k: nat, free: Option<nat>)
  {
    && k <= |root| && (free.Some? ==> free.value < k && !Occupied(root[free.value]))
    && Scan(root, name, files, 0, None) == Scan(root, name, files, k, free)
  }

  lemma ScannedStart(root: seq<Entry>, name: seq<Byte>, files: bool)
    ensures Scanned(root, name, files, 0, None)
  {
  }

  lemma ScannedStep(root: seq<Entry>, name: seq<Byte>, files: bool, k: nat, free: Option<nat>)
    requires Scanned(root, name, files, k, free) && k < |root|
    ensures var e := root[k];
      if Mark(e) == END then Scan(root, name, files, 0, None) == New(if free.None? then k else free.value)
      else if Mark(e) == DELETED then Scanned(root, name, files, k + 1, if free.None? then Some(k) else free)
      else if !Has(e.attr, VOLUME_ID) && !(files && Has(e.attr, DIRECTORY)) && e.name == name
        then Scan(root, name, files, 0, None) == Old(k)
      else Scanned(root, name, files, k + 1, free)
  {
  }

  lemma ScannedEnd(root: seq<Entry>, name: seq<Byte>, files: bool, free: Option<nat>)
    requires Scanned(root, name, files, |root|, free)
    ensures Scan(root, name, files, 0, None) == if free.None? then Full else New(free.value)
  {
  }

  lemma SlotSplit(i: nat, sectors: nat)
    requires i < 16 * sectors
    ensures i / 16 < sectors && 16 * (i / 16) + i % 16 == i && ((i + 1) % 16 == 0 <==> i % 16 == 15)
  {
  }

  ghost predicate Linkable(v: Vol)
  {
    Inside(v.fat) && forall i :: 0 <= i < |v.root| && IsLink(v.root[i].first) ==> v.root[i].first < |v.fat|
  }

  /** The volume on a disk has the right sizes. */
  lemma ViewSized(b: Bpb, d: seq<Sector>)
    requires Disk(b, d) && Linkable(VolOf(b, d))
    ensures Sized(VolOf(b, d), GeoOf(b))
  {
    hide FatWord, Inside;
    NamesLong(b, d);
    forall c | 2 <= c < Top(b)
      ensures |DataOf(b, d)[c]| == 512 * b.perCluster
    {
      ClusterInside(b, c, b.perCluster - 1);
      JoinedLength(d, ClusterLba(b, c, 0), b.perCluster);
    }
  }

  lemma NamesLong(b: Bpb, d: seq<Sector>)
    requires Disk(b, d)
    ensures forall i :: 0 <= i < |VolOf(b, d).root| ==>
      |VolOf(b, d).root[i].name| == 11 && |VolOf(b, d).root[i].times| == 14
  {
    hide Good, RootSectors, RootStart, FatOf, DataOf;
    forall i | 0 <= i < |RootOf(b, d)|
      ensures |RootOf(b, d)[i].name| == 11 && |RootOf(b, d)[i].times| == 14
    {
      RootInside(b, d, i);
    }
  }

  /** The number of clusters asked for is the number chosen, if there are enough. */
  lemma NeededIs(v: Vol, g: Geo, n: nat)
    requires Sized(v, g)
    ensures var needed := Clusters(n, g.size); var free := FreeList(v.fat, 2, g.top);
      && Fits(v.fat, g, n) == (needed <= |free|)
      && Chosen(v.fat, g, n) == (if Fits(v.fat, g, n) then free[..needed] else free)
      && n <= needed * g.size
  {
    hide FreeList, Clusters;
    ClustersHold(n, g.size);
    var free := FreeList(v.fat, 2, g.top);
    assert free[..|free|] == free;
  }

  lemma NoClusters(size: nat)
    requires size > 0
    ensures Clusters(0, size) == 0
  {
  }

  /** The chosen clusters, once linked, are a chain. */
  lemma ChosenLinked(v: Vol, g: Geo, n: nat)
    requires Sized(v, g) && Fits(v.fat, g, n)
    ensures var cs := Chosen(v.fat, g, n);
      && |cs| == Clusters(n, g.size) && Distinct(cs) && (forall i :: 0 <= i < |cs| ==> 2 <= cs[i] < g.top)
      && IsChain(Linked(v.fat, cs), cs, g.top) && Inside(Linked(v.fat, cs))
  {
    hide Chosen, Linked, Fits, Clusters;
    ChosenFree(v.fat, g, n);
    ChosenCount(v.fat, g, n);
    var cs := Chosen(v.fat, g, n);
    LinkedInside(v.fat, cs);
    if cs != [] { LinkedFreed(v.fat, cs, g.top); }
  }

  /** The outcomes of a write, case by case. */
  lemma WriteCases(v: Vol, g: Geo, name: seq<Byte>, bytes: seq<Byte>)
    requires Sized(v, g) && |name| == 11 && |bytes| < 0x8000_0000
    ensures var cs := Chosen(v.fat, g, |bytes|);
      && Distinct(cs) && (forall i :: 0 <= i < |cs| ==> 2 <= cs[i] < g.top) && Inside(Linked(v.fat, cs))
      && Linkable(FatFiles.WriteFile(v, g, name, bytes).0)
      && FatFiles.WriteFile(v, g, name, bytes) ==
           if !Fits(v.fat, g, |bytes|) then (v.(fat := Undone(v.fat, g, cs)), false)
           else match Scan(v.root, name, true, 0, None)
             case Full => (Vol(Undone(v.fat, g, cs), v.root, Filled(v.data, cs, bytes, g.size)), false)
             case Old(i) =>
               (Vol(Released(Linked(v.fat, cs), v.root[i].first),
                    v.root[i := v.root[i].(first := FirstOf(cs), size := |bytes|, attr := ARCHIVE)],
                    Filled(v.data, cs, bytes, g.size)), true)
             case New(i) =>
               (Vol(Linked(v.fat, cs), Created(v.root, i, Blank(name, ARCHIVE, FirstOf(cs), |bytes|)),
                    Filled(v.data, cs, bytes, g.size)), true)
  {
    hide Chosen, Linked, Fits, Undone, Filled, Released, Created, Scan;
    ChosenFree(v.fat, g, |bytes|);
    var cs := Chosen(v.fat, g, |bytes|);
    LinkedInside(v.fat, cs);
    UndoneSame(v.fat, g, |bytes|);
    var p := Scan(v.root, name, true, 0, None);
    if p.New? { CreatedSlots(v.root, p.at, Blank(name, ARCHIVE, FirstOf(cs), |bytes|)); }
  }

  /** After the data is written links still lead inside the table. */
  lemma LinkableOut(v: Vol, g: Geo, w: Vol)
    requires Sized(v, g) && w.root == v.root && |w.fat| == |v.fat| && Inside(w.fat)
    ensures Linkable(w)
  {
  }

  lemma ViewTop(b: Bpb, d: seq<Sector>)
    requires Disk(b, d)
    ensures 2 <= Top(b) <= BAD && Top(b) <= |VolOf(b, d).fat| == 256 * b.perFat
  {
  }

  lemma SizedParts(v: Vol, g: Geo)
    requires Sized(v, g)
    ensures g.size > 0 && 2 <= g.top <= |v.fat| && g.top <= BAD && |v.data| == g.top && Inside(v.fat)
  {
  }

  lemma UndoneIs(fat: Table, g: Geo, cs: seq<nat>)
    requires Inside(fat) && g.top <= |fat| && g.top <= BAD && Distinct(cs)
    requires forall i :: 0 <= i < |cs| ==> 2 <= cs[i] < g.top
    ensures Inside(Linked(fat, cs)) && (cs != [] ==> IsLink(FirstOf(cs)) && FirstOf(cs) < |fat|)
    ensures Undone(fat, g, cs) == if FirstOf(cs) == 0 then Linked(fat, cs) else Freed(Linked(fat, cs), FirstOf(cs))
  {
    LinkedInside(fat, cs);
  }

  lemma ReleasedIs(fat: Table, first: Half)
    requires Inside(fat) && (IsLink(first) ==> first < |fat|)
    ensures Released(fat, first) == if first >= 2 then Freed(fat, first) else fat
  {
  }

  lemma FirstFreeIs(fat: Table, top: nat)
    requires 2 <= top <= |fat|
    ensures FreeList(fat, 2, top) == [] <==> FirstFree(fat, top) == 0
    ensures FreeList(fat, 2, top) != [] ==>
      FirstFree(fat, top) == FreeList(fat, 2, top)[0] && 2 <= FirstFree(fat, top) < top
  {
  }

  lemma DotsPadded(c: Half, size: nat)
    requires size >= 64
    ensures Padded(Dot([0x2E, 0x20], c) + Dot([0x2E, 0x2E], 0), 0, size) == DirBytes(c, size)
  {
    hide Dot;
    var dots := Dot([0x2E, 0x20], c) + Dot([0x2E, 0x2E], 0);
    assert Padded(dots, 0, size) == dots + Zeros(size - 64);
  }

  lemma FindStep(root: seq<Entry>, name: seq<Byte>, k: nat)
    requires k < |root|
    ensures Find(root, name, k) ==
      if Mark(root[k]) == END then None
      else if Mark(root[k]) != DELETED && IsFile(root[k]) && root[k].name == name then Some(k)
      else Find(root, name, k + 1)
  {
  }

  lemma FindEnd(root: seq<Entry>, name: seq<Byte>)
    ensures Find(root, name, |root|) == None
  {
  }

  // ----- reading -----

  /** The open file `f` stands for the chain `cs`. */
  ghost predicate Backs(v: Vol, g: Geo, f: File, cs: seq<nat>)
  {
    && g.size > 0 && |v.data| == g.top && (forall c :: 2 <= c < g.top ==> |v.data[c]| == g.size)
    && IsChain(v.fat, cs, g.top) && (cs != [] ==> f.first == cs[0]) && f.pos <= f.size <= |cs| * g.size
  }

  /** How much a read asks for once it is cut to the file; the sum is taken in 32 bits. */
  function Wanted(f: File, count: Word): nat
    requires f.pos <= f.size
  {
    if (f.pos + count) % 0x1_0000_0000 > f.size then f.size - f.pos else count
  }

  /** `n` bytes from `pos` on, as far as there are any. */
  function Piece(all: seq<Byte>, pos: nat, n: nat): seq<Byte>
    requires pos <= |all|
  {
    all[pos..Min(pos + n, |all|)]
  }

  lemma NoBytes(all: seq<Byte>, pos: nat)
    requires pos <= |all|
    ensures Piece(all, pos, 0) == []
  {
  }

  lemma BacksSpan(v: Vol, g: Geo, f: File, cs: seq<nat>)
    requires Backs(v, g, f, cs)
    ensures (forall k :: 0 <= k < |cs| ==> 2 <= cs[k] < g.top && cs[k] < |v.data| && |v.data[cs[k]]| == g.size)
    ensures |Content(v.data, cs)| == |cs| * g.size && f.pos <= f.size <= |Content(v.data, cs)|
  {
    ContentLength(v.data, cs, g.size);
  }

  /** The bytes of cluster k stand at k cluster sizes. */
  lemma ContentSpan(v: Vol, g: Geo, cs: seq<nat>, k: nat, off: nat, n: nat)
    requires (forall i :: 0 <= i < |cs| ==> cs[i] < |v.data| && |v.data[cs[i]]| == g.size) && k < |cs|
    requires off + n <= g.size
    ensures k * g.size + off + n <= |Content(v.data, cs)|
    ensures Content(v.data, cs)[k * g.size + off..k * g.size + off + n] == v.data[cs[k]][off..off + n]
  {
    hide Content;
    ContentAt(v.data, cs, k);
    ContentLength(v.data, cs[..k], g.size);
    Middle(Content(v.data, cs[..k]), v.data[cs[k]], Content(v.data, cs[k + 1..]), off, n);
  }

  lemma Middle(a: seq<Byte>, b: seq<Byte>, c: seq<Byte>, off: nat, n: nat)
    requires off + n <= |b|
    ensures (a + b + c)[|a| + off..|a| + off + n] == b[off..off + n]
  {
  }

  /** The bytes of a cluster stand in its sectors. */
  lemma SectorSpan(b: Bpb, d: seq<Sector>, c: nat, off: nat, n: nat)
    requires Disk(b, d) && 2 <= c < Top(b) && off < 512 * b.perCluster && off % 512 + n <= 512
    ensures off / 512 < b.perCluster && ClusterLba(b, c, off / 512) < |d|
    ensures off + n <= |DataOf(b, d)[c]| == 512 * b.perCluster
    ensures |d[ClusterLba(b, c, off / 512)]| == 512
    ensures DataOf(b, d)[c][off..off + n] == d[ClusterLba(b, c, off / 512)][off % 512..off % 512 + n]
  {
    hide Good, DataStart;
    var s := off / 512;
    assert off == 512 * s + off % 512 && s < b.perCluster;
    ClusterInside(b, c, b.perCluster - 1);
    JoinedAt(d, ClusterLba(b, c, 0), b.perCluster, s);
    var all := DataOf(b, d)[c];
    assert all[off..off + n] == all[512 * s..512 * s + 512][off % 512..off % 512 + n];
  }

  lemma OffsetIs(k: nat, size: nat, off: nat)
    requires off < size
    ensures (k * size + off) % size == off
  {
    var p := k * size + off;
    assert p == size * (p / size) + p % size;
    if p / size < k { MulBelow(p / size, k, size, p % size); }
    if p / size > k { MulBelow(k, p / size, size, off); }
  }

  lemma NextStart(k: nat, n: nat, size: nat)
    ensures (k + 1) * size == k * size + size && (k + 1 == n ==> n * size == k * size + size)
  {
  }

  lemma Extended(all: seq<Byte>, pos: nat, n: nat, m: nat)
    requires pos + n + m <= |all|
    ensures all[pos..pos + n] + all[pos + n..pos + n + m] == all[pos..pos + (n + m)]
  {
  }

  /** A stretch of cluster k, and what its link says. */
  lemma SpanAt(v: Vol, g: Geo, cs: seq<nat>, k: nat, off: nat, n: nat)
    requires IsChain(v.fat, cs, g.top) && k < |cs| && off + n <= g.size
    requires forall i :: 0 <= i < |cs| ==> cs[i] < |v.data| && |v.data[cs[i]]| == g.size
    ensures 2 <= cs[k] < g.top <= |v.fat|
    ensures var all := Content(v.data, cs); var p := k * g.size + off;
      && p + n <= |all| && all[p..p + n] == v.data[cs[k]][off..off + n]
      && (if k + 1 < |cs| then v.fat[cs[k]] == cs[k + 1] < EOC_MIN
          else v.fat[cs[k]] >= EOC_MIN && k * g.size + g.size == |all|)
      && (k + 1) * g.size == k * g.size + g.size
  {
    hide Content;
    ChainStep(v.fat, cs, g.top, k);
    ContentSpan(v, g, cs, k, off, n);
    ContentLength(v.data, cs, g.size);
    NextStart(k, |cs|, g.size);
  }

  class Driver {
    const b: Bpb
    var disk: seq<Sector>
    var files: seq<File>

    ghost predicate Ready()
      reads this
    {
      Disk(b, disk) && Mirrored(b, disk)
    }

    ghost function View(): Vol
      requires Ready()
      reads this
    {
      VolOf(b, disk)
    }

    method ReadEntry(c: Half) returns (v: Half)
      requires Ready() && c < 256 * b.perFat
      ensures v == if c < 2 then 0 else View().fat[c]
    {
      if c < 2 { return 0; }
      FatInside(b, disk, 0, c);
      var offset := 2 * c;
      assert offset / 512 == c / 256 && offset % 512 == 2 * (c % 256);
      v := GetHalf(disk[FatStart(b) + offset / 512], offset % 512);
    }

    method WriteEntry(c: Half, v: Half) returns (rc: int)
      requires Ready() && c < 256 * b.perFat
      modifies this`disk
      ensures Ready() && |disk| == old(|disk|) && rc == if c < 2 then -1 else 0
      ensures View() == if c < 2 then old(View()) else old(View()).(fat := old(View()).fat[c := v])
    {
      if c < 2 { return -1; }
      ghost var d := disk;
      var offset := 2 * c;
      assert offset / 512 == c / 256 && offset % 512 == 2 * (c % 256);
      var k := 0;
      while k < b.fats
        invariant 0 <= k <= b.fats && Partly(b, d, disk, k, c, v)
      {
        PartlyStep(b, d, disk, k, c, v);
        var l := FatStart(b) + k * b.perFat + offset / 512;
        disk := disk[l := PutHalf(disk[l], offset % 512, v)];
        k := k + 1;
      }
      PartlyDone(b, d, disk, c, v);
      rc := 0;
    }

    method AllocCluster() returns (c: Half)
      requires Ready()
      modifies this`disk
      ensures Ready() && |disk| == old(|disk|)
      ensures c == FirstFree(old(View()).fat, Top(b))
      ensures View() == if c == 0 then old(View()) else old(View()).(fat := old(View()).fat[c := EOC_MAX])
    {
      hide FreeList, VolOf, Mirrored, Before;
      ViewTop(b, disk);
      ghost var fat := View().fat;
      var total := (b.total - Before(b)) / b.perCluster;
      var top := total + 2;
      c := 2;
      while c < top
        invariant 2 <= c <= top && disk == old(disk) && FreeList(fat, 2, top) == FreeList(fat, c, top)
      {
        var entry := ReadEntry(c);
        FreeListStep(fat, c, top);
        if entry == FREE {
          var _ := WriteEntry(c, EOC_MAX);
          return;
        }
        c := c + 1;
      }
      FreeListEnd(fat, top);
      c := 0;
    }

    method FreeChain(c: Half)
      requires Ready() && Inside(View().fat) && (IsLink(c) ==> c < |View().fat|)
      modifies this`disk
      ensures Ready() && |disk| == old(|disk|) && View() == old(View()).(fat := Freed(old(View()).fat, c))
    {
      var cluster: Half := c;
      while cluster >= 2 && cluster < EOC_MIN && cluster != BAD
        invariant Ready() && |disk| == old(|disk|) && Inside(View().fat) && (IsLink(cluster) ==> cluster < |View().fat|)
        invariant View() == old(View()).(fat := View().fat) && Freed(View().fat, cluster) == Freed(old(View()).fat, c)
        decreases NonZero(View().fat), if IsLink(cluster) then 1 else 0
      {
        ghost var fat := View().fat;
        var next := ReadEntry(cluster);
        var _ := WriteEntry(cluster, FREE);
        if fat[cluster] == 0 { assert fat[cluster := 0] == fat; } else { NonZeroDrops(fat, cluster); }
        cluster := next;
      }
    }

    /** Allocates and links `n` clusters, or none if there are not enough. */
    method AllocChain(n: nat) returns (ok: bool, first: Half)
      requires Ready() && Inside(View().fat)
      modifies this`disk
      ensures Ready() && |disk| == old(|disk|) && View() == old(View()).(fat := View().fat)
      ensures var fat := old(View()).fat; var free := FreeList(fat, 2, Top(b));
        && ok == (n <= |free|) && first == (if ok then FirstOf(free[..n]) else 0)
        && View().fat == if ok then Linked(fat, free[..n]) else Undone(fat, GeoOf(b), free)
    {
      hide FreeList, Taken, Freed, Linked, FatOf, RootOf, DataOf, Undone;
      ghost var fat := View().fat;
      TakenStart(fat, Top(b));
      first := 0;
      var prev: Half := 0;
      var i := 0;
      while i < n
        invariant 0 <= i <= n && Ready() && |disk| == old(|disk|)
        invariant View() == old(View()).(fat := View().fat) && Taken(fat, Top(b), i, View().fat)
        invariant if i == 0 then first == 0 else first == Nth(fat, Top(b), 0) != 0 && prev == Nth(fat, Top(b), i - 1)
      {
        TakenStep(fat, Top(b), i, View().fat);
        var c := AllocCluster();
        if c == 0 {
          TakenNone(fat, GeoOf(b), i, View().fat);
          if first != 0 { FreeChain(first); }
          return false, 0;
        }
        if i == 0 {
          first := c;
        } else {
          var _ := WriteEntry(prev, c);
        }
        prev := c;
        i := i + 1;
      }
      TakenAll(fat, Top(b), n, View().fat);
      if n > 0 { var _ := WriteEntry(prev, EOC_MAX); }
      ok := true;
    }

    /** Writes the sectors of cluster c from `bytes` at offset `from`, zero past their end. */
    method WriteCluster(c: Half, bytes: seq<Byte>, from: nat) returns (written: nat)
      requires Ready() && 2 <= c < Top(b) && from <= |bytes|
      modifies this`disk
      ensures Ready() && |disk| == old(|disk|) && written == Min(|bytes|, from + 512 * b.perCluster)
      ensures View() == old(View()).(data := old(View()).data[c := Padded(bytes, from, 512 * b.perCluster)])
    {
      hide Sectors, Padded, Zeros, ClusterLba, DataStart, Good;
      ghost var d := disk;
      SectorsStart(b, d, c, bytes, from);
      written := from;
      var s := 0;
      while s < b.perCluster
        invariant 0 <= s <= b.perCluster && |disk| == |d| && Sectors(b, d, disk, c, s, bytes, from)
        invariant written == Min(|bytes|, from + 512 * s)
      {
        var sector := Zeros(512);
        if written < |bytes| {
          var n := Min(|bytes| - written, 512);
          sector := bytes[written..written + n] + sector[n..];
          written := written + n;
        }
        SectorIs(bytes, from + 512 * s, sector);
        SectorsStep(b, d, disk, c, s, bytes, from, sector);
        disk := disk[ClusterLba(b, c, s) := sector];
        s := s + 1;
      }
      SectorsDone(b, d, disk, c, bytes, from);
    }

    /** Writes `bytes` to the `n` clusters of the chain that starts at `first`. */
    method WriteData(first: Half, n: nat, bytes: seq<Byte>, ghost cs: seq<nat>) returns (written: nat)
      requires Ready() && IsChain(View().fat, cs, Top(b)) && |cs| == n && first == FirstOf(cs)
      requires |bytes| <= n * (512 * b.perCluster)
      modifies this`disk
      ensures Ready() && |disk| == old(|disk|) && written == |bytes|
      ensures View() == old(View()).(data := Filled(old(View()).data, cs, bytes, 512 * b.perCluster))
    {
      hide FatOf, RootOf, DataOf, Padded, Filled, Inside;
      ghost var size := 512 * b.perCluster;
      var cur: Half := first;
      var done := 0;
      written := 0;
      assert cs[0..] == cs && bytes[0..] == bytes;
      while done < n && cur >= 2 && cur < EOC_MIN
        invariant 0 <= done <= n && Ready() && |disk| == old(|disk|) && (done < n ==> cur == cs[done])
        invariant View() == old(View()).(data := View().data) && written == Min(|bytes|, done * size)
        invariant Filled(View().data, cs[done..], bytes[written..], size) == Filled(old(View()).data, cs, bytes, size)
      {
        FilledStep(View().data, cs, done, bytes, written, size);
        MoreBytes(|bytes|, done, size);
        written := WriteCluster(cur, bytes, written);
        done := done + 1;
        ChainStep(View().fat, cs, Top(b), done - 1);
        cur := ReadEntry(cur);
      }
      FilledNone(View().data, bytes[written..], size);
      assert cs[n..] == [];
    }

    /** The slot `i` of sector `sector` of the root directory. */
    method ReadSlot(sector: nat, i: nat) returns (e: Entry)
      requires Ready() && sector < RootSectors(b) && i < 16
      ensures 16 * sector + i < |View().root| && e == View().root[16 * sector + i]
      ensures |e.name| == 11 && |e.times| == 14
    {
      SlotAt(b, disk, sector, i);
      e := EntryOf(disk[RootStart(b) + sector], i);
    }

    method WriteSlot(i: nat, e: Entry)
      requires Ready() && i < |View().root| && |e.name| == 11 && |e.times| == 14
      modifies this`disk
      ensures Ready() && |disk| == old(|disk|) && View() == old(View()).(root := old(View()).root[i := e])
    {
      SlotPut(b, disk, i, e);
      var lba := RootStart(b) + i / 16;
      disk := disk[lba := PutEntry(disk[lba], i % 16, e)];
    }

    /** The slot for `name`: an old one, the first free one, or none. */
    method Search(name: seq<Byte>, files: bool) returns (r: Place)
      requires Ready()
      ensures r == Scan(View().root, name, files, 0, None)
    {
      hide Scanned, Scan, Mirrored, VolOf, RootSectors;
      ghost var root := View().root;
      var free: Option<nat> := None;
      ScannedStart(root, name, files);
      RootLength(b, disk);
      var sector := 0;
      while sector < RootSectors(b)
        invariant sector <= RootSectors(b) && Scanned(root, name, files, 16 * sector, free)
      {
        var i := 0;
        while i < 16
          invariant i <= 16 && Scanned(root, name, files, 16 * sector + i, free)
        {
          var e := ReadSlot(sector, i);
          ScannedStep(root, name, files, 16 * sector + i, free);
          if Mark(e) == END {
            return New(if free.None? then 16 * sector + i else free.value);
          } else if Mark(e) == DELETED {
            if free.None? { free := Some(16 * sector + i); }
          } else if !Has(e.attr, VOLUME_ID) && !(files && Has(e.attr, DIRECTORY)) && e.name == name {
            return Old(16 * sector + i);
          }
          i := i + 1;
        }
        sector := sector + 1;
      }
      ScannedEnd(root, name, files, free);
      r := if free.None? then Full else New(free.value);
    }

    /** The slot of the file `name`, if there is one before the end marker. */
    method Lookup(name: seq<Byte>) returns (r: Option<nat>)
      requires Ready()
      ensures r == Find(View().root, name, 0)
    {
      hide Find, Mirrored, VolOf, RootSectors, Mark;
      ghost var root := View().root;
      RootLength(b, disk);
      var sector := 0;
      while sector < RootSectors(b)
        invariant sector <= RootSectors(b) && Find(root, name, 0) == Find(root, name, 16 * sector)
      {
        var i := 0;
        while i < 16
          invariant i <= 16 && Find(root, name, 0) == Find(root, name, 16 * sector + i)
        {
          var e := ReadSlot(sector, i);
          FindStep(root, name, 16 * sector + i);
          if Mark(e) == END { return None; }
          if Mark(e) != DELETED && IsFile(e) && e.name == name { return Some(16 * sector + i); }
          i := i + 1;
        }
        sector := sector + 1;
      }
      FindEnd(root, name);
      r := None;
    }

    /** Every link leads inside the table. */
    ghost predicate Sound()
      reads this
    {
      Ready() && Linkable(View())
    }

    method Name83(filename: seq<Byte>) returns (name: seq<Byte>)
      ensures name == To83(filename)
    {
      var buffer := new Byte[11];
      Convert(filename, buffer);
      name := buffer[..];
    }

    /** Replaces the entry of an old slot. */
    method Replace(i: nat, first: Half, size: Word)
      requires Sound() && i < |View().root| && (IsLink(first) ==> first < |View().fat|)
      modifies this`disk
      ensures Ready() && |disk| == old(|disk|)
      ensures var v := old(View());
        View()
          == v.(fat := Released(v.fat, v.root[i].first),
                root := v.root[i := v.root[i].(first := first, size := size, attr := ARCHIVE)])
    {
      var e := ReadSlot(i / 16, i % 16);
      if e.first >= 2 { FreeChain(e.first); }
      WriteSlot(i, e.(first := first, size := size, attr := ARCHIVE));
    }

    /** Fills a free slot; a free slot right after it in the same sector becomes the end marker. */
    method Create(i: nat, e: Entry)
      requires Ready() && i < |View().root| && |e.name| == 11 && |e.times| == 14
      modifies this`disk
      ensures Ready() && |disk| == old(|disk|) && View() == old(View()).(root := Created(old(View()).root, i, e))
    {
      hide VolOf, Mirrored, Good, Mark, RootSectors;
      NamesLong(b, disk);
      RootLength(b, disk);
      SlotSplit(i, RootSectors(b));
      WriteSlot(i, e);
      if Mark(e) != DELETED && i % 16 + 1 < 16 {
        var next := ReadSlot(i / 16, i % 16 + 1);
        if !Occupied(next) { WriteSlot(i + 1, next.(name := next.name[0 := END])); }
      }
    }

    method Needed(n: nat) returns (clusters: nat)
      requires b.perCluster > 0
      ensures clusters == Clusters(n, 512 * b.perCluster)
    {
      NoClusters(512 * b.perCluster);
      var size := 512 * b.perCluster;
      clusters := if n > 0 then (n + size - 1) / size else 0;
    }

    /** Puts `bytes` into newly allocated clusters, if there are enough. */
    method Store(bytes: seq<Byte>) returns (ok: bool, first: Half)
      requires Ready() && Inside(View().fat) && Sized(View(), GeoOf(b))
      modifies this`disk
      ensures Ready() && |disk| == old(|disk|) && Inside(View().fat) && ok == Fits(old(View()).fat, GeoOf(b), |bytes|)
      ensures var v, g := old(View()), GeoOf(b); var cs := Chosen(v.fat, g, |bytes|);
        && Distinct(cs) && (forall i :: 0 <= i < |cs| ==> 2 <= cs[i] < g.top) && (ok ==> first == FirstOf(cs))
        && View() == if ok then v.(fat := Linked(v.fat, cs), data := Filled(v.data, cs, bytes, g.size))
                     else v.(fat := Undone(v.fat, g, cs))
    {
      hide VolOf, Mirrored, Linked, Undone, Filled, FreeList, Before, Chosen, Fits, Clusters, Sized;
      ghost var v, g := View(), GeoOf(b);
      SizedParts(v, g);
      var needed := Needed(|bytes|);
      NeededIs(v, g, |bytes|);
      ChosenFree(v.fat, g, |bytes|);
      UndoneSame(v.fat, g, |bytes|);
      ok, first := AllocChain(needed);
      if ok {
        ChosenLinked(v, g, |bytes|);
        var _ := WriteData(first, needed, bytes, Chosen(v.fat, g, |bytes|));
      }
    }

    /** Enters the chain that starts at `first` into the directory; gives it back if there is no slot. */
    method Enter(name: seq<Byte>, first: Half, size: Word) returns (ok: bool)
      requires Sound() && |name| == 11 && (first != 0 ==> IsLink(first) && first < |View().fat|)
      modifies this`disk
      ensures Ready() && |disk| == old(|disk|)
      ensures var v := old(View()); var p := Scan(v.root, name, true, 0, None);
        && ok == !p.Full? && (forall i :: 0 <= i < |v.root| ==> |v.root[i].name| == 11)
        && View() == match p
             case Full => v.(fat := if first == 0 then v.fat else Freed(v.fat, first))
             case Old(i) => v.(fat := Released(v.fat, v.root[i].first),
                               root := v.root[i := v.root[i].(first := first, size := size, attr := ARCHIVE)])
             case New(i) => v.(root := Created(v.root, i, Blank(name, ARCHIVE, first, size)))
    {
      hide VolOf, Mirrored, Freed, Released, Created, Scan, Good;
      NamesLong(b, disk);
      var place := Search(name, true);
      match place
      case Full =>
        if first != 0 { FreeChain(first); }
        ok := false;
      case Old(i) =>
        Replace(i, first, size);
        ok := true;
      case New(i) =>
        Create(i, Blank(name, ARCHIVE, first, size));
        ok := true;
    }

    /** Creates or overwrites a file of the root directory; returns the size, or -1 if it does not fit. */
    method WriteFile(filename: seq<Byte>, bytes: seq<Byte>) returns (rc: int)
      requires Sound() && RootName(filename) && |bytes| < 0x8000_0000
      modifies this`disk
      ensures Sound() && |disk| == old(|disk|) && Sized(old(View()), GeoOf(b))
      ensures var (w, ok) := FatFiles.WriteFile(old(View()), GeoOf(b), To83(filename), bytes);
        View() == w && rc == if ok then |bytes| else -1
    {
      hide VolOf, Mirrored, Good, FatFiles.WriteFile, Scan, Linked, Freed, Undone, Filled, Created, Released,
           Linkable, Chosen, Fits, Sized;
      ghost var v, g := View(), GeoOf(b);
      ViewSized(b, disk);
      SizedParts(v, g);
      var name := Name83(filename);
      WriteCases(v, g, name, bytes);
      var ok, first := Store(bytes);
      if !ok { return -1; }
      LinkableOut(v, g, View());
      UndoneIs(v.fat, g, Chosen(v.fat, g, |bytes|));
      ok := Enter(name, first, |bytes|);
      rc := if ok then |bytes| else -1;
    }

    /** Deletes a file of the root directory. */
    method DeleteFile(filename: seq<Byte>) returns (rc: int)
      requires Sound() && RootName(filename)
      modifies this`disk
      ensures Sound() && |disk| == old(|disk|) && Sized(old(View()), GeoOf(b))
      ensures var (w, ok) := FatFiles.DeleteFile(old(View()), GeoOf(b), To83(filename));
        View() == w && rc == if ok then 0 else -1
    {
      hide VolOf, Mirrored, Freed, Released, Find, Good, RootSectors, Mark;
      ghost var v := View();
      ViewSized(b, disk);
      NamesLong(b, disk);
      RootLength(b, disk);
      var name := Name83(filename);
      var found := Lookup(name);
      if found.None? { return -1; }
      var i := found.value;
      SlotSplit(i, RootSectors(b));
      var e := ReadSlot(i / 16, i % 16);
      ReleasedIs(v.fat, e.first);
      if e.first >= 2 { FreeChain(e.first); }
      WriteSlot(i, e.(name := e.name[0 := DELETED]));
      rc := 0;
    }

    /** Creates a directory of one cluster in the root directory. */
    method Mkdir(dirname: seq<Byte>) returns (rc: int)
      requires Sound()
      modifies this`disk
      ensures Sound() && |disk| == old(|disk|) && Sized(old(View()), GeoOf(b)) && GeoOf(b).size >= 64
      ensures dirname == [] ==> View() == old(View()) && rc == -1
      ensures dirname != [] ==> var (w, ok) := FatFiles.Mkdir(old(View()), GeoOf(b), To83(dirname));
                                View() == w && rc == if ok then 0 else -1
    {
      hide VolOf, Mirrored, Scan, FreeList, Padded;
      ghost var v, g := View(), GeoOf(b);
      ViewSized(b, disk);
      SizedParts(v, g);
      if dirname == [] { return -1; }
      var name := Name83(dirname);
      var place := Search(name, false);
      if !place.New? { return -1; }
      var cluster := AllocCluster();
      if cluster == 0 { return -1; }
      FirstFreeIs(v.fat, g.top);
      DotsPadded(cluster, g.size);
      var _ := WriteCluster(cluster, Dot([0x2E, 0x20], cluster) + Dot([0x2E, 0x2E], 0), 0);
      WriteSlot(place.at, Blank(name, DIRECTORY, cluster, 0));
      rc := 0;
    }

    /** Opens a file of the root directory in the first free descriptor. */
    method Open(filename: seq<Byte>) returns (h: Option<nat>)
      requires Ready() && RootName(filename) && |files| == MAX_FILES
      modifies this`files
      ensures |files| == MAX_FILES
      ensures h.Some? <==>
        Find(View().root, To83(filename), 0).Some? && exists k :: 0 <= k < MAX_FILES && !old(files)[k].isOpen
      ensures h.None? ==> files == old(files)
      ensures h.Some? ==> h.value < MAX_FILES && !old(files)[h.value].isOpen
      ensures h.Some? ==> forall k :: 0 <= k < h.value ==> old(files)[k].isOpen
      ensures h.Some? ==> var e := View().root[Find(View().root, To83(filename), 0).value];
                          files == old(files)[h.value := File(e.first, e.size, 0, true)]
    {
      hide VolOf, Mirrored, Find, RootSectors;
      RootLength(b, disk);
      var name := Name83(filename);
      var found := Lookup(name);
      if found.None? { return None; }
      SlotSplit(found.value, RootSectors(b));
      var e := ReadSlot(found.value / 16, found.value % 16);
      var j := 0;
      while j < MAX_FILES
        invariant 0 <= j <= MAX_FILES && files == old(files) && forall k :: 0 <= k < j ==> files[k].isOpen
      {
        if !files[j].isOpen {
          files := files[j := File(e.first, e.size, 0, true)];
          return Some(j);
        }
        j := j + 1;
      }
      h := None;
    }

    method Close(h: nat)
      requires h < |files|
      modifies this`files
      ensures files == old(files)[h := old(files)[h].(isOpen := false)]
    {
      files := files[h := files[h].(isOpen := false)];
    }

    /** Follows the chain to the cluster that holds position `pos`; `past` if the chain ends there. */
    method SkipTo(first: Half, pos: nat, ghost cs: seq<nat>) returns (cur: Half, past: bool, ghost k: nat)
      requires Ready() && IsChain(View().fat, cs, Top(b)) && cs != [] && first == cs[0] && b.perCluster > 0
      requires pos <= |cs| * (512 * b.perCluster)
      ensures past ==> pos == |cs| * (512 * b.perCluster)
      ensures !past ==> k < |cs| && cur == cs[k]
      ensures !past ==> k * (512 * b.perCluster) <= pos < k * (512 * b.perCluster) + 512 * b.perCluster
    {
      hide VolOf, Mirrored, Good;
      ViewTop(b, disk);
      var size := 512 * b.perCluster;
      cur, past, k := first, false, 0;
      var skip := pos;
      while skip >= size
        invariant 0 <= skip <= pos && k < |cs| && cur == cs[k] && skip == pos - k * size
      {
        ChainStep(View().fat, cs, Top(b), k);
        var next := ReadEntry(cur);
        NextStart(k, |cs|, size);
        if next >= EOC_MIN { return cur, true, k; }
        cur, k := next, k + 1;
        skip := skip - size;
      }
    }

    /** Copies up to `n` bytes from position `pos`, which lies in cluster k of the chain. */
    method CopyFrom(start: Half, pos: nat, n: nat, ghost cs: seq<nat>, ghost at: nat) returns (data: seq<Byte>)
      requires Ready() && IsChain(View().fat, cs, Top(b)) && at < |cs| && start == cs[at]
      requires forall k :: 0 <= k < |cs| ==> cs[k] < |View().data| && |View().data[cs[k]]| == 512 * b.perCluster
      requires at * (512 * b.perCluster) <= pos < at * (512 * b.perCluster) + 512 * b.perCluster
      ensures pos <= |Content(View().data, cs)| && data == Piece(Content(View().data, cs), pos, n)
    {
      hide VolOf, Mirrored, Good, Content, IsChain;
      ViewTop(b, disk);
      var size := 512 * b.perCluster;
      ghost var all := Content(View().data, cs);
      ghost var k, base: nat := at, at * size;
      ContentSpan(View(), GeoOf(b), cs, k, pos - base, 0);
      var cur: Half := start;
      data := [];
      while |data| < n
        invariant |data| <= n && pos + |data| <= |all| && data == all[pos..pos + |data|] && base == k * size
        invariant |data| < n ==> k < |cs| && cur == cs[k] && base <= pos + |data| < base + size
        decreases n - |data|
      {
        var offset := Offset(pos + |data|, k);
        var m := Min(512 - offset % 512, n - |data|);
        SpanAt(View(), GeoOf(b), cs, k, offset, m);
        var part := ReadSector(cur, offset, m);
        Extended(all, pos, |data|, m);
        data := data + part;
        if offset + m >= size && |data| < n {
          cur := ReadEntry(cur);
          if cur >= EOC_MIN { break; }
          k, base := k + 1, base + size;
        }
      }
    }

    /** Part of one sector of cluster c. */
    method ReadSector(c: Half, offset: nat, n: nat) returns (part: seq<Byte>)
      requires Ready() && 2 <= c < Top(b) && offset < 512 * b.perCluster && offset % 512 + n <= 512
      ensures offset + n <= |View().data[c]| && part == View().data[c][offset..offset + n]
    {
      hide FatOf, RootOf, DataOf, Mirrored, Good, DataStart;
      SectorSpan(b, disk, c, offset, n);
      part := disk[ClusterLba(b, c, offset / 512)][offset % 512..offset % 512 + n];
    }

    /** Where a position of cluster k lies in the cluster. */
    method Offset(p: nat, ghost k: nat) returns (offset: nat)
      requires k * (512 * b.perCluster) <= p < k * (512 * b.perCluster) + 512 * b.perCluster
      ensures offset == p - k * (512 * b.perCluster)
    {
      OffsetIs(k, 512 * b.perCluster, p - k * (512 * b.perCluster));
      offset := p % (512 * b.perCluster);
    }

    /** Reads up to `count` bytes at the position of descriptor h, which stands for the chain `cs`. */
    method Read(h: nat, count: Word, ghost cs: seq<nat>) returns (r: Option<seq<Byte>>)
      requires Ready() && h < |files| && Backs(View(), GeoOf(b), files[h], cs)
      modifies this`files
      ensures !old(files)[h].isOpen ==> r == None && files == old(files)
      ensures old(files)[h].pos <= |Content(View().data, cs)|
      ensures old(files)[h].isOpen ==>
        var f := old(files)[h];
        var piece := Piece(Content(View().data, cs), f.pos, Wanted(f, count));
        r == Some(piece) && files == old(files)[h := f.(pos := (f.pos + |piece|) % 0x1_0000_0000)]
    {
      hide VolOf, Mirrored, Good, Content;
      var f := files[h];
      BacksSpan(View(), GeoOf(b), f, cs);
      if !f.isOpen { return None; }
      assert files[h := f.(pos := (f.pos + 0) % 0x1_0000_0000)] == files;
      var n := if (f.pos + count) % 0x1_0000_0000 > f.size then f.size - f.pos else count;
      assert n == Wanted(f, count);
      if n == 0 {
        NoBytes(Content(View().data, cs), f.pos);
        return Some([]);
      }
      var cur, past, k := SkipTo(f.first, f.pos, cs);
      if past { return Some([]); }
      var data := CopyFrom(cur, f.pos, n, cs, k);
      files := files[h := f.(pos := (f.pos + |data|) % 0x1_0000_0000)];
      r := Some(data);
    }
  }
}
