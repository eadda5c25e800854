/** Where everything stands on the disk, counted in bytes from its start, and what the directory searches find. */
module FatLayout {
  import opened Basics
  import opened FatTable
  import opened FatVolume
  import opened FatFiles
  import opened FatDisk

  // ----- positions -----

  predicate On(disk: seq<Sector>, pos: nat) { pos / 512 < |disk| && |disk[pos / 512]| == 512 }

  /** The byte at a position of the disk. */
  function At(disk: seq<Sector>, pos: nat): int
    requires On(disk, pos)
  {
    disk[pos / 512][pos % 512]
  }

  lemma Position(sector: nat, off: nat)
    requires off < 512
    ensures (512 * sector + off) / 512 == sector && (512 * sector + off) % 512 == off
  {
  }

  /** Entry c of copy k of the table: two bytes, the low one first. */
  lemma TableAt(b: Bpb, disk: seq<Sector>, k: nat, c: nat)
    requires Disk(b, disk) && k < b.fats && c < 256 * b.perFat
    ensures var p := 512 * (b.partition + b.reserved + k * b.perFat) + 2 * c;
      On(disk, p) && On(disk, p + 1) && Copy(b, disk, k, c) == At(disk, p) + 256 * At(disk, p + 1)
    ensures k == 0 ==> FatOf(b, disk)[c] == Copy(b, disk, 0, c)
  {
    hide RootStart, Good;
    FatInside(b, disk, k, c);
    var lba := FatLba(b, k, c / 256);
    var off := 2 * (c % 256);
    assert 512 * (b.partition + b.reserved + k * b.perFat) + 2 * c == 512 * lba + off;
    Position(lba, off);
    Position(lba, off + 1);
  }

  /** The directory slots follow the copies of the table; each has 32 bytes. */
  lemma SlotAt(b: Bpb, disk: seq<Sector>, i: nat, j: nat)
    requires Disk(b, disk) && i < 16 * ((b.entries * 32 + 511) / 512) && j < 32
    ensures var p := 512 * (b.partition + b.reserved + b.fats * b.perFat) + 32 * i;
      && On(disk, p + j) && |RootOf(b, disk)| == 16 * ((b.entries * 32 + 511) / 512)
      && var e := RootOf(b, disk)[i];
         && |e.name| == 11 && |e.times| == 14
         && At(disk, p + j) == if j < 11 then e.name[j] else if j == 11 then e.attr else if j < 26 then e.times[j - 12]
              else if j == 26 then e.first % 256 else if j == 27 then e.first / 256
              else e.size / [1, 0x100, 0x1_0000, 0x100_0000][j - 28] % 256
  {
    hide RootOf, Good, EntryOf, DataStart;
    RootInside(b, disk, i);
    RootIs(b, disk, i);
    var lba := RootStart(b) + i / 16;
    Position(lba, 32 * (i % 16) + j);
    assert 512 * RootStart(b) + 32 * i + j == 512 * lba + (32 * (i % 16) + j);
    EntryAt(disk[lba], i % 16, j);
  }

  lemma RootIs(b: Bpb, disk: seq<Sector>, i: nat)
    requires Disk(b, disk) && i < 16 * RootSectors(b)
    ensures RootStart(b) + i / 16 < |disk| && |RootOf(b, disk)| == 16 * RootSectors(b)
    ensures RootOf(b, disk)[i] == EntryOf(disk[RootStart(b) + i / 16], i % 16)
  {
    hide EntryOf, RootStart, Good;
    RootInside(b, disk, i);
  }

  lemma EntryAt(s: Sector, i: nat, j: nat)
    requires |s| == 512 && i < 16 && j < 32
    ensures var e := EntryOf(s, i);
      && |e.name| == 11 && |e.times| == 14
      && s[32 * i + j] == if j < 11 then e.name[j] else if j == 11 then e.attr else if j < 26 then e.times[j - 12]
           else if j == 26 then e.first % 256 else if j == 27 then e.first / 256
           else e.size / [1, 0x100, 0x1_0000, 0x100_0000][j - 28] % 256
  {
    if j >= 28 { SizeByte(s[32 * i + 28], s[32 * i + 29], s[32 * i + 30], s[32 * i + 31], j - 28); }
  }

  lemma SizeByte(a: Byte, b: Byte, c: Byte, d: Byte, j: nat)
    requires j < 4
    ensures var size := (b as int) * 256 + a + 0x1_0000 * ((d as int) * 256 + c);
      size / [1, 0x100, 0x1_0000, 0x100_0000][j] % 256 == [a, b, c, d][j]
  {
    var x: int, y: int, z: int, w: int := a, b, c, d;
    var size := y * 256 + x + 0x1_0000 * (w * 256 + z);
    assert size / 0x100 == y + 0x100 * (w * 256 + z) && size / 0x1_0000 == w * 256 + z && size / 0x100_0000 == w;
    assert j in {0, 1, 2, 3};
  }

  /** The data follows the directory; cluster 2 is its first. */
  function DataPosition(b: Bpb, c: nat, j: nat): nat
    requires c >= 2
  {
    512 * (b.partition + b.reserved + b.fats * b.perFat + (b.entries * 32 + 511) / 512 + (c - 2) * b.perCluster) + j
  }

  lemma ClusterAt(b: Bpb, disk: seq<Sector>, c: nat, j: nat)
    requires Disk(b, disk) && 2 <= c < Top(b) && j < 512 * b.perCluster
    ensures var p := DataPosition(b, c, j);
      On(disk, p) && |DataOf(b, disk)[c]| == 512 * b.perCluster && DataOf(b, disk)[c][j] == At(disk, p)
  {
    hide Good, Joined;
    var lba := ClusterLba(b, c, 0);
    ClusterInside(b, c, b.perCluster - 1);
    ClusterInside(b, c, j / 512);
    JoinedLength(disk, lba, b.perCluster);
    JoinedAt(disk, lba, b.perCluster, j);
    Position(lba + j / 512, j % 512);
    assert 512 * lba + j == 512 * (lba + j / 512) + j % 512;
  }

  lemma {:induction false} JoinedAt(disk: seq<Sector>, lba: nat, n: nat, j: nat)
    requires lba + n <= |disk| && (forall l :: 0 <= l < |disk| ==> |disk[l]| == 512) && j < 512 * n
    ensures |Joined(disk, lba, n)| == 512 * n && Joined(disk, lba, n)[j] == disk[lba + j / 512][j % 512]
    decreases n
  {
    JoinedLength(disk, lba, n - 1);
    if j < 512 * (n - 1) {
      JoinedAt(disk, lba, n - 1, j);
    } else {
      Position(n - 1, j - 512 * (n - 1));
    }
  }

  /** The first cluster of a directory: 32 bytes for itself, 32 for its parent, which is the root, and then zeros. */
  lemma DirectoryAt(c: Half, size: nat, j: nat)
    requires size >= 64 && j < size
    ensures var s := DirBytes(c, size);
      && |s| == size
      && s[j] == if j == 0 || j == 32 || j == 33 then 0x2E else if j % 32 < 11 && j < 64 then 0x20
           else if j == 11 || j == 43 then 0x10 else if j == 26 then c % 256 else if j == 27 then c / 256 else 0
  {
    var s, t := Dot([0x2E, 0x20], c), Dot([0x2E, 0x2E], 0);
    if j < 32 { assert DirBytes(c, size)[j] == s[j]; } else if j < 64 { assert DirBytes(c, size)[j] == t[j - 32]; }
  }

  // ----- searches -----

  /** The directory has not ended before slot i. */
  predicate Reached(root: seq<Entry>, i: nat)
    requires i <= |root|
  {
    forall k :: 0 <= k < i ==> root[k].name != [] && root[k].name[0] != 0x00
  }

  /** A slot in use that has this name and is not the volume's label, nor a directory where only files count. */
  predicate Carries(e: Entry, name: seq<Byte>, files: bool)
  {
    && e.name == name && name != [] && name[0] != 0x00 && name[0] != 0xE5
    && e.attr / 8 % 2 == 0 && (files ==> e.attr / 16 % 2 == 0)
  }

  predicate FoundAt(root: seq<Entry>, name: seq<Byte>, i: nat)
  {
    && i < |root| && Reached(root, i) && Carries(root[i], name, true)
    && forall k :: 0 <= k < i ==> !Carries(root[k], name, true)
  }

  /** The search finds the first file of that name before the end of the directory, and nothing exactly if there is
      none. */
  lemma FoundExactly(root: seq<Entry>, name: seq<Byte>)
    ensures match Find(root, name, 0)
      case Some(i) => FoundAt(root, name, i)
      case None => forall k :: 0 <= k < |root| && Carries(root[k], name, true) ==> !Reached(root, k)
  {
    FindFrom(root, name, 0);
  }

  lemma {:induction false} FindFrom(root: seq<Entry>, name: seq<Byte>, i: nat)
    requires i <= |root| && Reached(root, i) && forall k :: 0 <= k < i ==> !Carries(root[k], name, true)
    ensures match Find(root, name, i)
      case Some(n) => FoundAt(root, name, n)
      case None => forall k :: 0 <= k < |root| && Carries(root[k], name, true) ==> !Reached(root, k)
    decreases |root| - i
  {
    if i < |root| && Mark(root[i]) != END && !Carries(root[i], name, true) { FindFrom(root, name, i + 1); }
  }

  predicate Vacant(e: Entry) { e.name == [] || e.name[0] == 0x00 || e.name[0] == 0xE5 }

  /** Where a name goes: the first slot that carries it before the end; otherwise the first vacant slot; otherwise
      nowhere, exactly if all slots are in use. */
  ghost predicate Placed(root: seq<Entry>, name: seq<Byte>, files: bool, p: Place)
  {
    match p
    case Old(i) =>
      && i < |root| && Reached(root, i) && Carries(root[i], name, files)
      && forall k :: 0 <= k < i ==> !Carries(root[k], name, files)
    case New(i) =>
      && i < |root| && Vacant(root[i]) && (forall k :: 0 <= k < i ==> !Vacant(root[k]))
      && forall k :: 0 <= k < |root| && Carries(root[k], name, files) ==> !Reached(root, k)
    case Full =>
      && (forall k :: 0 <= k < |root| ==> !Vacant(root[k]))
      && forall k :: 0 <= k < |root| && Carries(root[k], name, files) ==> !Reached(root, k)
  }

  lemma PlacedExactly(root: seq<Entry>, name: seq<Byte>, files: bool)
    ensures Placed(root, name, files, Scan(root, name, files, 0, None))
  {
    ScanFrom(root, name, files, 0, None);
  }

  lemma {:induction false} ScanFrom(root: seq<Entry>, name: seq<Byte>, files: bool, i: nat, free: Option<nat>)
    requires i <= |root| && Reached(root, i) && (forall k :: 0 <= k < i ==> !Carries(root[k], name, files))
    requires match free
      case None => forall k :: 0 <= k < i ==> !Vacant(root[k])
      case Some(n) => n < i && Vacant(root[n]) && forall k :: 0 <= k < n ==> !Vacant(root[k])
    ensures Placed(root, name, files, Scan(root, name, files, i, free))
    decreases |root| - i
  {
    if i < |root| && Mark(root[i]) != END && !Carries(root[i], name, files) {
      ScanFrom(root, name, files, i + 1, if Mark(root[i]) == DELETED && free.None? then Some(i) else free);
    }
  }

  /** A file has as many clusters as its bytes need and no more. */
  lemma ClustersLeast(bytes: nat, size: nat)
    requires size > 0
    ensures var n := Clusters(bytes, size); bytes <= n * size && (n > 0 ==> (n - 1) * size < bytes)
  {
    var n := Clusters(bytes, size);
    var r := (bytes + size - 1) % size;
    assert bytes + size - 1 == n * size + r;
    assert (n - 1) * size == n * size - size;
  }
}
