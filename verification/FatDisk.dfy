/** The sectors of a FAT16 partition and the volume they hold. */
module FatDisk {
  import opened Basics
  import opened FatTable
  import opened FatVolume

  type Sector = seq<Byte>

  /** The boot parameters the driver uses, and the number of data clusters they leave room for.
      Sectors have 512 bytes. */
  datatype Bpb = Bpb(partition: nat, reserved: nat, fats: nat, perFat: nat, entries: nat, perCluster: nat, total: nat,
                     clusters: nat)

  // ----- layout -----

  function FatStart(b: Bpb): nat { b.partition + b.reserved }

  function RootStart(b: Bpb): nat { FatStart(b) + b.fats * b.perFat }

  function RootSectors(b: Bpb): nat { (b.entries * 32 + 511) / 512 }

  function DataStart(b: Bpb): nat { RootStart(b) + RootSectors(b) }

  /** The sectors before the data area, counted from the start of the partition. */
  function Before(b: Bpb): nat { b.reserved + b.fats * b.perFat + RootSectors(b) }

  /** The first cluster number past the data area. */
  function Top(b: Bpb): nat { b.clusters + 2 }

  /** A usable layout: cluster numbers fit 16 bits below the marks, and the table has an entry for each. */
  predicate Good(b: Bpb)
  {
    && 0 < b.perCluster <= 128 && b.fats > 0 && b.perFat > 0 && Before(b) <= b.total
    && b.clusters == (b.total - Before(b)) / b.perCluster
    && Top(b) <= BAD && Top(b) <= 256 * b.perFat
  }

  ghost predicate Disk(b: Bpb, disk: seq<Sector>)
  {
    Good(b) && b.partition + b.total <= |disk| && forall l :: 0 <= l < |disk| ==> |disk[l]| == 512
  }

  function FatLba(b: Bpb, copy: nat, q: nat): nat { FatStart(b) + copy * b.perFat + q }

  /** Sector s of cluster c. */
  function ClusterLba(b: Bpb, c: nat, s: nat): nat
    requires c >= 2
  {
    DataStart(b) + (c - 2) * b.perCluster + s
  }

  lemma MulBelow(k: nat, m: nat, n: nat, q: nat)
    requires k < m && q < n
    ensures k * n + q < m * n
  {
    MulGrows(k + 1, m, n);
    assert (k + 1) * n == k * n + n;
  }

  lemma {:induction false} MulGrows(k: nat, m: nat, n: nat)
    requires k <= m
    ensures k * n <= m * n
    decreases m
  {
    if k < m {
      MulGrows(k, m - 1, n);
      assert m * n == (m - 1) * n + n;
    }
  }

  lemma MulApart(k: nat, q: nat, l: nat, r: nat, n: nat)
    requires q < n && r < n && k < l
    ensures k * n + q < l * n + r
  {
    MulBelow(k, l, n, q);
  }

  /** FAT copies, root directory and clusters lie one after the other. */
  lemma Regions(b: Bpb)
    requires Good(b)
    ensures FatStart(b) <= RootStart(b) <= DataStart(b) <= b.partition + b.total
    ensures forall k: nat, q: nat :: k < b.fats && q < b.perFat ==> FatStart(b) <= FatLba(b, k, q) < RootStart(b)
    ensures forall c: nat, s: nat :: 2 <= c < Top(b) && s < b.perCluster ==>
      DataStart(b) <= ClusterLba(b, c, s) < b.partition + b.total
  {
    forall k: nat, q: nat | k < b.fats && q < b.perFat
      ensures FatLba(b, k, q) < RootStart(b)
    {
      MulBelow(k, b.fats, b.perFat, q);
    }
    forall c: nat, s: nat | 2 <= c < Top(b) && s < b.perCluster
      ensures DataStart(b) <= ClusterLba(b, c, s) < b.partition + b.total
    {
      ClusterInside(b, c, s);
    }
  }

  lemma ClusterInside(b: Bpb, c: nat, s: nat)
    requires Good(b) && 2 <= c < Top(b) && s < b.perCluster
    ensures DataStart(b) <= ClusterLba(b, c, s) < b.partition + b.total
  {
    hide Good, RootSectors, Before, DataStart;
    ClustersFit(b);
    DataIs(b);
    MulBelow(c - 2, b.clusters, b.perCluster, s);
  }

  lemma ClustersFit(b: Bpb)
    requires Good(b)
    ensures Before(b) + b.clusters * b.perCluster <= b.total
  {
    hide RootSectors, Before;
    Floor(b.total - Before(b), b.perCluster);
  }

  lemma DataIs(b: Bpb)
    ensures DataStart(b) == b.partition + Before(b)
  {
  }

  lemma Floor(a: nat, n: nat)
    requires n > 0
    ensures a / n * n <= a
  {
  }

  /** Different copies, and different sectors of a copy, lie apart. */
  lemma FatApart(b: Bpb, k: nat, q: nat, l: nat, r: nat)
    requires q < b.perFat && r < b.perFat && FatLba(b, k, q) == FatLba(b, l, r)
    ensures k == l && q == r
  {
    if k < l { MulApart(k, q, l, r, b.perFat); }
    if l < k { MulApart(l, r, k, q, b.perFat); }
  }

  /** Different clusters lie apart. */
  lemma ClustersApart(b: Bpb, c: nat, s: nat, d: nat, t: nat)
    requires 2 <= c && 2 <= d && s < b.perCluster && t < b.perCluster && ClusterLba(b, c, s) == ClusterLba(b, d, t)
    ensures c == d && s == t
  {
    if c < d { MulApart(c - 2, s, d - 2, t, b.perCluster); }
    if d < c { MulApart(d - 2, t, c - 2, s, b.perCluster); }
  }

  // ----- words in sectors -----

  function GetHalf(s: Sector, off: nat): Half
    requires off + 2 <= |s|
  {
    (s[off + 1] as int) * 256 + s[off]
  }

  function PutHalf(s: Sector, off: nat, v: Half): (r: Sector)
    requires off + 2 <= |s|
    ensures |r| == |s|
  {
    s[off := v % 256][off + 1 := v / 256]
  }

  lemma GetPut(s: Sector, off: nat, v: Half, at: nat)
    requires off + 2 <= |s| && at + 2 <= |s| && off % 2 == at % 2
    ensures GetHalf(PutHalf(s, off, v), at) == if at == off then v else GetHalf(s, at)
  {
  }

  /** Entry c of FAT copy k. */
  function FatWord(b: Bpb, disk: seq<Sector>, k: nat, c: nat): Half
    requires FatLba(b, k, c / 256) < |disk| && |disk[FatLba(b, k, c / 256)]| == 512
  {
    GetHalf(disk[FatLba(b, k, c / 256)], 2 * (c % 256))
  }

  // ----- directory slots -----

  function EntryOf(s: Sector, i: nat): Entry
    requires |s| == 512 && i < 16
  {
    var o := 32 * i;
    Entry(s[o..o + 11], s[o + 11], s[o + 12..o + 26], GetHalf(s, o + 26), GetHalf(s, o + 28)
          + 0x1_0000 * GetHalf(s, o + 30))
  }

  function EntryBytes(e: Entry): (r: seq<Byte>)
    requires |e.name| == 11 && |e.times| == 14
    ensures |r| == 32
  {
    var lo, hi := e.size % 0x1_0000, e.size / 0x1_0000;
    e.name + [e.attr] + e.times + [e.first % 256, e.first / 256] + [lo % 256, lo / 256, hi % 256, hi / 256]
  }

  function PutEntry(s: Sector, i: nat, e: Entry): (r: Sector)
    requires |s| == 512 && i < 16 && |e.name| == 11 && |e.times| == 14
    ensures |r| == 512
  {
    s[..32 * i] + EntryBytes(e) + s[32 * i + 32..]
  }

  /** A slot that was written reads back, and no other slot of the sector changes. */
  lemma EntryPut(s: Sector, i: nat, e: Entry, j: nat)
    requires |s| == 512 && i < 16 && j < 16 && |e.name| == 11 && |e.times| == 14
    ensures EntryOf(PutEntry(s, i, e), j) == if j == i then e else EntryOf(s, j)
  {
    var r, bytes := PutEntry(s, i, e), EntryBytes(e);
    if j == i {
      assert r[32 * i..32 * i + 32] == bytes;
      assert r[32 * i + 11] == bytes[11];
      assert r[32 * i..32 * i + 11] == e.name;
      assert r[32 * i + 12..32 * i + 26] == e.times;
    } else {
      assert forall k :: 32 * j <= k < 32 * j + 32 ==> r[k] == s[k];
      assert r[32 * j..32 * j + 11] == s[32 * j..32 * j + 11];
      assert r[32 * j + 12..32 * j + 26] == s[32 * j + 12..32 * j + 26];
    }
  }

  // ----- the volume on a disk -----

  lemma FatInside(b: Bpb, disk: seq<Sector>, k: nat, c: nat)
    requires Disk(b, disk) && k < b.fats && c < 256 * b.perFat
    ensures c / 256 < b.perFat && FatLba(b, k, c / 256) < RootStart(b) <= |disk|
  {
    hide FatLba, RootStart, DataStart, ClusterLba;
    Regions(b);
  }

  function FatOf(b: Bpb, disk: seq<Sector>): (r: Table)
    requires Disk(b, disk)
    ensures |r| == 256 * b.perFat
  {
    seq(256 * b.perFat, c requires 0 <= c < 256 * b.perFat => FatInside(b, disk, 0, c); FatWord(b, disk, 0, c))
  }

  lemma RootInside(b: Bpb, disk: seq<Sector>, i: nat)
    requires Disk(b, disk) && i < 16 * RootSectors(b)
    ensures RootStart(b) <= RootStart(b) + i / 16 < DataStart(b) <= |disk|
  {
    hide ClusterLba;
    Regions(b);
  }

  function RootOf(b: Bpb, disk: seq<Sector>): (r: seq<Entry>)
    requires Disk(b, disk)
    ensures |r| == 16 * RootSectors(b)
  {
    seq(16 * RootSectors(b), i requires 0 <= i < 16 * RootSectors(b) =>
      RootInside(b, disk, i);
      EntryOf(disk[RootStart(b) + i / 16], i % 16))
  }

  /** The bytes of `n` sectors from `lba` on. */
  function Joined(disk: seq<Sector>, lba: nat, n: nat): seq<Byte>
    requires lba + n <= |disk|
    decreases n
  {
    if n == 0 then [] else Joined(disk, lba, n - 1) + disk[lba + n - 1]
  }

  function ClusterOf(b: Bpb, disk: seq<Sector>, c: nat): seq<Byte>
    requires Disk(b, disk) && 2 <= c < Top(b)
  {
    ClusterInside(b, c, b.perCluster - 1);
    Joined(disk, ClusterLba(b, c, 0), b.perCluster)
  }

  function DataOf(b: Bpb, disk: seq<Sector>): (r: seq<seq<Byte>>)
    requires Disk(b, disk)
    ensures |r| == Top(b)
  {
    seq(Top(b), c requires 0 <= c < Top(b) => if c < 2 then [] else ClusterOf(b, disk, c))
  }

  function VolOf(b: Bpb, disk: seq<Sector>): Vol
    requires Disk(b, disk)
  {
    Vol(FatOf(b, disk), RootOf(b, disk), DataOf(b, disk))
  }

  function GeoOf(b: Bpb): Geo
    requires Good(b)
  {
    Geo(512 * b.perCluster, Top(b))
  }

  /** All copies of the table agree. */
  ghost predicate Mirrored(b: Bpb, disk: seq<Sector>)
    requires Disk(b, disk)
  {
    forall k: nat, c: nat :: k < b.fats && c < 256 * b.perFat ==> Copy(b, disk, k, c) == Copy(b, disk, 0, c)
  }

  function Copy(b: Bpb, disk: seq<Sector>, k: nat, c: nat): Half
    requires Disk(b, disk) && k < b.fats && c < 256 * b.perFat
  {
    FatInside(b, disk, k, c);
    FatWord(b, disk, k, c)
  }

  /** The disks differ at most in the sectors from `lo` up to `hi`. */
  ghost predicate SameOutside(d: seq<Sector>, e: seq<Sector>, lo: nat, hi: nat)
  {
    |d| == |e| && forall l :: 0 <= l < |d| && !(lo <= l < hi) ==> d[l] == e[l]
  }

  lemma {:induction false} JoinedSame(d: seq<Sector>, e: seq<Sector>, lba: nat, n: nat)
    requires lba + n <= |d| && |d| == |e| && forall l :: lba <= l < lba + n ==> d[l] == e[l]
    ensures Joined(d, lba, n) == Joined(e, lba, n)
    decreases n
  {
    if n > 0 { JoinedSame(d, e, lba, n - 1); }
  }

  lemma {:induction false} JoinedLength(d: seq<Sector>, lba: nat, n: nat)
    requires lba + n <= |d| && forall l :: 0 <= l < |d| ==> |d[l]| == 512
    ensures |Joined(d, lba, n)| == 512 * n
    decreases n
  {
    if n > 0 { JoinedLength(d, lba, n - 1); }
  }

  /** A cluster is untouched by changes elsewhere. */
  lemma ClusterSame(b: Bpb, d: seq<Sector>, e: seq<Sector>, c: nat)
    requires Disk(b, d) && Disk(b, e) && |d| == |e| && 2 <= c < Top(b)
    requires forall s: nat :: s < b.perCluster ==>
      ClusterLba(b, c, s) < |d| && d[ClusterLba(b, c, s)] == e[ClusterLba(b, c, s)]
    ensures ClusterOf(b, d, c) == ClusterOf(b, e, c)
  {
    ClusterInside(b, c, b.perCluster - 1);
    var lba := ClusterLba(b, c, 0);
    forall l | lba <= l < lba + b.perCluster
      ensures d[l] == e[l]
    {
      assert l == ClusterLba(b, c, l - lba);
    }
    JoinedSame(d, e, lba, b.perCluster);
  }

  /** Changing the tables changes neither the directory nor the clusters. */
  lemma TablesOnly(b: Bpb, d: seq<Sector>, e: seq<Sector>)
    requires Disk(b, d) && Disk(b, e) && SameOutside(d, e, FatStart(b), RootStart(b))
    ensures RootOf(b, d) == RootOf(b, e) && DataOf(b, d) == DataOf(b, e)
  {
    hide FatLba, ClusterLba, ClusterOf, RootStart, DataStart, FatStart, RootSectors, Good;
    GoodParts(b);
    Regions(b);
    forall i | 0 <= i < 16 * RootSectors(b)
      ensures RootOf(b, d)[i] == RootOf(b, e)[i]
    {
      RootInside(b, d, i);
    }
    forall c | 2 <= c < Top(b)
      ensures ClusterOf(b, d, c) == ClusterOf(b, e, c)
    {
      ClusterSame(b, d, e, c);
    }
  }

  lemma GoodParts(b: Bpb)
    requires Good(b)
    ensures b.perCluster > 0 && Before(b) <= b.total
  {
  }

  /** Changing the directory changes neither the tables nor the clusters. */
  lemma RootOnly(b: Bpb, d: seq<Sector>, e: seq<Sector>)
    requires Disk(b, d) && Disk(b, e) && SameOutside(d, e, RootStart(b), DataStart(b))
    ensures FatOf(b, d) == FatOf(b, e) && DataOf(b, d) == DataOf(b, e) && (Mirrored(b, d) ==> Mirrored(b, e))
  {
    hide FatLba, ClusterLba, ClusterOf, RootStart, DataStart, FatStart, RootSectors, Good;
    GoodParts(b);
    Regions(b);
    CopiesSame(b, d, e);
    forall c | 2 <= c < Top(b)
      ensures ClusterOf(b, d, c) == ClusterOf(b, e, c)
    {
      ClusterSame(b, d, e, c);
    }
  }

  lemma CopiesSame(b: Bpb, d: seq<Sector>, e: seq<Sector>)
    requires Disk(b, d) && Disk(b, e) && |d| == |e|
    requires forall k: nat, q: nat :: k < b.fats && q < b.perFat ==>
      FatLba(b, k, q) < |d| && d[FatLba(b, k, q)] == e[FatLba(b, k, q)]
    ensures forall k: nat, c: nat :: k < b.fats && c < 256 * b.perFat ==> Copy(b, d, k, c) == Copy(b, e, k, c)
    ensures FatOf(b, d) == FatOf(b, e)
  {
    hide FatLba;
    forall k: nat, c: nat | k < b.fats && c < 256 * b.perFat
      ensures Copy(b, d, k, c) == Copy(b, e, k, c)
    {
      FatInside(b, d, k, c);
    }
    forall c | 0 <= c < 256 * b.perFat
      ensures FatOf(b, d)[c] == FatOf(b, e)[c]
    {
      assert Copy(b, d, 0, c) == Copy(b, e, 0, c);
    }
  }

  /** Changing a cluster changes nothing else. */
  lemma ClusterOnly(b: Bpb, d: seq<Sector>, e: seq<Sector>, c: nat)
    requires Disk(b, d) && Disk(b, e) && 2 <= c < Top(b)
    requires SameOutside(d, e, ClusterLba(b, c, 0), ClusterLba(b, c, 0) + b.perCluster)
    ensures FatOf(b, d) == FatOf(b, e) && RootOf(b, d) == RootOf(b, e) && (Mirrored(b, d) ==> Mirrored(b, e))
    ensures DataOf(b, e) == DataOf(b, d)[c := ClusterOf(b, e, c)]
  {
    hide FatLba, ClusterOf, RootStart, DataStart, FatStart, RootSectors, Good;
    GoodParts(b);
    Regions(b);
    ClusterInside(b, c, 0);
    CopiesSame(b, d, e);
    forall i | 0 <= i < 16 * RootSectors(b)
      ensures RootOf(b, d)[i] == RootOf(b, e)[i]
    {
      RootInside(b, d, i);
    }
    forall x | 2 <= x < Top(b) && x != c
      ensures ClusterOf(b, d, x) == ClusterOf(b, e, x)
    {
      OtherCluster(b, d, e, c, x);
    }
  }

  lemma OtherCluster(b: Bpb, d: seq<Sector>, e: seq<Sector>, c: nat, x: nat)
    requires Disk(b, d) && Disk(b, e) && 2 <= c < Top(b) && 2 <= x < Top(b) && x != c
    requires SameOutside(d, e, ClusterLba(b, c, 0), ClusterLba(b, c, 0) + b.perCluster)
    ensures ClusterOf(b, d, x) == ClusterOf(b, e, x)
  {
    hide ClusterOf, DataStart, Good;
    forall s: nat | s < b.perCluster
      ensures ClusterLba(b, x, s) < |d| && d[ClusterLba(b, x, s)] == e[ClusterLba(b, x, s)]
    {
      ClusterInside(b, x, s);
      var l := ClusterLba(b, x, s);
      if ClusterLba(b, c, 0) <= l < ClusterLba(b, c, 0) + b.perCluster {
        ClustersApart(b, c, l - ClusterLba(b, c, 0), x, s);
      }
    }
    ClusterSame(b, d, e, x);
  }

  /** Writing the sectors of a cluster in turn. */
  lemma JoinedGrows(disk: seq<Sector>, lba: nat, n: nat, s: Sector)
    requires lba + n < |disk|
    ensures Joined(disk[lba + n := s], lba, n + 1) == Joined(disk, lba, n) + s
  {
    JoinedSame(disk, disk[lba + n := s], lba, n);
  }

  /** Sector s of a joined stretch. */
  lemma {:induction false} JoinedAt(disk: seq<Sector>, lba: nat, n: nat, s: nat)
    requires lba + n <= |disk| && s < n && forall l :: 0 <= l < |disk| ==> |disk[l]| == 512
    ensures |Joined(disk, lba, n)| == 512 * n && Joined(disk, lba, n)[512 * s..512 * s + 512] == disk[lba + s]
    decreases n
  {
    JoinedLength(disk, lba, n);
    JoinedLength(disk, lba, n - 1);
    if s < n - 1 {
      JoinedAt(disk, lba, n - 1, s);
      assert Joined(disk, lba, n)[..512 * (n - 1)] == Joined(disk, lba, n - 1);
      assert Joined(disk, lba, n)[512 * s..512 * s + 512] == Joined(disk, lba, n - 1)[512 * s..512 * s + 512];
    }
  }
}
