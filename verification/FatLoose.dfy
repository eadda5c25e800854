/** Freeing a chain on a disk that may hold anything: links may lead past the end of the table, into the sectors
    behind it. */
module FatLoose {
  import opened Basics
  import opened FatTable
  import opened FatDisk
  import opened FatDriver

  /** The number of halfwords that links can reach from the start of the first copy, in any copy. */
  function Reach(b: Bpb): nat { b.fats * (256 * b.perFat) + 0x1_0000 }

  ghost predicate Long(b: Bpb, disk: seq<Sector>)
  {
    && b.fats > 0 && FatStart(b) + b.fats * b.perFat + 256 <= |disk| && forall l :: 0 <= l < |disk| ==> |disk[l]| == 512
  }

  /** Halfword i from the start of the first copy. */
  function WordAt(b: Bpb, disk: seq<Sector>, i: nat): Half
    requires FatStart(b) + i / 256 < |disk| && |disk[FatStart(b) + i / 256]| == 512
  {
    GetHalf(disk[FatStart(b) + i / 256], 2 * (i % 256))
  }

  lemma InReach(b: Bpb, i: nat)
    requires i < Reach(b)
    ensures i / 256 < b.fats * b.perFat + 256
  {
    assert b.fats * (256 * b.perFat) == 256 * (b.fats * b.perFat);
  }

  ghost function Words(b: Bpb, disk: seq<Sector>): (r: Table)
    requires Long(b, disk)
    ensures |r| == Reach(b)
  {
    seq(Reach(b), (i: nat) requires i < Reach(b) => InReach(b, i); WordAt(b, disk, i))
  }

  // ----- on halfwords -----

  /** The entry c is cleared in the first k copies, which are `span` halfwords apart. */
  function Cleared(w: Table, span: nat, k: nat, c: nat): (r: Table)
    requires k == 0 || (k - 1) * span + c < |w|
    ensures |r| == |w|
    decreases k
  {
    if k == 0 then w
    else
      Lower(k, span);
      Cleared(w, span, k - 1, c)[(k - 1) * span + c := 0]
  }

  lemma Lower(k: nat, span: nat)
    requires k > 0
    ensures k > 1 ==> (k - 2) * span <= (k - 1) * span
    ensures 0 <= (k - 1) * span
  {
    if k > 1 { assert (k - 1) * span == (k - 2) * span + span; }
  }

  lemma {:induction false} ClearKeepsLow(w: Table, c: nat)
    requires c < |w|
    ensures NonZero(w[c := 0]) <= NonZero(w)
  {
    if w[c] != 0 { NonZeroDrops(w, c); } else { assert w[c := 0] == w; }
  }

  /** Clearing an entry that is set leaves fewer that are. */
  lemma {:induction false} ClearedDrops(w: Table, span: nat, k: nat, c: nat)
    requires k > 0 && (k - 1) * span + c < |w| && c < |w|
    ensures NonZero(Cleared(w, span, k, c)) <= NonZero(w[c := 0])
    decreases k
  {
    if k == 1 {
      assert Cleared(w, span, 0, c) == w;
      assert (k - 1) * span + c == c;
    } else {
      Lower(k, span);
      ClearedDrops(w, span, k - 1, c);
      ClearKeepsLow(Cleared(w, span, k - 1, c), (k - 1) * span + c);
    }
  }

  ghost predicate Roomy(w: Table, span: nat, copies: nat) { copies > 0 && (copies - 1) * span + 0x1_0000 <= |w| }

  /** Follows links wherever they lead and clears each entry in every copy. It ends on all contents: a cleared entry is
      not a link, so each step leaves fewer entries that are set. */
  ghost function FreedLoose(w: Table, span: nat, copies: nat, c: Half): (r: Table)
    requires Roomy(w, span, copies)
    ensures |r| == |w|
    decreases NonZero(w)
  {
    if !IsLink(c) then w
    else
      Lower(copies, span);
      if w[c] == 0 then Cleared(w, span, copies, c)
      else
        ClearedDrops(w, span, copies, c);
        NonZeroDrops(w, c);
        FreedLoose(Cleared(w, span, copies, c), span, copies, w[c])
  }

  lemma {:induction false} ClearedOnly(w: Table, span: nat, k: nat, c: nat, i: nat)
    requires (k == 0 || (k - 1) * span + c < |w|) && i < |w|
    ensures Cleared(w, span, k, c)[i] == w[i] || Cleared(w, span, k, c)[i] == 0
    decreases k
  {
    if k > 0 {
      Lower(k, span);
      ClearedOnly(w, span, k - 1, c, i);
    }
  }

  /** Whatever the disk holds, freeing only ever clears entries. */
  lemma {:induction false} LooseClears(w: Table, span: nat, copies: nat, c: Half, i: nat)
    requires Roomy(w, span, copies) && i < |w|
    ensures FreedLoose(w, span, copies, c)[i] == w[i] || FreedLoose(w, span, copies, c)[i] == 0
    decreases NonZero(w)
  {
    if IsLink(c) {
      Lower(copies, span);
      ClearedOnly(w, span, copies, c, i);
      if w[c] != 0 {
        ClearedDrops(w, span, copies, c);
        NonZeroDrops(w, c);
        LooseClears(Cleared(w, span, copies, c), span, copies, w[c], i);
      }
    }
  }

  // ----- on sectors -----

  lemma WordsPut(b: Bpb, disk: seq<Sector>, i: nat, v: Half)
    requires Long(b, disk) && i < Reach(b)
    ensures FatStart(b) + i / 256 < |disk| && |disk[FatStart(b) + i / 256]| == 512
    ensures var l := FatStart(b) + i / 256; var e := disk[l := PutHalf(disk[l], 2 * (i % 256), v)];
      Long(b, e) && Words(b, e) == Words(b, disk)[i := v]
  {
    hide PutHalf, GetHalf, Reach;
    InReach(b, i);
    var l := FatStart(b) + i / 256;
    var e := disk[l := PutHalf(disk[l], 2 * (i % 256), v)];
    forall j | 0 <= j < Reach(b)
      ensures Words(b, e)[j] == Words(b, disk)[i := v][j]
    {
      InReach(b, j);
      if j / 256 == i / 256 {
        GetPut(disk[l], 2 * (i % 256), v, 2 * (j % 256));
        assert j % 256 == i % 256 ==> j == i;
      }
    }
  }

  lemma RoomyWords(b: Bpb, disk: seq<Sector>)
    requires Long(b, disk)
    ensures Roomy(Words(b, disk), 256 * b.perFat, b.fats)
  {
    Lower(b.fats, 256 * b.perFat);
    assert b.fats * (256 * b.perFat) == (b.fats - 1) * (256 * b.perFat) + 256 * b.perFat;
  }

  method ClearEntry(d: Driver, c: Half)
    requires Long(d.b, d.disk) && c >= 2
    modifies d`disk
    ensures Long(d.b, d.disk) && Roomy(old(Words(d.b, d.disk)), 256 * d.b.perFat, d.b.fats)
    ensures Words(d.b, d.disk) == Cleared(old(Words(d.b, d.disk)), 256 * d.b.perFat, d.b.fats, c)
  {
    hide Words, Long, Reach, PutHalf;
    ghost var w, span := Words(d.b, d.disk), 256 * d.b.perFat;
    RoomyWords(d.b, d.disk);
    LongFats(d.b, d.disk);
    var offset := 2 * c;
    var k := 0;
    while k < d.b.fats
      invariant 0 <= k <= d.b.fats && Long(d.b, d.disk) && (k == 0 || (k - 1) * span + c < |w|)
      invariant Words(d.b, d.disk) == Cleared(w, span, k, c)
    {
      CopyAt(d.b, k, c, |w|);
      WordsPut(d.b, d.disk, k * span + c, 0);
      var l := FatStart(d.b) + k * d.b.perFat + offset / 512;
      d.disk := d.disk[l := PutHalf(d.disk[l], offset % 512, 0)];
      k := k + 1;
    }
  }

  lemma LongFats(b: Bpb, disk: seq<Sector>)
    requires Long(b, disk)
    ensures b.fats > 0 && |Words(b, disk)| == Reach(b)
  {
  }

  /** Where entry c of copy k lies. */
  lemma CopyAt(b: Bpb, k: nat, c: Half, n: nat)
    requires k < b.fats && n == Reach(b)
    ensures var i := k * (256 * b.perFat) + c;
      i < n && i / 256 == k * b.perFat + 2 * c / 512 && 2 * (i % 256) == 2 * c % 512
  {
    assert k * (256 * b.perFat) == 256 * (k * b.perFat);
    MulGrows(k, b.fats, 256 * b.perFat);
  }

  method FreeAny(d: Driver, c: Half)
    requires Long(d.b, d.disk)
    modifies d`disk
    ensures Long(d.b, d.disk) && Roomy(old(Words(d.b, d.disk)), 256 * d.b.perFat, d.b.fats)
    ensures Words(d.b, d.disk) == FreedLoose(old(Words(d.b, d.disk)), 256 * d.b.perFat, d.b.fats, c)
  {
    hide Words, Long, Reach, Cleared;
    ghost var span, copies := 256 * d.b.perFat, d.b.fats;
    RoomyWords(d.b, d.disk);
    var cluster: Half := c;
    while cluster >= 2 && cluster < EOC_MIN && cluster != BAD
      invariant Long(d.b, d.disk) && Roomy(Words(d.b, d.disk), span, copies)
      invariant FreedLoose(Words(d.b, d.disk), span, copies, cluster)
             == FreedLoose(old(Words(d.b, d.disk)), span, copies, c)
      decreases NonZero(Words(d.b, d.disk)), if IsLink(cluster) then 1 else 0
    {
      ghost var w := Words(d.b, d.disk);
      Lower(copies, span);
      var next := ReadAny(d, cluster);
      if w[cluster] != 0 { NonZeroDrops(w, cluster); } else { assert w[cluster := 0] == w; }
      ClearedDrops(w, span, copies, cluster);
      ClearEntry(d, cluster);
      RoomyWords(d.b, d.disk);
      cluster := next;
    }
  }

  method ReadAny(d: Driver, c: Half) returns (v: Half)
    requires Long(d.b, d.disk)
    ensures c < |Words(d.b, d.disk)| && v == Words(d.b, d.disk)[c]
  {
    CopyAt(d.b, 0, c, Reach(d.b));
    InReach(d.b, c);
    var offset := 2 * c;
    v := GetHalf(d.disk[FatStart(d.b) + offset / 512], offset % 512);
  }
}
