/** A FAT16 volume as values: the allocation table, the root directory and the clusters,
    and the root-level operations of the driver on them. */
module FatVolume {
  import opened Basics
  import opened FatTable

  const VOLUME_ID: Byte := 0x08
  const DIRECTORY: Byte := 0x10
  const ARCHIVE: Byte := 0x20
  const END: Byte := 0x00
  const DELETED: Byte := 0xE5

  /** A directory slot: the 8.3 name, the attributes, 14 bytes the driver only clears, first cluster and size. */
  datatype Entry = Entry(name: seq<Byte>, attr: Byte, times: seq<Byte>, first: Half, size: Word)

  /** Cluster c has its link in fat[c] and its bytes in data[c]. */
  datatype Vol = Vol(fat: Table, root: seq<Entry>, data: seq<seq<Byte>>)

  /** Bytes per cluster, and the first cluster number past the data area. */
  datatype Geo = Geo(size: nat, top: nat)

  function Mark(e: Entry): Byte { if e.name == [] then END else e.name[0] }

  predicate Occupied(e: Entry) { Mark(e) != END && Mark(e) != DELETED }

  predicate Has(attr: Byte, bit: Byte)
    requires bit > 0
  {
    attr / bit % 2 == 1
  }

  predicate IsFile(e: Entry) { !Has(e.attr, VOLUME_ID) && !Has(e.attr, DIRECTORY) }

  // ----- directory search -----

  /** The first file called `name` before the end marker. */
  function Find(root: seq<Entry>, name: seq<Byte>, i: nat): (r: Option<nat>)
    requires i <= |root|
    ensures r.Some? ==> i <= r.value < |root| && Occupied(root[r.value]) && IsFile(root[r.value])
    ensures r.Some? ==> root[r.value].name == name
    decreases |root| - i
  {
    if i == |root| || Mark(root[i]) == END then None
    else if Mark(root[i]) != DELETED && IsFile(root[i]) && root[i].name == name then Some(i)
    else Find(root, name, i + 1)
  }

  /** Where a name goes: an old slot of that name, the first free slot before the end, or nowhere. */
  datatype Place = Old(at: nat) | New(at: nat) | Full

  /** `files`: directories do not count as old slots. */
  function Scan(root: seq<Entry>, name: seq<Byte>, files: bool, i: nat, free: Option<nat>): (r: Place)
    requires i <= |root| && (free.Some? ==> free.value < i && !Occupied(root[free.value]))
    ensures r.Old? ==> i <= r.at < |root| && Occupied(root[r.at]) && root[r.at].name == name
    ensures r.Old? ==> !Has(root[r.at].attr, VOLUME_ID)
    ensures r.Old? && files ==> IsFile(root[r.at])
    ensures r.New? ==> r.at < |root| && !Occupied(root[r.at])
    decreases |root| - i
  {
    if i == |root| then (if free.None? then Full else New(free.value))
    else if Mark(root[i]) == END then New(if free.None? then i else free.value)
    else if Mark(root[i]) == DELETED then Scan(root, name, files, i + 1, if free.None? then Some(i) else free)
    else if !Has(root[i].attr, VOLUME_ID) && !(files && Has(root[i].attr, DIRECTORY)) && root[i].name == name
    then Old(i)
    else Scan(root, name, files, i + 1, free)
  }

  // ----- cluster contents -----

  function Min(a: nat, b: nat): nat { if a < b then a else b }

  function Zeros(n: nat): (r: seq<Byte>)
    ensures |r| == n
  {
    seq(n, _ => 0)
  }

  function Pad(bytes: seq<Byte>, size: nat): (r: seq<Byte>)
    requires |bytes| <= size
    ensures |r| == size && bytes <= r
  {
    bytes + Zeros(size - |bytes|)
  }

  function Clusters(bytes: nat, size: nat): nat
    requires size > 0
  {
    (bytes + size - 1) / size
  }

  /** Writes `bytes` cluster after cluster, the rest of the last one zero. */
  function Filled(data: seq<seq<Byte>>, cs: seq<nat>, bytes: seq<Byte>, size: nat): (r: seq<seq<Byte>>)
    requires forall i :: 0 <= i < |cs| ==> cs[i] < |data|
    ensures |r| == |data|
    decreases |cs|
  {
    if cs == [] then data
    else
      var n := Min(size, |bytes|);
      Filled(data[cs[0] := Pad(bytes[..n], size)], cs[1..], bytes[n..], size)
  }

  function Content(data: seq<seq<Byte>>, cs: seq<nat>): seq<Byte>
    requires forall i :: 0 <= i < |cs| ==> cs[i] < |data|
  {
    if cs == [] then [] else data[cs[0]] + Content(data, cs[1..])
  }

  lemma {:induction false} FilledElsewhere(data: seq<seq<Byte>>, cs: seq<nat>, bytes: seq<Byte>, size: nat)
    requires forall i :: 0 <= i < |cs| ==> cs[i] < |data|
    ensures forall c :: 0 <= c < |data| && c !in cs ==> Filled(data, cs, bytes, size)[c] == data[c]
    ensures forall c :: 0 <= c < |data| && c in cs ==> |Filled(data, cs, bytes, size)[c]| == size
    decreases |cs|
  {
    hide Pad;
    if cs != [] {
      var n := Min(size, |bytes|);
      FilledElsewhere(data[cs[0] := Pad(bytes[..n], size)], cs[1..], bytes[n..], size);
      assert cs == [cs[0]] + cs[1..];
    }
  }

  /** What is written is what the chain holds. */
  lemma {:induction false} FilledContent(data: seq<seq<Byte>>, cs: seq<nat>, bytes: seq<Byte>, size: nat)
    requires Distinct(cs) && (forall i :: 0 <= i < |cs| ==> cs[i] < |data|) && |bytes| <= |cs| * size
    ensures var all := Content(Filled(data, cs, bytes, size), cs); bytes <= all && |all| == |cs| * size
    decreases |cs|
  {
    hide Pad;
    if cs != [] {
      var n, tail := Min(size, |bytes|), cs[1..];
      var data1 := data[cs[0] := Pad(bytes[..n], size)];
      assert |tail| * size == |cs| * size - size;
      FilledContent(data1, tail, bytes[n..], size);
      FilledElsewhere(data1, tail, bytes[n..], size);
      assert cs[0] !in tail;
      var all := Content(Filled(data, cs, bytes, size), cs);
      assert all == Pad(bytes[..n], size) + Content(Filled(data1, tail, bytes[n..], size), tail);
      PrefixJoin(bytes, n, Pad(bytes[..n], size), Content(Filled(data1, tail, bytes[n..], size), tail));
    }
  }

  lemma PrefixJoin(bytes: seq<Byte>, n: nat, a: seq<Byte>, b: seq<Byte>)
    requires n <= |bytes| && bytes[..n] <= a && bytes[n..] <= b && (n < |bytes| ==> |a| == n)
    ensures bytes <= a + b
  {
    assert forall k :: n <= k < |bytes| ==> bytes[k] == bytes[n..][k - n];
  }

  lemma {:induction false} ContentSame(data: seq<seq<Byte>>, data1: seq<seq<Byte>>, cs: seq<nat>)
    requires forall i :: 0 <= i < |cs| ==> cs[i] < |data| && cs[i] < |data1| && data[cs[i]] == data1[cs[i]]
    ensures Content(data, cs) == Content(data1, cs)
    decreases |cs|
  {
    if cs != [] { ContentSame(data, data1, cs[1..]); }
  }

  /** `n` bytes from offset `from` on, zero past the end. */
  function Padded(bytes: seq<Byte>, from: nat, n: nat): (r: seq<Byte>)
    ensures |r| == n
  {
    seq(n, i requires 0 <= i < n => if from + i < |bytes| then bytes[from + i] else 0)
  }

  lemma PaddedJoin(bytes: seq<Byte>, from: nat, n: nat, m: nat)
    ensures Padded(bytes, from, n) + Padded(bytes, from + n, m) == Padded(bytes, from, n + m)
  {
  }

  lemma PaddedIs(bytes: seq<Byte>, from: nat, n: nat)
    requires from <= |bytes|
    ensures var k := Min(n, |bytes| - from); Padded(bytes, from, n) == Pad(bytes[from..from + k], n)
  {
  }

  /** One cluster of a fill. */
  lemma FilledStep(data: seq<seq<Byte>>, cs: seq<nat>, k: nat, bytes: seq<Byte>, from: nat, size: nat)
    requires k < |cs| && from <= |bytes| && forall i :: 0 <= i < |cs| ==> cs[i] < |data|
    ensures Filled(data, cs[k..], bytes[from..], size)
         == Filled(data[cs[k] := Padded(bytes, from, size)], cs[k + 1..], bytes[Min(|bytes|, from + size)..], size)
  {
    hide Pad, Padded;
    PaddedIs(bytes, from, size);
    var rest := bytes[from..];
    var n := Min(size, |rest|);
    assert rest[..n] == bytes[from..from + n] && rest[n..] == bytes[from + n..];
    assert cs[k..][1..] == cs[k + 1..];
  }

  lemma {:induction false} ContentJoin(data: seq<seq<Byte>>, a: seq<nat>, b: seq<nat>)
    requires (forall i :: 0 <= i < |a| ==> a[i] < |data|) && (forall i :: 0 <= i < |b| ==> b[i] < |data|)
    ensures Content(data, a + b) == Content(data, a) + Content(data, b)
    decreases |a|
  {
    if a == [] {
      assert a + b == b;
    } else {
      assert (a + b)[1..] == a[1..] + b;
      ContentJoin(data, a[1..], b);
    }
  }

  /** Cluster k of a chain's content. */
  lemma ContentAt(data: seq<seq<Byte>>, cs: seq<nat>, k: nat)
    requires k < |cs| && forall i :: 0 <= i < |cs| ==> cs[i] < |data|
    ensures Content(data, cs) == Content(data, cs[..k]) + data[cs[k]] + Content(data, cs[k + 1..])
  {
    hide Content;
    var a, b := cs[..k], cs[k..];
    assert cs == a + b && b[1..] == cs[k + 1..] && b[0] == cs[k];
    ContentJoin(data, a, b);
    ContentCons(data, b);
    Joins(Content(data, a), data[cs[k]], Content(data, cs[k + 1..]));
  }

  lemma ContentCons(data: seq<seq<Byte>>, cs: seq<nat>)
    requires cs != [] && forall i :: 0 <= i < |cs| ==> cs[i] < |data|
    ensures Content(data, cs) == data[cs[0]] + Content(data, cs[1..])
  {
  }

  lemma Joins(a: seq<Byte>, b: seq<Byte>, c: seq<Byte>)
    ensures a + (b + c) == a + b + c
  {
  }
}
