/** The root-level file operations keep a volume consistent, and reading returns what was written. */
module FatFiles {
  import opened Basics
  import opened FatTable
  import opened FatVolume

  // ----- operations -----

  function FirstOf(cs: seq<nat>): nat { if cs == [] then 0 else cs[0] }

  /** Tables and clusters have the sizes of the geometry. */
  ghost predicate Sized(v: Vol, g: Geo)
  {
    && g.size > 0 && 2 <= g.top <= |v.fat| && g.top <= BAD && |v.data| == g.top && Inside(v.fat)
    && (forall i :: 0 <= i < |v.root| ==> |v.root[i].name| == 11 && |v.root[i].times| == 14)
    && (forall i :: 0 <= i < |v.root| && IsLink(v.root[i].first) ==> v.root[i].first < |v.fat|)
    && (forall c :: 2 <= c < g.top ==> |v.data[c]| == g.size)
  }

  function Blank(name: seq<Byte>, attr: Byte, first: Half, size: Word): Entry
  {
    Entry(name, attr, Zeros(14), first, size)
  }

  /** A new entry at slot `i`. A free slot right after it in the same sector becomes the end marker,
      also when that slot was only a deleted one. */
  function Created(root: seq<Entry>, i: nat, e: Entry): (r: seq<Entry>)
    requires i < |root| && forall k :: 0 <= k < |root| ==> |root[k].name| == 11
    ensures |r| == |root|
  {
    var r := root[i := e];
    if (i + 1) % 16 != 0 && i + 1 < |root| && Mark(e) != DELETED && !Occupied(root[i + 1])
    then r[i + 1 := root[i + 1].(name := root[i + 1].name[0 := END])] else r
  }

  /** The clusters for `n` bytes: the lowest free ones. */
  function Chosen(fat: Table, g: Geo, n: nat): seq<nat>
    requires 2 <= g.top <= |fat| && g.size > 0
  {
    var free := FreeList(fat, 2, g.top);
    free[..Min(|free|, Clusters(n, g.size))]
  }

  predicate Fits(fat: Table, g: Geo, n: nat)
    requires 2 <= g.top <= |fat| && g.size > 0
  {
    Clusters(n, g.size) <= |FreeList(fat, 2, g.top)|
  }

  /** Frees the chain of an entry that has one. */
  function Released(fat: Table, first: Half): (r: Table)
    requires Inside(fat) && (IsLink(first) ==> first < |fat|)
    ensures |r| == |fat| && Inside(r)
  {
    if first >= 2 then Freed(fat, first) else fat
  }

  /** Allocates and links `cs`, then gives them back. */
  ghost function Undone(fat: Table, g: Geo, cs: seq<nat>): Table
    requires Inside(fat) && g.top <= |fat| && g.top <= BAD && Distinct(cs)
    requires forall i :: 0 <= i < |cs| ==> 2 <= cs[i] < g.top
  {
    LinkedInside(fat, cs);
    if cs == [] then fat else Freed(Linked(fat, cs), cs[0])
  }

  /** Creates or replaces the file `name`; the flag says whether it succeeded. */
  ghost function WriteFile(v: Vol, g: Geo, name: seq<Byte>, bytes: seq<Byte>): (r: (Vol, bool))
    requires Sized(v, g) && |name| == 11 && |bytes| < 0x8000_0000
  {
    var cs := Chosen(v.fat, g, |bytes|);
    ChosenFree(v.fat, g, |bytes|);
    if !Fits(v.fat, g, |bytes|) then (v.(fat := Undone(v.fat, g, cs)), false)
    else
      LinkedInside(v.fat, cs);
      var fat, data := Linked(v.fat, cs), Filled(v.data, cs, bytes, g.size);
      match Scan(v.root, name, true, 0, None)
      case Full => (Vol(Undone(v.fat, g, cs), v.root, data), false)
      case Old(i) =>
        (Vol(Released(fat, v.root[i].first),
             v.root[i := v.root[i].(first := FirstOf(cs), size := |bytes|, attr := ARCHIVE)], data), true)
      case New(i) =>
        (Vol(fat, Created(v.root, i, Blank(name, ARCHIVE, FirstOf(cs), |bytes|)), data), true)
  }

  function DeleteFile(v: Vol, g: Geo, name: seq<Byte>): (r: (Vol, bool))
    requires |v.fat| > 0 && Inside(v.fat) && (forall i :: 0 <= i < |v.root| ==> |v.root[i].name| == 11)
    requires forall i :: 0 <= i < |v.root| && IsLink(v.root[i].first) ==> v.root[i].first < |v.fat|
  {
    match Find(v.root, name, 0)
    case None => (v, false)
    case Some(i) =>
      (v.(fat := Released(v.fat, v.root[i].first),
          root := v.root[i := v.root[i].(name := v.root[i].name[0 := DELETED])]), true)
  }

  /** The first cluster of a new directory: its `.` and `..` entries, then zeroes. */
  function DirBytes(c: Half, size: nat): seq<Byte>
    requires size >= 64
  {
    Dot([0x2E, 0x20], c) + Dot([0x2E, 0x2E], 0) + Zeros(size - 64)
  }

  function Dot(start: seq<Byte>, c: Half): (r: seq<Byte>)
    requires |start| == 2
    ensures |r| == 32
  {
    start + seq(9, _ => 0x20) + [DIRECTORY] + Zeros(14) + [c % 256, c / 256] + Zeros(4)
  }

  /** Creates a directory of one cluster. */
  ghost function Mkdir(v: Vol, g: Geo, name: seq<Byte>): (r: (Vol, bool))
    requires Sized(v, g) && |name| == 11 && g.size >= 64
  {
    match Scan(v.root, name, false, 0, None)
    case Old(_) => (v, false)
    case Full => (v, false)
    case New(i) =>
      var free := FreeList(v.fat, 2, g.top);
      if free == [] then (v, false)
      else
        var c := free[0];
        (Vol(v.fat[c := EOC_MAX], v.root[i := Blank(name, DIRECTORY, c, 0)], v.data[c := DirBytes(c, g.size)]), true)
  }

  lemma ChosenFree(fat: Table, g: Geo, n: nat)
    requires 2 <= g.top <= |fat| && g.top <= BAD && g.size > 0
    ensures var cs := Chosen(fat, g, n);
      Distinct(cs) && forall i :: 0 <= i < |cs| ==> 2 <= cs[i] < g.top && fat[cs[i]] == FREE
  {
    hide Clusters;
  }

  // ----- the invariant -----

  /** How many clusters an entry must have. */
  function Length(e: Entry, g: Geo): nat
    requires g.size > 0
  {
    if Has(e.attr, VOLUME_ID) then 0 else if Has(e.attr, DIRECTORY) then 1 else Clusters(e.size, g.size)
  }

  /** Slot contents `e` own the chain `cs`. */
  ghost predicate Owns(e: Entry, fat: Table, g: Geo, cs: seq<nat>)
    requires g.size > 0
  {
    if !Occupied(e) then cs == []
    else
      && IsChain(fat, cs, g.top) && |cs| == Length(e, g)
      && (cs != [] ==> e.first == cs[0]) && (cs == [] ==> e.first < 2)
  }

  predicate Used(fat: Table, c: nat)
    requires c < |fat|
  {
    fat[c] != FREE && fat[c] != BAD
  }

  /** Cluster c is on the chain of slot i. */
  predicate On(chains: seq<seq<nat>>, i: int, c: nat) { 0 <= i < |chains| && c in chains[i] }

  ghost predicate Apart(chains: seq<seq<nat>>)
  {
    forall i, j, c: nat :: On(chains, i, c) && On(chains, j, c) ==> i == j
  }

  ghost predicate Covered(fat: Table, g: Geo, chains: seq<seq<nat>>)
    requires g.top <= |fat|
  {
    forall c :: 2 <= c < g.top && Used(fat, c) ==> exists i :: On(chains, i, c)
  }

  /** `chains[i]` is the chain of slot i; chains do not meet, and every cluster in use is on one. */
  ghost predicate Valid(v: Vol, g: Geo, chains: seq<seq<nat>>)
  {
    && Sized(v, g) && |chains| == |v.root|
    && (forall i :: 0 <= i < |v.root| ==> Owns(v.root[i], v.fat, g, chains[i]))
    && Apart(chains) && Covered(v.fat, g, chains)
  }

  predicate SameSlot(a: Entry, b: Entry) { a == b || (!Occupied(a) && !Occupied(b)) }

  /** What an operation on slot `i` must leave alone so that `chains[i := ns]` are the new chains. */
  ghost predicate Swaps(v: Vol, w: Vol, g: Geo, chains: seq<seq<nat>>, i: nat, ns: seq<nat>)
  {
    && |w.root| == |v.root| == |chains| && i < |chains| && |w.fat| == |v.fat| && g.top <= |v.fat|
    && (forall j :: 0 <= j < |v.root| && j != i ==> SameSlot(v.root[j], w.root[j]))
    && (forall j, c: nat :: On(chains, j, c) && j != i ==> c < |v.fat| && w.fat[c] == v.fat[c] && c !in ns)
    && (forall c :: 2 <= c < g.top && Used(w.fat, c) ==> c in ns || (Used(v.fat, c) && !On(chains, i, c)))
  }

  lemma Swapped(v: Vol, w: Vol, g: Geo, chains: seq<seq<nat>>, i: nat, ns: seq<nat>)
    requires Valid(v, g, chains) && Sized(w, g) && Swaps(v, w, g, chains, i, ns) && Owns(w.root[i], w.fat, g, ns)
    ensures Valid(w, g, chains[i := ns])
  {
    hide Length, Used;
    var chains1 := chains[i := ns];
    forall j | 0 <= j < |w.root|
      ensures Owns(w.root[j], w.fat, g, chains1[j])
    {
      if j != i {
        assert SameSlot(v.root[j], w.root[j]) && Owns(v.root[j], v.fat, g, chains[j]);
        assert forall c :: c in chains[j] ==> On(chains, j, c);
        OwnsSame(v.root[j], w.root[j], v.fat, w.fat, g, chains[j]);
      }
    }
    SwappedApart(chains, i, ns);
    forall c | 2 <= c < g.top && Used(w.fat, c)
      ensures exists j :: On(chains1, j, c)
    {
      if c in ns {
        assert On(chains1, i, c);
      } else {
        var j :| On(chains, j, c);
        assert On(chains1, j, c);
      }
    }
  }

  lemma SwappedApart(chains: seq<seq<nat>>, i: nat, ns: seq<nat>)
    requires Apart(chains) && i < |chains| && (forall j, c: nat :: On(chains, j, c) && j != i ==> c !in ns)
    ensures Apart(chains[i := ns])
  {
    var chains1 := chains[i := ns];
    forall j, k, c: nat | On(chains1, j, c) && On(chains1, k, c)
      ensures j == k
    {
      assert j != i ==> On(chains, j, c);
      assert k != i ==> On(chains, k, c);
    }
  }

  lemma OwnsSame(e: Entry, e1: Entry, fat: Table, fat1: Table, g: Geo, cs: seq<nat>)
    requires g.size > 0 && SameSlot(e, e1) && Owns(e, fat, g, cs) && |fat1| == |fat|
    requires forall c :: c in cs ==> c < |fat| && fat1[c] == fat[c]
    ensures Owns(e1, fat1, g, cs)
  {
    hide Length;
    if Occupied(e) {
      forall k | 0 <= k < |cs| - 1
        ensures fat1[cs[k]] == cs[k + 1]
      {
        assert cs[k] in cs;
      }
      if cs != [] { assert cs[|cs| - 1] in cs; }
    }
  }

  // ----- operations keep the invariant -----

  /** Releasing an occupied slot clears exactly its chain. */
  lemma ReleasedChain(e: Entry, fat: Table, g: Geo, cs: seq<nat>)
    requires g.size > 0 && Occupied(e) && Owns(e, fat, g, cs) && Inside(fat) && (IsLink(e.first) ==> e.first < |fat|)
    ensures forall c :: 0 <= c < |fat| ==> Released(fat, e.first)[c] == if c in cs then 0 else fat[c]
  {
    hide Length;
    if cs != [] { FreedChain(fat, cs, g.top); }
  }

  /** The clusters of a chain are in use. */
  lemma ChainUsed(fat: Table, cs: seq<nat>, top: nat, c: nat)
    requires IsChain(fat, cs, top) && c in cs
    ensures 2 <= c < top && Used(fat, c)
  {
    var i :| 0 <= i < |cs| && cs[i] == c;
    if i < |cs| - 1 { assert fat[cs[i]] == cs[i + 1]; }
  }

  lemma OwnedUsed(v: Vol, g: Geo, chains: seq<seq<nat>>, i: nat, c: nat)
    requires Valid(v, g, chains) && i < |chains| && c in chains[i]
    ensures 2 <= c < g.top && Used(v.fat, c)
  {
    hide Length, Apart, Covered, IsChain;
    assert Owns(v.root[i], v.fat, g, chains[i]);
    ChainUsed(v.fat, chains[i], g.top, c);
  }

  lemma DeleteSwaps(v: Vol, g: Geo, chains: seq<seq<nat>>, name: seq<Byte>, i: nat)
    requires Valid(v, g, chains) && Find(v.root, name, 0) == Some(i)
    ensures Swaps(v, DeleteFile(v, g, name).0, g, chains, i, [])
  {
    hide Find, Length, Owns, IsChain, Released;
    assert Owns(v.root[i], v.fat, g, chains[i]);
    ReleasedChain(v.root[i], v.fat, g, chains[i]);
    var w := DeleteFile(v, g, name).0;
    forall j, c: nat | On(chains, j, c) && j != i
      ensures c < |v.fat| && w.fat[c] == v.fat[c]
    {
      OwnedUsed(v, g, chains, j, c);
      assert !On(chains, i, c);
    }
  }

  /** Deleting keeps the volume consistent; the slot's clusters become free and no other entry changes. */
  lemma DeleteValid(v: Vol, g: Geo, chains: seq<seq<nat>>, name: seq<Byte>)
    requires Valid(v, g, chains)
    ensures var (w, ok) := DeleteFile(v, g, name);
      if ok then Find(v.root, name, 0).Some? && Valid(w, g, chains[Find(v.root, name, 0).value := []]) else w == v
  {
    match Find(v.root, name, 0)
    case None =>
    case Some(i) =>
      hide Find, Length, IsChain, Released, Swaps, Apart, Covered;
      DeleteSwaps(v, g, chains, name, i);
      var w := DeleteFile(v, g, name).0;
      assert Mark(w.root[i]) == DELETED;
      Swapped(v, w, g, chains, i, []);
  }

  /** Newly chosen clusters are on no chain, and linking them changes no chain. */
  lemma ChosenApart(v: Vol, g: Geo, chains: seq<seq<nat>>, n: nat)
    requires Valid(v, g, chains)
    ensures var cs := Chosen(v.fat, g, n);
      && Distinct(cs) && (forall k :: 0 <= k < |cs| ==> 2 <= cs[k] < g.top && v.fat[cs[k]] == FREE)
      && (forall j, c: nat :: On(chains, j, c) ==> c !in cs && c < |v.fat| && Linked(v.fat, cs)[c] == v.fat[c])
  {
    hide Chosen, Valid;
    ValidSized(v, g, chains);
    ChosenFree(v.fat, g, n);
    var cs := Chosen(v.fat, g, n);
    LinkedIs(v.fat, cs);
    forall j, c: nat | On(chains, j, c)
      ensures c !in cs && c < |v.fat| && Linked(v.fat, cs)[c] == v.fat[c]
    {
      OwnedUsed(v, g, chains, j, c);
    }
  }

  lemma ValidSized(v: Vol, g: Geo, chains: seq<seq<nat>>)
    requires Valid(v, g, chains)
    ensures Sized(v, g) && |chains| == |v.root|
  {
  }

  /** The table after a write to slot `i` that releases its old chain. */
  lemma WrittenTable(v: Vol, g: Geo, chains: seq<seq<nat>>, i: nat, n: nat) returns (cs: seq<nat>, fat: Table)
    requires Valid(v, g, chains) && i < |chains|
    ensures cs == Chosen(v.fat, g, n) && |fat| == |v.fat| && Inside(fat) && Inside(Linked(v.fat, cs))
    ensures fat == if Occupied(v.root[i]) then Released(Linked(v.fat, cs), v.root[i].first) else Linked(v.fat, cs)
    ensures forall c :: 0 <= c < |fat| ==> fat[c] == if On(chains, i, c) then 0 else Linked(v.fat, cs)[c]
  {
    hide Chosen, Length, Released, Covered, Apart, Linked;
    cs := Chosen(v.fat, g, n);
    ChosenApart(v, g, chains, n);
    LinkedInside(v.fat, cs);
    var linked := Linked(v.fat, cs);
    assert Owns(v.root[i], v.fat, g, chains[i]);
    if Occupied(v.root[i]) {
      fat := Released(linked, v.root[i].first);
      assert forall c :: c in chains[i] ==> On(chains, i, c);
      OwnsSame(v.root[i], v.root[i], v.fat, linked, g, chains[i]);
      ReleasedChain(v.root[i], linked, g, chains[i]);
    } else {
      fat := linked;
    }
  }

  /** In that table the new chain is a chain, other chains are unchanged, and nothing else is in use. */
  lemma WrittenSwaps(v: Vol, w: Vol, g: Geo, chains: seq<seq<nat>>, i: nat, n: nat)
    requires Valid(v, g, chains) && i < |chains| && |w.root| == |v.root| && |w.fat| == |v.fat|
    requires forall c :: 0 <= c < |v.fat| ==>
      w.fat[c] == if On(chains, i, c) then 0 else Linked(v.fat, Chosen(v.fat, g, n))[c]
    requires forall j :: 0 <= j < |v.root| && j != i ==> SameSlot(v.root[j], w.root[j])
    ensures Swaps(v, w, g, chains, i, Chosen(v.fat, g, n)) && IsChain(w.fat, Chosen(v.fat, g, n), g.top)
  {
    hide Chosen, Owns, Covered, Linked, SameSlot;
    var cs := Chosen(v.fat, g, n);
    ChosenApart(v, g, chains, n);
    LinkedIs(v.fat, cs);
    forall k | 0 <= k < |cs|
      ensures w.fat[cs[k]] == Linked(v.fat, cs)[cs[k]]
    {
      assert !On(chains, i, cs[k]);
    }
    forall k | 0 <= k < |cs| - 1
      ensures w.fat[cs[k]] == cs[k + 1]
    {
      assert w.fat[cs[k]] == Linked(v.fat, cs)[cs[k]];
    }
    if cs != [] {
      var last := |cs| - 1;
      assert w.fat[cs[last]] == Linked(v.fat, cs)[cs[last]] == EOC_MAX;
    }
  }

  lemma CreatedSlots(root: seq<Entry>, i: nat, e: Entry)
    requires i < |root| && (forall k :: 0 <= k < |root| ==> |root[k].name| == 11 && |root[k].times| == 14)
    requires |e.name| == 11 && |e.times| == 14
    ensures var r := Created(root, i, e);
      && r[i] == e && (forall j :: 0 <= j < |root| && j != i ==> SameSlot(root[j], r[j]))
      && (forall j :: 0 <= j < |root| && j != i ==>
            r[j].first == root[j].first && r[j].size == root[j].size && r[j].attr == root[j].attr)
      && (forall k :: 0 <= k < |root| ==> |r[k].name| == 11 && |r[k].times| == 14)
  {
  }

  /** The outcome of a write that finds a slot. */
  lemma WriteIs(v: Vol, g: Geo, chains: seq<seq<nat>>, name: seq<Byte>, bytes: seq<Byte>) returns (i: nat, w: Vol)
    requires Valid(v, g, chains) && |name| == 11 && |bytes| < 0x8000_0000 && Fits(v.fat, g, |bytes|)
    requires !Scan(v.root, name, true, 0, None).Full?
    ensures i == Scan(v.root, name, true, 0, None).at < |v.root| && WriteFile(v, g, name, bytes) == (w, true)
    ensures var cs := Chosen(v.fat, g, |bytes|);
      && Sized(w, g) && |w.root| == |v.root| && w.data == Filled(v.data, cs, bytes, g.size) && |w.fat| == |v.fat|
      && (forall c :: 0 <= c < |v.fat| ==> w.fat[c] == if On(chains, i, c) then 0 else Linked(v.fat, cs)[c])
      && (forall j :: 0 <= j < |v.root| && j != i ==> SameSlot(v.root[j], w.root[j]))
      && w.root[i].name == name && w.root[i].attr == ARCHIVE && w.root[i].first == FirstOf(cs)
      && w.root[i].size == |bytes|
  {
    hide Chosen, Valid, Released, Linked, Filled, Scan, Created, Fits;
    ValidSized(v, g, chains);
    ChosenFree(v.fat, g, |bytes|);
    var p := Scan(v.root, name, true, 0, None);
    i := p.at;
    var cs, fat := WrittenTable(v, g, chains, i, |bytes|);
    w := WriteFile(v, g, name, bytes).0;
    FilledElsewhere(v.data, cs, bytes, g.size);
    if p.New? { CreatedSlots(v.root, i, Blank(name, ARCHIVE, FirstOf(cs), |bytes|)); }
  }

  lemma UndoneSame(fat: Table, g: Geo, n: nat)
    requires Inside(fat) && 2 <= g.top <= |fat| && g.top <= BAD && g.size > 0
    ensures var cs := Chosen(fat, g, n);
      && Distinct(cs) && (forall i :: 0 <= i < |cs| ==> 2 <= cs[i] < g.top) && Undone(fat, g, cs) == fat
  {
    hide Chosen, Freed, Linked;
    ChosenFree(fat, g, n);
    var cs := Chosen(fat, g, n);
    if cs != [] { LinkedFreed(fat, cs, g.top); }
  }

  /** A write fails exactly when the clusters or the slots do not suffice, and then leaves
      table and directory as they were. */
  lemma WriteFails(v: Vol, g: Geo, name: seq<Byte>, bytes: seq<Byte>)
    requires Sized(v, g) && |name| == 11 && |bytes| < 0x8000_0000
    ensures var (w, ok) := WriteFile(v, g, name, bytes);
      && (ok <==> Fits(v.fat, g, |bytes|) && !Scan(v.root, name, true, 0, None).Full?)
      && (!ok ==> w.fat == v.fat && w.root == v.root && Sized(w, g))
      && (!ok ==> forall c :: 2 <= c < g.top && Used(v.fat, c) ==> w.data[c] == v.data[c])
  {
    hide Chosen, Released, Linked, Filled, Scan, Created, Fits, Undone;
    ChosenFree(v.fat, g, |bytes|);
    UndoneSame(v.fat, g, |bytes|);
    FilledElsewhere(v.data, Chosen(v.fat, g, |bytes|), bytes, g.size);
  }

  /** A name whose entry counts as occupied. */
  predicate Proper(name: seq<Byte>) { |name| == 11 && name[0] != END && name[0] != DELETED }

  lemma ChosenCount(fat: Table, g: Geo, n: nat)
    requires 2 <= g.top <= |fat| && g.size > 0 && Fits(fat, g, n)
    ensures |Chosen(fat, g, n)| == Clusters(n, g.size)
  {
    hide Clusters;
  }

  /** Writing keeps the volume consistent: the slot owns a new chain of the right length. */
  lemma WriteValid(v: Vol, g: Geo, chains: seq<seq<nat>>, name: seq<Byte>, bytes: seq<Byte>)
    requires Valid(v, g, chains) && Proper(name) && |bytes| < 0x8000_0000
    ensures var (w, ok) := WriteFile(v, g, name, bytes);
      if ok then Valid(w, g, chains[Scan(v.root, name, true, 0, None).at := Chosen(v.fat, g, |bytes|)])
      else Valid(w, g, chains)
  {
    hide Chosen, WriteFile, Linked, Filled, Scan, Fits, Swaps, IsChain, Clusters, Apart, Covered;
    WriteFails(v, g, name, bytes);
    if WriteFile(v, g, name, bytes).1 {
      var i, w := WriteIs(v, g, chains, name, bytes);
      WrittenSwaps(v, w, g, chains, i, |bytes|);
      ChosenCount(v.fat, g, |bytes|);
      Swapped(v, w, g, chains, i, Chosen(v.fat, g, |bytes|));
    }
  }

  lemma MkdirIs(v: Vol, g: Geo, chains: seq<seq<nat>>, name: seq<Byte>) returns (i: nat, c: nat, w: Vol)
    requires Valid(v, g, chains) && |name| == 11 && g.size >= 64 && Mkdir(v, g, name).1
    ensures Scan(v.root, name, false, 0, None) == New(i) && i < |v.root| && Mkdir(v, g, name) == (w, true)
    ensures 2 <= c < g.top && v.fat[c] == FREE && w.fat == v.fat[c := EOC_MAX]
    ensures w.root == v.root[i := Blank(name, DIRECTORY, c, 0)]
    ensures w.data == v.data[c := DirBytes(c, g.size)] && chains[i] == []
  {
    hide Scan, IsChain, Length, Apart, Covered;
    i := Scan(v.root, name, false, 0, None).at;
    c := FreeList(v.fat, 2, g.top)[0];
    w := Mkdir(v, g, name).0;
    assert Owns(v.root[i], v.fat, g, chains[i]);
  }

  /** Creating a directory keeps the volume consistent: the slot owns one cluster. */
  lemma MkdirValid(v: Vol, g: Geo, chains: seq<seq<nat>>, name: seq<Byte>)
    requires Valid(v, g, chains) && Proper(name) && g.size >= 64
    ensures var (w, ok) := Mkdir(v, g, name);
      var place := Scan(v.root, name, false, 0, None);
      if ok then place.New? && exists c: nat :: Valid(w, g, chains[place.at := [c]]) else w == v
  {
    hide Scan, Mkdir, Swaps, Owns, Proper, Apart, Covered;
    ProperLong(name);
    MkdirFails(v, g, name);
    if Mkdir(v, g, name).1 {
      var i, c, w := MkdirIs(v, g, chains, name);
      MkdirSwaps(v, w, g, chains, i, c, Blank(name, DIRECTORY, c, 0));
      MkdirSized(v, w, g, i, c, name);
      MkdirOwns(w.fat, g, c, name);
      Swapped(v, w, g, chains, i, [c]);
    }
  }

  /** Where there is no slot or no cluster, nothing changes. */
  lemma MkdirFails(v: Vol, g: Geo, name: seq<Byte>)
    requires Sized(v, g) && |name| == 11 && g.size >= 64
    ensures var (w, ok) := Mkdir(v, g, name); ok || w == v
  {
  }

  lemma ProperLong(name: seq<Byte>)
    requires Proper(name)
    ensures |name| == 11
  {
  }

  lemma MkdirSwaps(v: Vol, w: Vol, g: Geo, chains: seq<seq<nat>>, i: nat, c: nat, e: Entry)
    requires Valid(v, g, chains) && i < |v.root| && chains[i] == [] && 2 <= c < g.top && v.fat[c] == FREE
    requires w.fat == v.fat[c := EOC_MAX] && w.root == v.root[i := e]
    ensures Swaps(v, w, g, chains, i, [c])
  {
    hide Owns, Apart, Covered, SameSlot;
    forall j, d: nat | On(chains, j, d)
      ensures d < |v.fat| && d != c
    {
      OwnedUsed(v, g, chains, j, d);
    }
    forall j | 0 <= j < |v.root| && j != i
      ensures SameSlot(v.root[j], w.root[j])
    {
      SlotItself(v.root[j]);
    }
  }

  lemma SlotItself(e: Entry)
    ensures SameSlot(e, e)
  {
  }

  lemma MkdirSized(v: Vol, w: Vol, g: Geo, i: nat, c: nat, name: seq<Byte>)
    requires Sized(v, g) && i < |v.root| && |name| == 11 && g.size >= 64 && 2 <= c < g.top
    requires w.fat == v.fat[c := EOC_MAX] && w.root == v.root[i := Blank(name, DIRECTORY, c, 0)]
    requires w.data == v.data[c := DirBytes(c, g.size)]
    ensures Sized(w, g)
  {
    hide DirBytes, Zeros;
    DirLength(c, g.size);
  }

  lemma MkdirOwns(fat: Table, g: Geo, c: nat, name: seq<Byte>)
    requires Proper(name) && g.size > 0 && 2 <= c < g.top <= |fat| && g.top <= BAD && fat[c] == EOC_MAX
    ensures Owns(Blank(name, DIRECTORY, c, 0), fat, g, [c])
  {
    hide Zeros;
  }

  lemma DirLength(c: Half, size: nat)
    requires size >= 64
    ensures |DirBytes(c, size)| == size && |Zeros(14)| == 14
  {
  }

  // ----- a deleted-marked name loses its clusters -----

  /** A chain is determined by where it starts. */
  lemma {:induction false} ChainUnique(fat: Table, a: seq<nat>, b: seq<nat>, top: nat, k: nat)
    requires IsChain(fat, a, top) && IsChain(fat, b, top) && |a| == |b| && k < |a| && a[0] == b[0]
    ensures a[k] == b[k]
  {
    if k > 0 { ChainUnique(fat, a, b, top, k - 1); }
  }

  /** An entry whose first byte marks it as deleted leaves its clusters on no chain. */
  lemma WriteLoses(v: Vol, g: Geo, chains: seq<seq<nat>>, name: seq<Byte>, bytes: seq<Byte>, chains1: seq<seq<nat>>)
    requires Valid(v, g, chains) && |name| == 11 && !Proper(name) && 0 < |bytes| < 0x8000_0000
    requires WriteFile(v, g, name, bytes).1
    ensures !Valid(WriteFile(v, g, name, bytes).0, g, chains1)
  {
    hide Chosen, WriteFile, Linked, Filled, Scan, Fits, Clusters;
    WriteFails(v, g, name, bytes);
    var i, w := WriteIs(v, g, chains, name, bytes);
    WrittenSwaps(v, w, g, chains, i, |bytes|);
    ChosenCount(v.fat, g, |bytes|);
    ChosenApart(v, g, chains, |bytes|);
    SomeClusters(|bytes|, g.size);
    if Valid(w, g, chains1) {
      var c := Chosen(v.fat, g, |bytes|)[0];
      ChainUsed(w.fat, Chosen(v.fat, g, |bytes|), g.top, c);
      var j :| On(chains1, j, c);
      assert Owns(w.root[j], w.fat, g, chains1[j]) && Owns(v.root[j], v.fat, g, chains[j]);
      assert j != i && SameSlot(v.root[j], w.root[j]);
      assert forall d :: d in chains[j] ==> On(chains, j, d);
      OwnsSame(v.root[j], w.root[j], v.fat, w.fat, g, chains[j]);
      var k :| 0 <= k < |chains1[j]| && chains1[j][k] == c;
      ChainUnique(w.fat, chains1[j], chains[j], g.top, k);
      assert false;
    }
  }

  lemma SomeClusters(n: nat, size: nat)
    requires n > 0 && size > 0
    ensures Clusters(n, size) > 0
  {
  }

  /** A successful write of at least one byte leaves a consistent volume exactly when the
      first byte of the name is not one of the two marks. */
  lemma WriteValidExactly(v: Vol, g: Geo, chains: seq<seq<nat>>, name: seq<Byte>, bytes: seq<Byte>)
    requires Valid(v, g, chains) && |name| == 11 && 0 < |bytes| < 0x8000_0000 && WriteFile(v, g, name, bytes).1
    ensures (exists chains1 :: Valid(WriteFile(v, g, name, bytes).0, g, chains1)) <==> Proper(name)
  {
    hide Valid, WriteFile, Scan, Chosen;
    ValidSized(v, g, chains);
    if Proper(name) {
      WriteValid(v, g, chains, name, bytes);
      WriteFails(v, g, name, bytes);
      var chains1 := chains[Scan(v.root, name, true, 0, None).at := Chosen(v.fat, g, |bytes|)];
      assert Valid(WriteFile(v, g, name, bytes).0, g, chains1);
    } else {
      forall chains1
        ensures !Valid(WriteFile(v, g, name, bytes).0, g, chains1)
      {
        WriteLoses(v, g, chains, name, bytes, chains1);
      }
    }
  }

  /** A directory entry whose first byte marks it as deleted leaves its cluster on no chain. */
  lemma MkdirLoses(v: Vol, g: Geo, chains: seq<seq<nat>>, name: seq<Byte>, chains1: seq<seq<nat>>)
    requires Valid(v, g, chains) && |name| == 11 && !Proper(name) && g.size >= 64 && Mkdir(v, g, name).1
    ensures !Valid(Mkdir(v, g, name).0, g, chains1)
  {
    hide Mkdir, Scan, Length, Zeros, DirBytes;
    var i, c, w := MkdirIs(v, g, chains, name);
    MkdirSwaps(v, w, g, chains, i, c, Blank(name, DIRECTORY, c, 0));
    if Valid(w, g, chains1) {
      assert Used(w.fat, c);
      var j :| On(chains1, j, c);
      assert Owns(w.root[j], w.fat, g, chains1[j]) && Owns(v.root[j], v.fat, g, chains[j]);
      assert j != i && SameSlot(v.root[j], w.root[j]);
      assert forall d :: d in chains[j] ==> On(chains, j, d);
      OwnsSame(v.root[j], w.root[j], v.fat, w.fat, g, chains[j]);
      var k :| 0 <= k < |chains1[j]| && chains1[j][k] == c;
      ChainUnique(w.fat, chains1[j], chains[j], g.top, k);
      assert false;
    }
  }

  /** Creating a directory leaves a consistent volume exactly when the first byte of the name is not a mark. */
  lemma MkdirValidExactly(v: Vol, g: Geo, chains: seq<seq<nat>>, name: seq<Byte>)
    requires Valid(v, g, chains) && |name| == 11 && g.size >= 64 && Mkdir(v, g, name).1
    ensures (exists chains1 :: Valid(Mkdir(v, g, name).0, g, chains1)) <==> Proper(name)
  {
    hide Valid, Mkdir, Scan;
    ValidSized(v, g, chains);
    if Proper(name) {
      MkdirValid(v, g, chains, name);
      var c: nat :| Valid(Mkdir(v, g, name).0, g, chains[Scan(v.root, name, false, 0, None).at := [c]]);
    } else {
      forall chains1
        ensures !Valid(Mkdir(v, g, name).0, g, chains1)
      {
        MkdirLoses(v, g, chains, name, chains1);
      }
    }
  }

  // ----- reading back -----

  /** No slot before `i` ends a search for the file `name`. */
  predicate Passed(root: seq<Entry>, name: seq<Byte>, i: nat)
    requires i <= |root|
  {
    forall k :: 0 <= k < i ==> Mark(root[k]) != END && !(Occupied(root[k]) && IsFile(root[k]) && root[k].name == name)
  }

  lemma {:induction false} ScanPassed(root: seq<Entry>, name: seq<Byte>, i: nat, free: Option<nat>)
    requires i <= |root| && (free.Some? ==> free.value < i && !Occupied(root[free.value])) && Passed(root, name, i)
    ensures var r := Scan(root, name, true, i, free); !r.Full? ==> r.at <= |root| && Passed(root, name, r.at)
    decreases |root| - i
  {
    if i < |root| && Mark(root[i]) != END {
      if Mark(root[i]) == DELETED {
        ScanPassed(root, name, i + 1, if free.None? then Some(i) else free);
      } else if !(IsFile(root[i]) && root[i].name == name) {
        ScanPassed(root, name, i + 1, free);
      }
    }
  }

  lemma {:induction false} FindPassed(root: seq<Entry>, name: seq<Byte>, k: nat, i: nat)
    requires k <= i < |root| && Passed(root, name, i) && Occupied(root[i]) && IsFile(root[i]) && root[i].name == name
    ensures Find(root, name, k) == Some(i)
    decreases i - k
  {
    if k < i { FindPassed(root, name, k + 1, i); }
  }

  /** After a write the file is found again, in the slot it was written to. */
  lemma WriteFound(v: Vol, g: Geo, chains: seq<seq<nat>>, name: seq<Byte>, bytes: seq<Byte>)
    requires Valid(v, g, chains) && Proper(name) && |bytes| < 0x8000_0000 && WriteFile(v, g, name, bytes).1
    ensures Find(WriteFile(v, g, name, bytes).0.root, name, 0) == Some(Scan(v.root, name, true, 0, None).at)
  {
    hide Chosen, Linked, Filled, Fits, Released, Clusters, Scan, Find, Undone;
    WriteFails(v, g, name, bytes);
    ScanPassed(v.root, name, 0, None);
    var i, w := WriteIs(v, g, chains, name, bytes);
    forall k | 0 <= k < i
      ensures w.root[k] == v.root[k]
    {
    }
    FindPassed(w.root, name, 0, i);
  }

  lemma ClustersHold(n: nat, size: nat)
    requires size > 0
    ensures n <= Clusters(n, size) * size
  {
    var k := n + size - 1;
    assert k == k / size * size + k % size;
  }

  /** The bytes of slot i. */
  function Bytes(v: Vol, chains: seq<seq<nat>>, i: nat): seq<Byte>
    requires i < |v.root| == |chains| && forall k :: 0 <= k < |chains[i]| ==> chains[i][k] < |v.data|
  {
    var all := Content(v.data, chains[i]);
    all[..Min(v.root[i].size, |all|)]
  }

  lemma {:induction false} ContentLength(data: seq<seq<Byte>>, cs: seq<nat>, size: nat)
    requires forall k :: 0 <= k < |cs| ==> cs[k] < |data| && |data[cs[k]]| == size
    ensures |Content(data, cs)| == |cs| * size
    decreases |cs|
  {
    if cs != [] { ContentLength(data, cs[1..], size); }
  }

  /** What was written is what the slot holds. */
  lemma WriteHolds(v: Vol, g: Geo, chains: seq<seq<nat>>, name: seq<Byte>, bytes: seq<Byte>)
    requires Valid(v, g, chains) && Proper(name) && |bytes| < 0x8000_0000 && WriteFile(v, g, name, bytes).1
    ensures var i, cs := Scan(v.root, name, true, 0, None).at, Chosen(v.fat, g, |bytes|);
      var w := WriteFile(v, g, name, bytes).0;
      && i < |w.root| == |chains| && (forall k :: 0 <= k < |cs| ==> cs[k] < |w.data|)
      && Bytes(w, chains[i := cs], i) == bytes
  {
    hide Chosen, WriteFile, Linked, Filled, Scan, Fits, Clusters, Content;
    WriteFails(v, g, name, bytes);
    var i, w := WriteIs(v, g, chains, name, bytes);
    var cs := Chosen(v.fat, g, |bytes|);
    ChosenApart(v, g, chains, |bytes|);
    ChosenCount(v.fat, g, |bytes|);
    ClustersHold(|bytes|, g.size);
    FilledContent(v.data, cs, bytes, g.size);
  }

  /** Every other occupied slot keeps its entry and its bytes. */
  lemma WriteKeeps(v: Vol, g: Geo, chains: seq<seq<nat>>, name: seq<Byte>, bytes: seq<Byte>, j: nat)
    requires Valid(v, g, chains) && |name| == 11 && |bytes| < 0x8000_0000 && j < |v.root| && Occupied(v.root[j])
    requires var (w, ok) := WriteFile(v, g, name, bytes); ok ==> j != Scan(v.root, name, true, 0, None).at
    ensures var w := WriteFile(v, g, name, bytes).0;
      && |w.root| == |v.root| && w.root[j] == v.root[j] && |w.data| == |v.data|
      && (forall c :: c in chains[j] ==> c < |v.data|) && Content(w.data, chains[j]) == Content(v.data, chains[j])
  {
    hide Chosen, WriteFile, Linked, Filled, Scan, Fits, Clusters, Content;
    WriteFails(v, g, name, bytes);
    var w := WriteFile(v, g, name, bytes).0;
    forall c | c in chains[j]
      ensures c < |v.data| && |w.data| == |v.data| && w.data[c] == v.data[c]
    {
      assert On(chains, j, c);
      OwnedUsed(v, g, chains, j, c);
      if WriteFile(v, g, name, bytes).1 {
        var i, w1 := WriteIs(v, g, chains, name, bytes);
        ChosenApart(v, g, chains, |bytes|);
        FilledElsewhere(v.data, Chosen(v.fat, g, |bytes|), bytes, g.size);
      }
    }
    ContentSame(v.data, w.data, chains[j]);
    if WriteFile(v, g, name, bytes).1 {
      var i, w1 := WriteIs(v, g, chains, name, bytes);
      assert SameSlot(v.root[j], w.root[j]);
    }
  }

  lemma ScanFinds(root: seq<Entry>, name: seq<Byte>, files: bool, k: nat, free: Option<nat>, i: nat)
    requires k <= |root| && (free.Some? ==> free.value < k && !Occupied(root[free.value]))
    requires free.Some? || (k <= i < |root| && !Occupied(root[i]))
    ensures !Scan(root, name, files, k, free).Full?
    decreases |root| - k
  {
    if k < |root| && Mark(root[k]) != END {
      ScanFinds(root, name, files, k + 1, if Mark(root[k]) == DELETED && free.None? then Some(k) else free, i);
    }
  }

  /** A file holds as many bytes as its entry says. */
  lemma BytesLength(v: Vol, g: Geo, chains: seq<seq<nat>>, i: nat)
    requires Valid(v, g, chains) && i < |v.root| && Occupied(v.root[i]) && IsFile(v.root[i])
    ensures (forall k :: 0 <= k < |chains[i]| ==> chains[i][k] < |v.data|) && |Bytes(v, chains, i)| == v.root[i].size
  {
    hide Clusters, Apart, Covered, Content;
    assert Owns(v.root[i], v.fat, g, chains[i]);
    ContentLength(v.data, chains[i], g.size);
    ClustersHold(v.root[i].size, g.size);
  }

  lemma {:induction false} DistinctCount(cs: seq<nat>, s: set<nat>)
    requires Distinct(cs) && forall k :: 0 <= k < |cs| ==> cs[k] in s
    ensures |cs| <= |s|
  {
    if cs != [] {
      var last := |cs| - 1;
      DistinctCount(cs[..last], s - {cs[last]});
    }
  }

  function AsSet(cs: seq<nat>): set<nat> { set c | c in cs }

  lemma {:induction false} SetOfSeq(cs: seq<nat>)
    ensures |AsSet(cs)| <= |cs|
  {
    if cs != [] {
      var last := |cs| - 1;
      SetOfSeq(cs[..last]);
      assert AsSet(cs) == AsSet(cs[..last]) + {cs[last]};
    }
  }

  /** As many clusters are free as any list of different free clusters has. */
  lemma FreeCount(fat: Table, g: Geo, cs: seq<nat>)
    requires 2 <= g.top <= |fat| && Distinct(cs)
    requires forall k :: 0 <= k < |cs| ==> 2 <= cs[k] < g.top && fat[cs[k]] == FREE
    ensures |cs| <= |FreeList(fat, 2, g.top)|
  {
    var free := FreeList(fat, 2, g.top);
    DistinctCount(cs, AsSet(free));
    SetOfSeq(free);
  }

  /** After a file is deleted its clusters and its slot suffice to write as many bytes again. */
  lemma DeleteMakesRoom(v: Vol, g: Geo, chains: seq<seq<nat>>, name: seq<Byte>, i: nat)
    requires Valid(v, g, chains) && Find(v.root, name, 0) == Some(i)
    ensures var w := DeleteFile(v, g, name).0;
      && Valid(w, g, chains[i := []]) && Fits(w.fat, g, v.root[i].size)
      && forall nm :: !Scan(w.root, nm, true, 0, None).Full?
  {
    hide Find, Scan, Clusters, Apart, Covered, Released, FreeList;
    DeleteValid(v, g, chains, name);
    var w := DeleteFile(v, g, name).0;
    assert Owns(v.root[i], v.fat, g, chains[i]);
    ReleasedChain(v.root[i], v.fat, g, chains[i]);
    FreeCount(w.fat, g, chains[i]);
    assert Mark(w.root[i]) == DELETED;
    forall nm
      ensures !Scan(w.root, nm, true, 0, None).Full?
    {
      ScanFinds(w.root, nm, true, 0, None, i);
    }
  }

  /** Deleting keeps the sizes of the volume. */
  lemma DeleteSized(v: Vol, g: Geo, name: seq<Byte>)
    requires Sized(v, g)
    ensures Sized(DeleteFile(v, g, name).0, g)
  {
    hide Find, Freed;
  }

  // ----- buffered close -----

  /** Closing a dirty handle: the old file is deleted, the buffer written; if that fails the backup is written. */
  ghost function Close(v: Vol, g: Geo, name: seq<Byte>, buffer: seq<Byte>, backup: Option<seq<Byte>>): Vol
    requires Sized(v, g) && |name| == 11 && |buffer| < 0x8000_0000 && (backup.Some? ==> |backup.value| < 0x8000_0000)
    requires Sized(DeleteFile(v, g, name).0, g)
  {
    var deleted := DeleteFile(v, g, name).0;
    var (written, ok) := WriteFile(deleted, g, name, buffer);
    WriteFails(deleted, g, name, buffer);
    if ok || backup.None? || backup.value == [] then written else WriteFile(written, g, name, backup.value).0
  }

  /** The file `name` is found, in a consistent volume, and holds `bytes`. */
  ghost predicate Holds(v: Vol, g: Geo, chains: seq<seq<nat>>, name: seq<Byte>, bytes: seq<Byte>)
  {
    && Valid(v, g, chains) && Find(v.root, name, 0).Some?
    && var i := Find(v.root, name, 0).value;
       (forall k :: 0 <= k < |chains[i]| ==> chains[i][k] < |v.data|) && Bytes(v, chains, i) == bytes
  }

  lemma WriteStored(v: Vol, g: Geo, chains: seq<seq<nat>>, name: seq<Byte>, bytes: seq<Byte>)
    requires Valid(v, g, chains) && Proper(name) && |bytes| < 0x8000_0000 && WriteFile(v, g, name, bytes).1
    ensures Holds(WriteFile(v, g, name, bytes).0, g,
        chains[Scan(v.root, name, true, 0, None).at := Chosen(v.fat, g, |bytes|)], name, bytes)
  {
    hide WriteFile, Valid, Scan, Chosen, Bytes, Find;
    ValidSized(v, g, chains);
    WriteFails(v, g, name, bytes);
    WriteValid(v, g, chains, name, bytes);
    WriteFound(v, g, chains, name, bytes);
    WriteHolds(v, g, chains, name, bytes);
  }

  /** What a close leaves behind: the buffer if it fits into the free clusters and those of the old file; if not,
      what the file held before, provided that was backed up; and otherwise the volume without the file. */
  ghost predicate Outcome(v: Vol, w: Vol, g: Geo, name: seq<Byte>, buffer: seq<Byte>, prior: seq<Byte>, saved: bool)
    requires Sized(v, g) && Sized(DeleteFile(v, g, name).0, g)
  {
    var deleted := DeleteFile(v, g, name).0;
    if Fits(deleted.fat, g, |buffer|) then exists chains :: Holds(w, g, chains, name, buffer)
    else if saved then exists chains :: Holds(w, g, chains, name, prior)
    else w.fat == deleted.fat && w.root == deleted.root
  }

  /** Closing a dirty handle, whatever the file held and whether or not there is a backup of it. */
  lemma CloseAllOrNothing(v: Vol, g: Geo, chains: seq<seq<nat>>, name: seq<Byte>, buffer: seq<Byte>, prior: seq<Byte>,
      backup: Option<seq<Byte>>)
    requires Proper(name) && |buffer| < 0x8000_0000 && |prior| < 0x8000_0000 && Holds(v, g, chains, name, prior)
    requires backup.Some? ==> backup.value == prior
    ensures Sized(v, g) && Sized(DeleteFile(v, g, name).0, g)
    ensures Outcome(v, Close(v, g, name, buffer, backup), g, name, buffer, prior, backup.Some? && prior != [])
  {
    hide DeleteFile, WriteFile, Valid, Scan, Chosen, Bytes, Find, Fits, Holds;
    var i := HoldsAt(v, g, chains, name, prior);
    ValidSized(v, g, chains);
    DeleteMakesRoom(v, g, chains, name, i);
    var deleted, chains1 := DeleteFile(v, g, name).0, chains[i := []];
    ValidSized(deleted, g, chains1);
    WriteFails(deleted, g, name, buffer);
    if Fits(deleted.fat, g, |buffer|) {
      WriteStored(deleted, g, chains1, name, buffer);
    } else if backup.Some? && prior != [] {
      RollsBack(deleted, g, chains1, name, buffer, prior);
    }
  }

  lemma HoldsAt(v: Vol, g: Geo, chains: seq<seq<nat>>, name: seq<Byte>, bytes: seq<Byte>) returns (i: nat)
    requires Holds(v, g, chains, name, bytes)
    ensures Valid(v, g, chains) && Find(v.root, name, 0) == Some(i) && i < |v.root| && v.root[i].size == |bytes|
  {
    hide Valid, Bytes;
    ValidSized(v, g, chains);
    i := Find(v.root, name, 0).value;
    OldLength(v, g, chains, name, bytes);
  }

  /** The rollback cannot fail: the space that the deletion made suffices. */
  lemma RollsBack(v: Vol, g: Geo, chains: seq<seq<nat>>, name: seq<Byte>, buffer: seq<Byte>, prior: seq<Byte>)
    requires Valid(v, g, chains) && Sized(v, g) && Proper(name) && |buffer| < 0x8000_0000 && |prior| < 0x8000_0000
    requires Fits(v.fat, g, |prior|) && !Fits(v.fat, g, |buffer|) && !Scan(v.root, name, true, 0, None).Full?
    ensures var written := WriteFile(v, g, name, buffer).0;
      Sized(written, g) && exists chains1 :: Holds(WriteFile(written, g, name, prior).0, g, chains1, name, prior)
  {
    hide WriteFile, Valid, Scan, Chosen, Bytes, Find, Fits, Holds;
    WriteFails(v, g, name, buffer);
    var written := WriteFile(v, g, name, buffer).0;
    WriteValid(v, g, chains, name, buffer);
    WriteFails(written, g, name, prior);
    ValidSized(written, g, chains);
    WriteStored(written, g, chains, name, prior);
    var chains1 := chains[Scan(written.root, name, true, 0, None).at := Chosen(written.fat, g, |prior|)];
    assert Holds(WriteFile(written, g, name, prior).0, g, chains1, name, prior);
  }

  lemma OldLength(v: Vol, g: Geo, chains: seq<seq<nat>>, name: seq<Byte>, prior: seq<Byte>)
    requires Holds(v, g, chains, name, prior)
    ensures v.root[Find(v.root, name, 0).value].size == |prior|
  {
    hide Valid, Bytes;
    ValidSized(v, g, chains);
    BytesLength(v, g, chains, Find(v.root, name, 0).value);
  }

  /** Deleting changes no cluster, and no other slot. */
  lemma DeleteKeeps(v: Vol, g: Geo, chains: seq<seq<nat>>, name: seq<Byte>, j: nat)
    requires Valid(v, g, chains) && j < |v.root| && Find(v.root, name, 0) != Some(j)
    ensures var w := DeleteFile(v, g, name).0; w.data == v.data && |w.root| == |v.root| && w.root[j] == v.root[j]
  {
  }

  /** Closing keeps the bytes of every directory and of every file of another name, with any backup or none. */
  lemma CloseKeeps(v: Vol, g: Geo, chains: seq<seq<nat>>, name: seq<Byte>, buffer: seq<Byte>,
      backup: Option<seq<Byte>>, j: nat)
    requires Valid(v, g, chains) && Find(v.root, name, 0).Some? && Proper(name) && |buffer| < 0x8000_0000
    requires backup.Some? ==> |backup.value| < 0x8000_0000
    requires j < |v.root| && Occupied(v.root[j]) && !(IsFile(v.root[j]) && v.root[j].name == name)
    ensures Sized(DeleteFile(v, g, name).0, g)
    ensures var w := Close(v, g, name, buffer, backup);
      && |w.root| == |v.root| && w.root[j] == v.root[j] && |w.data| == |v.data|
      && (forall c :: c in chains[j] ==> c < |v.data|) && Content(w.data, chains[j]) == Content(v.data, chains[j])
  {
    hide DeleteFile, WriteFile, Valid, Scan, Chosen, Bytes, Find, Fits, Content;
    var i := Find(v.root, name, 0).value;
    ValidSized(v, g, chains);
    DeleteMakesRoom(v, g, chains, name, i);
    DeleteKeeps(v, g, chains, name, j);
    var deleted := DeleteFile(v, g, name).0;
    var chains1 := chains[i := []];
    ValidSized(deleted, g, chains1);
    WriteFails(deleted, g, name, buffer);
    WriteKeeps(deleted, g, chains1, name, buffer, j);
    var written := WriteFile(deleted, g, name, buffer).0;
    if !Fits(deleted.fat, g, |buffer|) && backup.Some? {
      WriteValid(deleted, g, chains1, name, buffer);
      WriteKeeps(written, g, chains1, name, backup.value, j);
    }
  }

  // ----- whole runs -----

  datatype Op = Write(name: seq<Byte>, bytes: seq<Byte>) | Delete(name: seq<Byte>) | MakeDir(name: seq<Byte>)

  predicate ProperOp(op: Op)
  {
    match op
    case Write(name, bytes) => Proper(name) && |bytes| < 0x8000_0000
    case Delete(name) => true
    case MakeDir(name) => Proper(name)
  }

  ghost predicate Consistent(v: Vol, g: Geo) { exists chains :: Valid(v, g, chains) }

  ghost function Apply(v: Vol, g: Geo, op: Op): Vol
    requires Sized(v, g) && g.size >= 64 && ProperOp(op)
  {
    match op
    case Write(name, bytes) => WriteFile(v, g, name, bytes).0
    case Delete(name) => DeleteFile(v, g, name).0
    case MakeDir(name) => Mkdir(v, g, name).0
  }

  lemma ApplyConsistent(v: Vol, g: Geo, op: Op)
    requires Sized(v, g) && Consistent(v, g) && g.size >= 64 && ProperOp(op)
    ensures Sized(Apply(v, g, op), g) && Consistent(Apply(v, g, op), g)
  {
    hide Valid, WriteFile, DeleteFile, Mkdir, Scan, Chosen, Find;
    var chains :| Valid(v, g, chains);
    ValidSized(v, g, chains);
    var w := Apply(v, g, op);
    var chains1 := chains;
    match op {
      case Write(name, bytes) =>
        WriteValid(v, g, chains, name, bytes);
        WriteFails(v, g, name, bytes);
        if WriteFile(v, g, name, bytes).1 {
          chains1 := chains[Scan(v.root, name, true, 0, None).at := Chosen(v.fat, g, |bytes|)];
        }
      case Delete(name) =>
        DeleteValid(v, g, chains, name);
        if DeleteFile(v, g, name).1 { chains1 := chains[Find(v.root, name, 0).value := []]; }
      case MakeDir(name) =>
        MkdirValid(v, g, chains, name);
        if Mkdir(v, g, name).1 {
          var c: nat :| Valid(w, g, chains[Scan(v.root, name, false, 0, None).at := [c]]);
          chains1 := chains[Scan(v.root, name, false, 0, None).at := [c]];
        }
    }
    assert Valid(w, g, chains1);
    ValidSized(w, g, chains1);
  }

  /** The volume after a run of operations. */
  ghost function Run(v: Vol, g: Geo, ops: seq<Op>): (w: Vol)
    requires Sized(v, g) && Consistent(v, g) && g.size >= 64 && forall k :: 0 <= k < |ops| ==> ProperOp(ops[k])
    ensures Sized(w, g) && Consistent(w, g)
    decreases |ops|
  {
    if ops == [] then v
    else
      ApplyConsistent(v, g, ops[0]);
      Run(Apply(v, g, ops[0]), g, ops[1..])
  }
}
