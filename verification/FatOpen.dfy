/** Opening files for writing, and whole sessions: open, write, close. */
module FatOpen {
  import opened Basics
  import opened FatTable
  import opened FatVolume
  import opened FatFiles
  import opened FatDisk
  import opened FatNames
  import opened FatDriver
  import opened FatVfs

  /** The part of a name that a handle keeps. */
  function Stored(name: seq<Byte>): seq<Byte> { if |name| <= 63 then name else name[..63] }

  lemma WriteNothingSized(v: Vol, g: Geo, name: seq<Byte>)
    requires Sized(v, g) && |name| == 11
    ensures Sized(WriteFile(v, g, name, []).0, g)
  {
    hide Scan, Freed, FreeList, Filled, Created;
    NothingNeeded(v, g);
    WriteFails(v, g, name, []);
    var p := Scan(v.root, name, true, 0, None);
    if p.New? { CreatedSlots(v.root, p.at, Blank(name, ARCHIVE, 0, 0)); }
  }

  /** An empty file needs no cluster. */
  lemma NothingNeeded(v: Vol, g: Geo)
    requires Sized(v, g)
    ensures Fits(v.fat, g, 0) && Chosen(v.fat, g, 0) == [] && Linked(v.fat, []) == v.fat
    ensures Filled(v.data, [], [], g.size) == v.data
  {
    NoClusters(g.size);
  }

  /** The volume after a file is opened, and whether that succeeds; `free` tells whether a descriptor is left. With
      `create` a file that cannot be opened is written anew as an empty one, for whatever reason it cannot. */
  ghost function Prepared(v: Vol, g: Geo, name: seq<Byte>, create: bool, truncate: bool, free: bool): (r: (Vol, bool))
    requires Sized(v, g) && |name| == 11
    ensures Sized(r.0, g)
  {
    WriteNothingSized(v, g, name);
    if !create then (v, free && Find(v.root, name, 0).Some?)
    else
      var (v1, ok) := if free && Find(v.root, name, 0).Some? then (v, true) else WriteFile(v, g, name, []);
      if !ok || !free || Find(v1.root, name, 0).None? then (v1, false)
      else if truncate then Emptied(v1, g, name) else (v1, true)
  }

  /** The file deleted and written again as an empty one. */
  ghost function Emptied(v: Vol, g: Geo, name: seq<Byte>): (r: (Vol, bool))
    requires Sized(v, g) && |name| == 11
    ensures Sized(r.0, g)
  {
    DeleteSized(v, g, name);
    var deleted := DeleteFile(v, g, name).0;
    WriteNothingSized(deleted, g, name);
    var (w, ok) := WriteFile(deleted, g, name, []);
    (w, ok && Find(w.root, name, 0).Some?)
  }

  /** Whether the name is that of a directory; such names, the empty one and a dot are opened for listing. */
  predicate IsDir(root: seq<Entry>, name: seq<Byte>, i: nat)
    requires i <= |root|
    decreases |root| - i
  {
    i < |root| && Mark(root[i]) != END &&
    ((Mark(root[i]) != DELETED && FatVolume.Has(root[i].attr, DIRECTORY) && !FatVolume.Has(root[i].attr, VOLUME_ID)
      && root[i].name == name)
     || IsDir(root, name, i + 1))
  }

  predicate ForListing(v: Vol, name: seq<Byte>) { name == [] || name == [DOT] || IsDir(v.root, To83(name), 0) }

  predicate HasFree(files: seq<File>) { exists k :: 0 <= k < |files| && !files[k].isOpen }

  /** The descriptor k has been opened for the file `name`, and no other has changed. */
  ghost predicate Opened(v: Vol, name: seq<Byte>, prior: seq<File>, files: seq<File>, k: nat)
  {
    && k < |files| == |prior| && !prior[k].isOpen && Find(v.root, name, 0).Some?
    && var e := v.root[Find(v.root, name, 0).value]; files == prior[k := File(e.first, e.size, 0, true)]
  }

  /** The descriptor that was closed last before the others is the one to be opened next. */
  lemma Reopened(prior: seq<File>, shut: seq<File>, k: nat, j: nat, x: File)
    requires k < |prior| == |shut| && j < |shut| && (forall i :: 0 <= i < |shut| && i != k ==> shut[i] == prior[i])
    requires !shut[k].isOpen && (forall i :: 0 <= i < k ==> shut[i].isOpen)
    requires !shut[j].isOpen && (forall i :: 0 <= i < j ==> shut[i].isOpen)
    ensures j == k && shut[j := x] == prior[j := x]
  {
  }

  /** Opens a file that is not a directory; with `create` it is made if need be, with `truncate` emptied. */
  method OpenFile(driver: Driver, name: seq<Byte>, create: bool, truncate: bool) returns (h: Option<Handle>)
    requires driver.Sound() && RootName(name) && |driver.files| == MAX_FILES && !ForListing(driver.View(), name)
    modifies driver
    ensures driver.Sound() && |driver.files| == MAX_FILES
    ensures Sized(old(driver.View()), GeoOf(driver.b))
    ensures (driver.View(), h.Some?)
         == Prepared(old(driver.View()), GeoOf(driver.b), To83(name), create, truncate, HasFree(old(driver.files)))
    ensures h.Some? ==> fresh(h.value) && h.value.Valid() && h.value.buffer == null && !h.value.dirty
    ensures h.Some? ==> h.value.driver == driver && h.value.name == Stored(name) && h.value.file.Some?
    ensures h.Some? ==> Opened(driver.View(), To83(name), old(driver.files), driver.files, h.value.file.value)
  {
    hide VolOf, Mirrored, Good, Find, Linkable, To83, Sized, FatFiles.WriteFile, FatFiles.DeleteFile;
    ghost var v, g, free := driver.View(), GeoOf(driver.b), HasFree(driver.files);
    ghost var files := driver.files;
    ViewSized(driver.b, driver.disk);
    WriteNothingSized(v, g, To83(name));
    var f := driver.Open(name);
    if create {
      if f.None? {
        var rc := driver.WriteFile(name, []);
        if rc != 0 { return None; }
        f := driver.Open(name);
        if f.None? { return None; }
      }
      if truncate {
        ghost var v1 := driver.View();
        DeleteSized(v1, g, To83(name));
        driver.Close(f.value);
        ghost var k, shut := f.value, driver.files;
        assert !shut[k].isOpen && forall j :: 0 <= j < k ==> shut[j].isOpen;
        var _ := driver.DeleteFile(name);
        WriteNothingSized(driver.View(), g, To83(name));
        var rc := driver.WriteFile(name, []);
        if rc != 0 { return None; }
        f := driver.Open(name);
        if f.None? { return None; }
        Reopened(files, shut, k, f.value, driver.files[f.value]);
      }
    } else if f.None? {
      return None;
    }
    var handle := new Handle(driver, Stored(name), f.value);
    h := Some(handle);
  }

  // ----- what opening does to a file -----

  /** Some chains show that the file holds these bytes. */
  ghost predicate Keeps(v: Vol, g: Geo, name: seq<Byte>, bytes: seq<Byte>)
  {
    exists chains :: Holds(v, g, chains, name, bytes)
  }

  lemma WriteNothingHolds(v: Vol, g: Geo, chains: seq<seq<nat>>, name: seq<Byte>)
    requires Valid(v, g, chains) && Proper(name) && Sized(v, g) && |name| == 11
    requires !Scan(v.root, name, true, 0, None).Full?
    ensures WriteFile(v, g, name, []).1 && Keeps(WriteFile(v, g, name, []).0, g, name, [])
  {
    hide Valid, WriteFile, Scan, Holds, Chosen, Fits;
    NothingNeeded(v, g);
    WriteFails(v, g, name, []);
    WriteStored(v, g, chains, name, []);
    ValidSized(v, g, chains);
    var chains1 := chains[Scan(v.root, name, true, 0, None).at := Chosen(v.fat, g, 0)];
    KeepsIt(WriteFile(v, g, name, []).0, g, chains1, name, []);
  }

  /** A file that is found has a slot to be written to. */
  lemma {:induction false} FoundNotFull(root: seq<Entry>, name: seq<Byte>, i: nat, free: Option<nat>)
    requires i <= |root| && (free.Some? ==> free.value < i && !Occupied(root[free.value])) && Find(root, name, i).Some?
    ensures Scan(root, name, true, i, free) == Old(Find(root, name, i).value)
    decreases |root| - i
  {
    if Mark(root[i]) == DELETED {
      FoundNotFull(root, name, i + 1, if free.None? then Some(i) else free);
    } else if !(IsFile(root[i]) && root[i].name == name) {
      FoundNotFull(root, name, i + 1, free);
    }
  }

  lemma EmptiedHolds(v: Vol, g: Geo, chains: seq<seq<nat>>, name: seq<Byte>)
    requires Valid(v, g, chains) && Sized(v, g) && Proper(name) && |name| == 11 && Find(v.root, name, 0).Some?
    ensures var r := Emptied(v, g, name); r.1 && Keeps(r.0, g, name, [])
  {
    hide Valid, WriteFile, DeleteFile, Scan, Holds, Find, Keeps;
    ValidSized(v, g, chains);
    var i := Find(v.root, name, 0).value;
    DeleteMakesRoom(v, g, chains, name, i);
    DeleteSized(v, g, name);
    WriteNothingHolds(DeleteFile(v, g, name).0, g, chains[i := []], name);
    KeepsFound(Emptied(v, g, name).0, g, name, []);
  }

  lemma KeepsFound(v: Vol, g: Geo, name: seq<Byte>, bytes: seq<Byte>)
    requires Keeps(v, g, name, bytes)
    ensures Find(v.root, name, 0).Some? && v.root[Find(v.root, name, 0).value].size == |bytes|
  {
    hide Holds;
    var chains :| Holds(v, g, chains, name, bytes);
    var i := HoldsAt(v, g, chains, name, bytes);
  }

  /** With a descriptor left, opening with `create` succeeds if the file exists or the directory has a slot for it;
      the file then holds what it held, or nothing if it is new or to be truncated. */
  lemma CreateOpens(v: Vol, g: Geo, chains: seq<seq<nat>>, name: seq<Byte>, truncate: bool)
    requires Valid(v, g, chains) && Proper(name) && Sized(v, g) && |name| == 11
    ensures var r, found := Prepared(v, g, name, true, truncate, true), Find(v.root, name, 0).Some?;
      && (r.1 <==> found || !Scan(v.root, name, true, 0, None).Full?)
      && (r.1 && found && !truncate ==> r.0 == v) && (r.1 && (!found || truncate) ==> Keeps(r.0, g, name, []))
      && (!r.1 ==> r.0.fat == v.fat && r.0.root == v.root)
  {
    hide Valid, WriteFile, DeleteFile, Scan, Holds, Find, Keeps, Emptied;
    WriteNothingSized(v, g, name);
    if Find(v.root, name, 0).Some? {
      EmptiedHolds(v, g, chains, name);
    } else {
      NothingNeeded(v, g);
      WriteFails(v, g, name, []);
      if !Scan(v.root, name, true, 0, None).Full? {
        WriteNothingHolds(v, g, chains, name);
        var w := WriteFile(v, g, name, []).0;
        KeepsFound(w, g, name, []);
        EmptiedAgain(w, g, name);
      }
    }
  }

  lemma EmptiedAgain(v: Vol, g: Geo, name: seq<Byte>)
    requires Keeps(v, g, name, []) && Proper(name) && |name| == 11 && Sized(v, g)
    ensures var r := Emptied(v, g, name); r.1 && Keeps(r.0, g, name, [])
  {
    hide Holds, Find, Emptied;
    var chains :| Holds(v, g, chains, name, []);
    var i := HoldsAt(v, g, chains, name, []);
    EmptiedHolds(v, g, chains, name);
  }

  /** Opening a file with `create` and without `truncate` keeps what it holds exactly if a descriptor is left or there
      is nothing to keep: otherwise it is taken for missing, and overwritten with an empty file. */
  lemma OpenKeepsExactly(v: Vol, g: Geo, chains: seq<seq<nat>>, name: seq<Byte>, prior: seq<Byte>, free: bool)
    requires Holds(v, g, chains, name, prior) && Proper(name) && |name| == 11 && Sized(v, g)
    ensures Keeps(Prepared(v, g, name, true, false, free).0, g, name, prior) <==> free || prior == []
  {
    hide Valid, WriteFile, Scan, Holds, Find, Keeps;
    var i := HoldsAt(v, g, chains, name, prior);
    if free {
      KeepsIt(v, g, chains, name, prior);
    } else {
      FoundNotFull(v.root, name, 0, None);
      WriteNothingHolds(v, g, chains, name);
      var w := WriteFile(v, g, name, []).0;
      KeepsFound(w, g, name, []);
      if Keeps(w, g, name, prior) { KeepsFound(w, g, name, prior); }
    }
  }

  lemma KeepsIt(v: Vol, g: Geo, chains: seq<seq<nat>>, name: seq<Byte>, bytes: seq<Byte>)
    requires Holds(v, g, chains, name, bytes)
    ensures Keeps(v, g, name, bytes)
  {
  }

  // ----- sessions -----

  /** A file that has been opened lies on a consistent volume. */
  lemma PreparedValid(v: Vol, g: Geo, chains: seq<seq<nat>>, name: seq<Byte>, truncate: bool, free: bool)
    returns (chains1: seq<seq<nat>>)
    requires Valid(v, g, chains) && Proper(name) && Sized(v, g) && |name| == 11
    requires Prepared(v, g, name, true, truncate, free).1
    requires forall i :: 0 <= i < |v.root| ==> v.root[i].size < 0x8000_0000
    ensures var w := Prepared(v, g, name, true, truncate, free).0;
      && Valid(w, g, chains1) && Find(w.root, name, 0).Some? && w.root[Find(w.root, name, 0).value].size < 0x8000_0000
  {
    hide Valid, Find, Holds, Scan;
    OpenNeedsFree(v, g, name, truncate, free);
    CreateOpens(v, g, chains, name, truncate);
    var w := Prepared(v, g, name, true, truncate, free).0;
    hide Prepared;
    if Find(v.root, name, 0).Some? && !truncate {
      chains1 := chains;
    } else {
      KeepsFound(w, g, name, []);
      chains1 :| Holds(w, g, chains1, name, []);
      var i := HoldsAt(w, g, chains1, name, []);
    }
  }

  lemma OpenNeedsFree(v: Vol, g: Geo, name: seq<Byte>, truncate: bool, free: bool)
    requires Sized(v, g) && |name| == 11 && Prepared(v, g, name, true, truncate, free).1
    ensures free
  {
    hide WriteFile, Find, Emptied;
  }

  /** Opens or makes a file, writes to it any number of times and closes it. */
  method SaveFile(driver: Driver, name: seq<Byte>, truncate: bool, ws: Writes, memory: bool,
      ghost chains: seq<seq<nat>>)
    returns (ok: bool, accepted: seq<Byte>)
    requires driver.Sound() && Valid(driver.View(), GeoOf(driver.b), chains) && |driver.files| == MAX_FILES
    requires RootName(name) && Proper(To83(name)) && To83(Stored(name)) == To83(name)
    requires !ForListing(driver.View(), name)
    requires forall i :: 0 <= i < |driver.View().root| ==> driver.View().root[i].size < 0x8000_0000
    requires |Concat(ws)| < 0x8000_0000
    modifies driver
    ensures driver.Sound() && Sized(old(driver.View()), GeoOf(driver.b)) && (ok && Ample(ws) ==> accepted == Concat(ws))
    ensures var (mid, able) :=
        Prepared(old(driver.View()), GeoOf(driver.b), To83(name), true, truncate, HasFree(old(driver.files)));
      && (ok && accepted != [] && FitsInstead(mid, GeoOf(driver.b), To83(name), |accepted|) ==>
            Keeps(driver.View(), GeoOf(driver.b), To83(name), accepted))
      && ok == able
      && if ok then Saves(mid, driver.View(), GeoOf(driver.b), To83(name), accepted, memory)
         else driver.View() == mid
  {
    hide VolOf, Mirrored, Good, Find, Linkable, To83, Sized, Valid, Prepared, Leaves, Concat;
    ghost var v, g := driver.View(), GeoOf(driver.b);
    var h := OpenFile(driver, name, true, truncate);
    ok, accepted := h.Some?, [];
    if ok {
      ghost var mid := driver.View();
      ghost var chains1 := PreparedValid(v, g, chains, To83(name), truncate, HasFree(old(driver.files)));
      accepted := WriteAndClose(h.value, ws, memory, chains1);
      assert [] + accepted == accepted;
      assert Leaves(mid, driver.View(), g, chains1, To83(name), accepted != [], accepted, memory);
      if accepted != [] && FitsInstead(mid, g, To83(name), |accepted|) {
        SavedHolds(mid, driver.View(), g, To83(name), accepted, memory);
      }
    }
  }

  /** As many bytes fit once the file is deleted. */
  ghost predicate FitsInstead(v: Vol, g: Geo, name: seq<Byte>, n: nat)
    requires Sized(v, g)
  {
    DeleteSized(v, g, name);
    Fits(DeleteFile(v, g, name).0.fat, g, n)
  }

  lemma SavedHolds(v: Vol, w: Vol, g: Geo, name: seq<Byte>, bytes: seq<Byte>, memory: bool)
    requires Sized(v, g) && Saves(v, w, g, name, bytes, memory) && bytes != [] && FitsInstead(v, g, name, |bytes|)
    ensures Keeps(w, g, name, bytes)
  {
    hide Valid, DeleteFile, Find, Fits, Holds, Bytes;
  }

  /** A file of the volume `v` has been written to and closed. */
  ghost predicate Saves(v: Vol, w: Vol, g: Geo, name: seq<Byte>, bytes: seq<Byte>, memory: bool)
  {
    var dirty := bytes != [];
    exists chains :: Leaves(v, w, g, chains, name, dirty, bytes, memory)
  }

  // ----- lost files -----

  function Named(c: Byte): seq<Byte> { [c] + seq<Byte>(10, _ => SPACE) }

  /** A volume with one cluster, which belongs to file B, and an empty file A. */
  function FullVolume(data: seq<Byte>): Vol
  {
    Vol([0, 0, EOC_MAX], [Blank(Named(0x41), ARCHIVE, 0, 0), Blank(Named(0x42), ARCHIVE, 2, 1)], [[], [], data])
  }

  lemma FullVolumeValid(data: seq<Byte>)
    requires |data| == 512
    ensures Valid(FullVolume(data), Geo(512, 3), [[], [2]]) && Find(FullVolume(data).root, Named(0x41), 0) == Some(0)
    ensures !Fits(FullVolume(data).fat, Geo(512, 3), 1)
  {
    hide Zeros;
    var v, g, chains := FullVolume(data), Geo(512, 3), [[], [2]];
    ZerosLength();
    assert Owns(v.root[0], v.fat, g, chains[0]) && Owns(v.root[1], v.fat, g, chains[1]);
    assert On(chains, 1, 2);
    assert FreeList(v.fat, 3, 3) == [] && FreeList(v.fat, 2, 3) == [];
  }

  lemma ZerosLength()
    ensures |Zeros(14)| == 14
  {
  }

  /** Writing a byte to A and closing it fails for lack of a cluster, and A is gone. */
  lemma LostFile(data: seq<Byte>, byte: Byte)
    requires |data| == 512
    ensures var v, g := FullVolume(data), Geo(512, 3);
      && Sized(v, g) && Sized(DeleteFile(v, g, Named(0x41)).0, g) && Find(v.root, Named(0x41), 0).Some?
      && Find(Close(v, g, Named(0x41), [byte], None).root, Named(0x41), 0).None?
  {
    hide Zeros, WriteFile;
    var v, g := FullVolume(data), Geo(512, 3);
    FullVolumeValid(data);
    DeleteSized(v, g, Named(0x41));
    var deleted := DeleteFile(v, g, Named(0x41)).0;
    assert deleted.fat == v.fat;
    WriteFails(deleted, g, Named(0x41), [byte]);
  }

  /** Opening B with `create` while all descriptors are in use erases it. */
  lemma OpenErases(data: seq<Byte>)
    requires |data| == 512
    ensures var v, g := FullVolume(data), Geo(512, 3);
      && Sized(v, g) && Keeps(v, g, Named(0x42), data[..1])
      && !Keeps(Prepared(v, g, Named(0x42), true, false, false).0, g, Named(0x42), data[..1])
  {
    hide Zeros, Valid, Prepared;
    var v, g, chains := FullVolume(data), Geo(512, 3), [[], [2]];
    FullVolumeValid(data);
    ValidSized(v, g, chains);
    assert Find(v.root, Named(0x42), 1) == Some(1) && Find(v.root, Named(0x42), 0) == Some(1);
    OneCluster(v, chains);
    OpenKeepsExactly(v, g, chains, Named(0x42), data[..1], false);
  }

  lemma OneCluster(v: Vol, chains: seq<seq<nat>>)
    requires |v.root| == |chains| == 2 && chains[1] == [2] && |v.data| == 3 && |v.data[2]| == 512 && v.root[1].size == 1
    ensures Bytes(v, chains, 1) == v.data[2][..1]
  {
    assert [2][1..] == [];
    assert Content(v.data, [2]) == v.data[2] + Content(v.data, []);
  }
}
