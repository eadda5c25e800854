/** The VFS adapter: writes are buffered in the handle and reach the volume when it is closed. */
module FatVfs {
  import opened Basics
  import opened FatTable
  import opened FatVolume
  import opened FatFiles
  import opened FatDisk
  import opened FatNames
  import opened FatDriver
  import opened FatReads

  datatype Whence = Set | Cur | End

  /** Rounds up to a multiple of 512. */
  function Round(n: nat): (r: nat)
    ensures n <= r < n + 512
  {
    (n + 511) / 512 * 512
  }

  class Handle {
    const driver: Driver
    const name: seq<Byte>
    var file: Option<nat>
    var buffer: array?<Byte>
    var len: nat
    var dirty: bool

    constructor (driver: Driver, name: seq<Byte>, file: nat)
      ensures this.driver == driver && this.name == name && this.file == Some(file)
      ensures Valid() && buffer == null && Written() == [] && !dirty
    {
      this.driver, this.name, this.file := driver, name, Some(file);
      buffer, len, dirty := null, 0, false;
    }

    ghost predicate Valid()
      reads this
    {
      if buffer == null then len == 0 && !dirty else len <= buffer.Length
    }

    /** Everything written so far. */
    ghost function Written(): seq<Byte>
      requires Valid()
      reads this, buffer
    {
      if buffer == null then [] else buffer[..len]
    }

    /** Appends to the buffer, which grows to twice its size or to fit; `memory` tells whether an allocation
        succeeds. */
    method Write(bytes: seq<Byte>, memory: bool) returns (rc: int)
      requires Valid() && len + |bytes| < 0x8000_0000
      modifies this, buffer
      ensures Valid() && file == old(file)
      ensures rc == |bytes| || (rc == -1 && !memory && bytes != [])
      ensures Written() == old(Written()) + if rc < 0 then [] else bytes
      ensures dirty == (old(dirty) || (rc >= 0 && bytes != []))
      ensures buffer != old(buffer) ==> buffer != null && fresh(buffer)
    {
      if bytes == [] { return 0; }
      var needed := len + |bytes|;
      if buffer == null {
        if !memory { return -1; }
        var cap := Round(needed);
        buffer := new Byte[if cap < 1024 then 1024 else cap];
        len := 0;
      } else if needed > buffer.Length {
        if !memory { return -1; }
        var cap := buffer.Length * 2 % LIMIT;
        if cap < needed { cap := Round(needed); }
        var grown := new Byte[cap];
        CopyInto(grown, 0, buffer[..len]);
        buffer := grown;
      }
      assert buffer[..len] == old(Written());
      CopyInto(buffer, len, bytes);
      len := needed;
      dirty := true;
      rc := |bytes|;
    }

    /** Moves the read position, kept between 0 and the size of the file; the sum is taken in 32 bits. */
    method Seek(offset: int, whence: Whence) returns (rc: int)
      requires -0x8000_0000 <= offset < 0x8000_0000 && (file.Some? ==> file.value < |driver.files|)
      modifies driver`files
      ensures file.None? ==> rc == -1 && driver.files == old(driver.files)
      ensures file.Some? ==> var f := old(driver.files)[file.value]; var to := Sought(f, offset, whence);
                             rc == Signed(to) && driver.files == old(driver.files)[file.value := f.(pos := to)]
    {
      if file.None? { return -1; }
      var f := driver.files[file.value];
      var to := match whence
        case Set => offset
        case Cur => Signed((Signed(f.pos) + offset) % 0x1_0000_0000)
        case End => Signed((Signed(f.size) + offset) % 0x1_0000_0000);
      if to < 0 { to := 0; }
      if to > f.size { to := f.size; }
      driver.files := driver.files[file.value := f.(pos := to)];
      rc := Signed(to);
    }

    /** Closes the handle: if anything was written, the file is deleted and written anew, and written back
        from a backup if that fails. `memory` tells whether the backup could be allocated; `cs` is the
        chain of the open file. */
    method Close(memory: bool, ghost cs: seq<nat>)
      requires Valid() && RootName(name) && |Written()| < 0x8000_0000 && driver.Sound() && file.Some?
      requires file.value < |driver.files|
      requires driver.files[file.value].isOpen && driver.files[file.value].size < 0x8000_0000
      requires Backs(driver.View(), GeoOf(driver.b), driver.files[file.value].(pos := 0), cs)
      modifies this, driver
      ensures driver.Sound() && |driver.disk| == old(|driver.disk|) && Sized(old(driver.View()), GeoOf(driver.b))
      ensures driver.View()
           == Closed(old(driver.View()), GeoOf(driver.b), old(driver.files)[old(file).value].(pos := 0), cs, name,
                                      old(dirty), old(Written()), memory)
      ensures |driver.files| == old(|driver.files|) && !driver.files[old(file).value].isOpen
      ensures forall k :: 0 <= k < |driver.files| && k != old(file).value ==> driver.files[k] == old(driver.files)[k]
    {
      hide FatFiles.DeleteFile, FatFiles.WriteFile, Content, Sized, VolOf, Mirrored, Good, Find;
      ghost var v, g := driver.View(), GeoOf(driver.b);
      ghost var d := driver.disk;
      var h := file.value;
      BacksSpan(v, g, driver.files[h].(pos := 0), cs);
      ViewSized(driver.b, driver.disk);
      DeleteSized(v, g, To83(name));
      if dirty && name != [] {
        var bytes := buffer[..len];
        var size := driver.files[h].size;
        var backup: Option<seq<Byte>> := None;
        if size > 0 && memory {
          driver.files := driver.files[h := driver.files[h].(pos := 0)];
          InFile(Content(v.data, cs), driver.files[h], size);
          backup := driver.Read(h, size, cs);
        }
        driver.Close(h);
        file := None;
        var _ := driver.DeleteFile(name);
        var rc := driver.WriteFile(name, bytes);
        if rc < 0 && backup.Some? && size > 0 {
          var _ := driver.WriteFile(name, backup.value);
        }
      } else {
        driver.Close(h);
      }
    }
  }

  /** The volume after a handle on the file `f` is closed; `bytes` were written to it if it is `dirty`. */
  ghost function Closed(v: Vol, g: Geo, f: File, cs: seq<nat>, name: seq<Byte>, dirty: bool, bytes: seq<Byte>,
      memory: bool): Vol
    requires Sized(v, g) && Backs(v, g, f, cs) && |bytes| < 0x8000_0000 && f.size < 0x8000_0000
  {
    BacksSpan(v, g, f, cs);
    DeleteSized(v, g, To83(name));
    if !dirty || name == [] then v
    else
      var backup := if f.size > 0 && memory then Some(Content(v.data, cs)[..f.size]) else None;
      FatFiles.Close(v, g, To83(name), bytes, backup)
  }

  /** A 32-bit word as a signed number. */
  function Signed(x: Word): int { if x < 0x8000_0000 then x else x - 0x1_0000_0000 }

  /** Where a seek leads to. */
  function Sought(f: File, offset: int, whence: Whence): Word
  {
    var from := match whence case Set => 0 case Cur => Signed(f.pos) case End => Signed(f.size);
    var to := Signed((from + offset) % 0x1_0000_0000);
    if to < 0 then 0 else if to > f.size then f.size else to
  }

  /** Within files of less than 2 GB a seek is the target cut to the file, exactly if the target stays below 2 GB or
      the file is empty. */
  lemma SeekExactly(f: File, offset: int, whence: Whence)
    requires -0x8000_0000 <= offset < 0x8000_0000 && f.pos <= f.size < 0x8000_0000
    ensures var to := offset + match whence case Set => 0 case Cur => f.pos case End => f.size;
      Sought(f, offset, whence) == (if to < 0 then 0 else if to > f.size then f.size else to) <==>
        to < 0x8000_0000 || f.size == 0
  {
  }

  /** From the end of a one-byte file, 2^31 - 1 bytes on lead to its start. */
  lemma SeekWraps(first: Half)
    ensures Sought(File(first, 1, 1, true), 0x7fff_ffff, Cur) == 0
  {
  }

  /** Copies `bytes` into `a` at `at`. */
  method CopyInto(a: array<Byte>, at: nat, bytes: seq<Byte>)
    requires at + |bytes| <= a.Length
    modifies a
    ensures a[..at + |bytes|] == old(a[..at]) + bytes
  {
    var i := 0;
    while i < |bytes|
      invariant 0 <= i <= |bytes| && a[..at] == old(a[..at]) && a[at..at + i] == bytes[..i]
    {
      a[at + i] := bytes[i];
      i := i + 1;
    }
  }

  /** The descriptor stands for the directory slot of a file. */
  predicate Describes(f: File, e: Entry) { f.first == e.first && f.size == e.size }

  lemma DescribesBacks(v: Vol, g: Geo, chains: seq<seq<nat>>, f: File, name: seq<Byte>) returns (i: nat)
    requires Valid(v, g, chains) && Find(v.root, name, 0).Some? && f.pos == 0
    requires Describes(f, v.root[Find(v.root, name, 0).value])
    ensures Find(v.root, name, 0) == Some(i) && i < |chains| && Backs(v, g, f, chains[i])
    ensures (forall k :: 0 <= k < |chains[i]| ==> chains[i][k] < |v.data|) && |Bytes(v, chains, i)| == f.size
    ensures Holds(v, g, chains, name, Bytes(v, chains, i))
    ensures f.size <= |Content(v.data, chains[i])| && Content(v.data, chains[i])[..f.size] == Bytes(v, chains, i)
  {
    hide Find, Content, Clusters, Apart, Covered;
    i := Find(v.root, name, 0).value;
    var cs := chains[i];
    assert Owns(v.root[i], v.fat, g, cs);
    ClustersHold(f.size, g.size);
    BytesLength(v, g, chains, i);
    BacksSpan(v, g, f, cs);
  }

  /** Closing a dirty handle on any file, with or without memory for a backup. The file holds everything that was
      written to the handle if it fits. If not, it holds what it held before, provided that was not empty and could be
      backed up; and otherwise the file is gone. */
  lemma CloseOutcome(v: Vol, g: Geo, chains: seq<seq<nat>>, f: File, name: seq<Byte>, bytes: seq<Byte>, memory: bool)
    requires Valid(v, g, chains) && Proper(To83(name)) && RootName(name) && name != [] && |bytes| < 0x8000_0000
    requires f.size < 0x8000_0000 && f.pos == 0 && Find(v.root, To83(name), 0).Some?
    requires Describes(f, v.root[Find(v.root, To83(name), 0).value])
    ensures Sized(v, g) && Sized(DeleteFile(v, g, To83(name)).0, g)
    ensures var i := Find(v.root, To83(name), 0).value; var cs := chains[i];
      && Backs(v, g, f, cs) && (forall k :: 0 <= k < |cs| ==> cs[k] < |v.data|)
      && Outcome(v, Closed(v, g, f, cs, name, true, bytes, memory), g, To83(name), bytes, Bytes(v, chains, i),
                 f.size > 0 && memory)
  {
    hide DeleteFile, WriteFile, Find, Fits, Content, Clusters, Apart, Covered, Outcome, Valid, Backs, Holds, Bytes;
    var i := DescribesBacks(v, g, chains, f, To83(name));
    ValidSized(v, g, chains);
    var prior := Bytes(v, chains, i);
    CloseAllOrNothing(v, g, chains, To83(name), bytes, prior, if f.size > 0 && memory then Some(prior) else None);
  }

  /** What becomes of a file whose handle is closed after `bytes` have been written to it, if `dirty`. */
  ghost predicate Leaves(v: Vol, w: Vol, g: Geo, chains: seq<seq<nat>>, name: seq<Byte>, dirty: bool, bytes: seq<Byte>,
      memory: bool)
  {
    && Valid(v, g, chains) && Sized(v, g) && Sized(DeleteFile(v, g, name).0, g) && Find(v.root, name, 0).Some?
    && var i := Find(v.root, name, 0).value;
      && (forall k :: 0 <= k < |chains[i]| ==> chains[i][k] < |v.data|)
      && if dirty then Outcome(v, w, g, name, bytes, Bytes(v, chains, i), v.root[i].size > 0 && memory) else w == v
  }

  lemma CloseLeaves(v: Vol, g: Geo, chains: seq<seq<nat>>, f: File, cs: seq<nat>, name: seq<Byte>, dirty: bool,
      bytes: seq<Byte>, memory: bool)
    requires Valid(v, g, chains) && Proper(To83(name)) && RootName(name) && name != [] && |bytes| < 0x8000_0000
    requires f.size < 0x8000_0000 && f.pos == 0 && Find(v.root, To83(name), 0).Some?
    requires Describes(f, v.root[Find(v.root, To83(name), 0).value])
    requires cs == chains[Find(v.root, To83(name), 0).value] && Sized(v, g) && Backs(v, g, f, cs)
    ensures Leaves(v, Closed(v, g, f, cs, name, dirty, bytes, memory), g, chains, To83(name), dirty, bytes, memory)
  {
    hide DeleteFile, WriteFile, Find, Fits, Content, Outcome, Valid, Backs, Bytes, To83;
    CloseOutcome(v, g, chains, f, name, bytes, memory);
  }

  /** The pieces of a sequence of writes, each with whether memory can be allocated for it. */
  type Writes = seq<(seq<Byte>, bool)>

  function Concat(ws: Writes): seq<Byte> { if ws == [] then [] else ws[0].0 + Concat(ws[1..]) }

  predicate Ample(ws: Writes) { forall k :: 0 <= k < |ws| ==> ws[k].1 }

  /** Writes one after the other; what the handle accepts is kept in order. */
  method WriteAll(h: Handle, ws: Writes) returns (accepted: seq<Byte>)
    requires h.Valid() && h.len + |Concat(ws)| < 0x8000_0000
    modifies h, h.buffer
    ensures h.Valid() && h.file == old(h.file) && h.Written() == old(h.Written()) + accepted
    ensures h.len < 0x8000_0000 && (Ample(ws) ==> accepted == Concat(ws))
    ensures h.dirty == (old(h.dirty) || accepted != [])
    ensures h.buffer != old(h.buffer) ==> h.buffer != null && fresh(h.buffer)
  {
    hide Concat;
    accepted := [];
    var i := 0;
    assert ws[0..] == ws;
    while i < |ws|
      invariant 0 <= i <= |ws| && h.Valid() && h.file == old(h.file) && h.Written() == old(h.Written()) + accepted
      invariant h.len + |Concat(ws[i..])| < 0x8000_0000 && (Ample(ws) ==> accepted + Concat(ws[i..]) == Concat(ws))
      invariant h.dirty == (old(h.dirty) || accepted != [])
      invariant h.buffer != old(h.buffer) ==> h.buffer != null && fresh(h.buffer)
    {
      ConcatFrom(ws, i);
      WrittenLength(h);
      var rc := h.Write(ws[i].0, ws[i].1);
      WrittenLength(h);
      Joins(accepted, if rc < 0 then [] else ws[i].0, Concat(ws[i + 1..]));
      accepted := accepted + if rc < 0 then [] else ws[i].0;
      i := i + 1;
    }
    ConcatNone(ws, i);
    assert accepted + [] == accepted;
  }

  lemma ConcatFrom(ws: Writes, i: nat)
    requires i < |ws|
    ensures Concat(ws[i..]) == ws[i].0 + Concat(ws[i + 1..])
  {
    var left := ws[i..];
    assert left[0] == ws[i] && left[1..] == ws[i + 1..];
  }

  lemma ConcatNone(ws: Writes, i: nat)
    requires i == |ws|
    ensures Concat(ws[i..]) == []
  {
  }

  lemma WrittenLength(h: Handle)
    requires h.Valid()
    ensures |h.Written()| == h.len
  {
  }

  lemma Joins(a: seq<Byte>, b: seq<Byte>, c: seq<Byte>)
    ensures a + b + c == a + (b + c)
  {
  }

  /** Any sequence of writes to a handle and its close: what the handle accepted, which is all if memory never ran
      out, decides what the file holds afterwards. */
  method WriteAndClose(h: Handle, ws: Writes, memory: bool, ghost chains: seq<seq<nat>>)
    returns (accepted: seq<Byte>)
    requires h.Valid() && RootName(h.name) && h.name != [] && Proper(To83(h.name))
    requires h.driver.Sound() && Valid(h.driver.View(), GeoOf(h.driver.b), chains)
    requires h.file.Some? && h.file.value < |h.driver.files| && h.driver.files[h.file.value].isOpen
    requires h.driver.files[h.file.value].size < 0x8000_0000 && h.len + |Concat(ws)| < 0x8000_0000
    requires var root := h.driver.View().root; var found := Find(root, To83(h.name), 0);
      found.Some? && Describes(h.driver.files[h.file.value], root[found.value])
    modifies h, h.buffer, h.driver
    ensures h.driver.Sound() && (Ample(ws) ==> accepted == Concat(ws))
    ensures Leaves(old(h.driver.View()), h.driver.View(), GeoOf(h.driver.b), chains, To83(h.name),
        old(h.dirty) || accepted != [], old(h.Written()) + accepted, memory)
  {
    hide VolOf, Mirrored, Good, Find, Content, Valid, Backs, Leaves, Concat, Linkable, To83, Proper, Closed, Sized;
    ghost var v, g, f := h.driver.View(), GeoOf(h.driver.b), h.driver.files[h.file.value].(pos := 0);
    ghost var i := DescribesBacks(v, g, chains, f, To83(h.name));
    ghost var cs := chains[i];
    accepted := WriteAll(h, ws);
    WrittenLength(h);
    ghost var bytes, dirty := h.Written(), h.dirty;
    h.Close(memory, cs);
    CloseLeaves(v, g, chains, f, cs, h.name, dirty, bytes, memory);
  }
}
