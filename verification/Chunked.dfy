/** The decoder for HTTP chunked bodies, section 7.1 of RFC 9112. */
module Chunked {
  import opened Basics

  const CR: Byte := 13
  const LF: Byte := 10

  /** The value of a hexadecimal digit, or -1. */
  function Digit(b: Byte): (d: int)
    ensures -1 <= d < 16
  {
    if 48 <= b <= 57 then b - 48
    else if 97 <= b <= 102 then b - 87
    else if 65 <= b <= 70 then b - 55
    else -1
  }

  predicate Hex(b: Byte) { Digit(b) >= 0 }

  function Wrap(x: int): int { (x + 0x8000_0000) % 0x1_0000_0000 - 0x8000_0000 }

  /** The number that the leading digits of `s` are read as, in 32 bits. */
  function Size(s: seq<Byte>, acc: int): int
  {
    if s == [] || !Hex(s[0]) then acc else Size(s[1..], Wrap(acc * 16 + Digit(s[0])))
  }

  function AfterSize(s: seq<Byte>): (r: seq<Byte>)
    ensures |r| <= |s| && (s != [] && Hex(s[0]) ==> |r| < |s|)
  {
    if s == [] || !Hex(s[0]) then s else AfterSize(s[1..])
  }

  function AfterLine(s: seq<Byte>): (r: seq<Byte>)
    ensures |r| <= |s|
  {
    if s == [] then [] else if s[0] == LF then s[1..] else AfterLine(s[1..])
  }

  function AfterBreaks(s: seq<Byte>): (r: seq<Byte>)
    ensures |r| <= |s|
  {
    if s != [] && (s[0] == CR || s[0] == LF) then AfterBreaks(s[1..]) else s
  }

  function Min(a: nat, b: nat): nat { if a < b then a else b }

  /** What the chunks in `s` hold, without a limit on the output. */
  function Body(s: seq<Byte>): seq<Byte>
    decreases |s|
  {
    if s == [] then [] else
      var size, rest := Size(s, 0), AfterLine(AfterSize(s));
      if size <= 0 then [] else
        var n := Min(size, |rest|);
        rest[..n] + Body(AfterBreaks(rest[n..]))
  }

  // ----- the decoder -----

  /** The memory as seen from the start of the received bytes. The message ends at some position; the decoder may
      read on behind it. */
  type Memory = int -> Byte

  function Seg(mem: Memory, i: int, end: int): (r: seq<Byte>)
    requires i <= end
    ensures |r| == end - i
  {
    seq(end - i, k => mem(i + k))
  }

  method ReadSize(mem: Memory, start: int, end: int) returns (size: int, i: int)
    requires start <= end
    ensures start <= i <= end && size == Size(Seg(mem, start, end), 0)
    ensures Seg(mem, i, end) == AfterSize(Seg(mem, start, end))
  {
    size, i := 0, start;
    while i < end
      invariant start <= i <= end
      invariant Size(Seg(mem, start, end), 0) == Size(Seg(mem, i, end), size)
      invariant AfterSize(Seg(mem, start, end)) == AfterSize(Seg(mem, i, end))
    {
      var digit := Digit(mem(i));
      if digit < 0 { break; }
      assert Seg(mem, i, end)[1..] == Seg(mem, i + 1, end);
      size := Wrap(size * 16 + digit);
      i := i + 1;
    }
  }

  method SkipLine(mem: Memory, start: int, end: int) returns (i: int)
    requires start <= end
    ensures start <= i <= end && Seg(mem, i, end) == AfterLine(Seg(mem, start, end))
  {
    i := start;
    while i < end && mem(i) != LF
      invariant start <= i <= end && AfterLine(Seg(mem, start, end)) == AfterLine(Seg(mem, i, end))
    {
      assert Seg(mem, i, end)[1..] == Seg(mem, i + 1, end);
      i := i + 1;
    }
    if i < end {
      assert Seg(mem, i, end)[1..] == Seg(mem, i + 1, end);
      i := i + 1;
    }
  }

  method SkipBreaks(mem: Memory, start: int, end: int) returns (i: int)
    requires start <= end
    ensures start <= i <= end && Seg(mem, i, end) == AfterBreaks(Seg(mem, start, end))
  {
    i := start;
    while i < end && (mem(i) == CR || mem(i) == LF)
      invariant start <= i <= end && AfterBreaks(Seg(mem, start, end)) == AfterBreaks(Seg(mem, i, end))
    {
      assert Seg(mem, i, end)[1..] == Seg(mem, i + 1, end);
      i := i + 1;
    }
  }

  method Copy(mem: Memory, from: int, target: array<Byte>, at: nat, n: nat)
    requires at + n <= target.Length
    modifies target
    ensures target[..at + n] == old(target[..at]) + Seg(mem, from, from + n)
  {
    var k := 0;
    while k < n
      invariant 0 <= k <= n && target[..at + k] == old(target[..at]) + Seg(mem, from, from + k)
    {
      target[at + k] := mem(from + k);
      assert Seg(mem, from, from + k + 1) == Seg(mem, from, from + k) + [mem(from + k)];
      k := k + 1;
      assert target[..at + k] == target[..at + k - 1] + [mem(from + k - 1)];
    }
  }

  /** The position behind a size line, the size being read from position `i`. */
  ghost function DataAt(mem: Memory, i: int, end: int): (j: int)
    requires i <= end
    ensures i <= j <= end
  {
    end - |AfterLine(AfterSize(Seg(mem, i, end)))|
  }

  ghost function NextAt(mem: Memory, j: int, end: int): (k: int)
    requires j <= end
    ensures j <= k <= end
  {
    end - |AfterBreaks(Seg(mem, j, end))|
  }

  /** The end of the chunk is computed in 32 bits: if it wraps around, the chunk is not cut at the end of the
      message. */
  predicate Wraps(j: int, size: int) { j + size >= 0x8000_0000 }

  /** What the decoder writes when there is room for `room` bytes. */
  ghost function Out(mem: Memory, i: int, end: int, room: nat): (r: seq<Byte>)
    requires i <= end
    ensures |r| <= room
    decreases end - i
  {
    if i >= end then [] else
      var size, j := Size(Seg(mem, i, end), 0), DataAt(mem, i, end);
      if size <= 0 then []
      else if Wraps(j, size) then Seg(mem, j, j + Min(size, room))
      else
        var n := Min(size, end - j);
        if n >= room then Seg(mem, j, j + room)
        else Digits(mem, i, end); Seg(mem, j, j + n) + Out(mem, NextAt(mem, j + n, end), end, room - n)
  }

  /** A positive size has at least one digit. */
  lemma Digits(mem: Memory, i: int, end: int)
    requires i < end && Size(Seg(mem, i, end), 0) > 0
    ensures i < DataAt(mem, i, end)
  {
  }

  /** The decoder; message and output together take less than 2 GB. */
  method Decode(mem: Memory, start: nat, end: nat, target: array<Byte>, max: nat) returns (len: nat)
    requires start <= end && max <= target.Length && end + max < 0x8000_0000
    modifies target
    ensures len <= max && target[..len] == Out(mem, start, end, max)
  {
    hide *;
    ghost var whole := Out(mem, start, end, max);
    var i: int := start;
    len := 0;
    while i < end
      invariant start <= i <= end && len <= max && target[..len] + Out(mem, i, end, max - len) == whole
    {
      ghost var from, done := i, target[..len];
      var size;
      size, i := ReadSize(mem, i, end);
      i := SkipLine(mem, i, end);
      DataFound(mem, from, i, end);
      if size <= 0 {
        Ends(mem, from, end, max - len);
        return;
      }
      ghost var full := size;
      if Wrap(i + size) > end { size := end - i; }
      var can := max - len;
      if size < can { can := size; }
      Advance(mem, from, end, max - len, full, size, can, Wrap(i + size));
      ghost var seg := Seg(mem, i, i + can);
      Copy(mem, i, target, len, can);
      len := len + can;
      assert target[..len] == done + seg;
      i := Wrap(i + size);
      ghost var at := i;
      i := SkipBreaks(mem, i, end);
      NextFound(mem, at, i, end);
      if len >= max { return; }
      Cat(done, seg, Out(mem, i, end, max - len));
    }
    Ends(mem, i, end, max - len);
  }

  lemma DataFound(mem: Memory, from: int, i: int, end: int)
    requires from <= end && i <= end && Seg(mem, i, end) == AfterLine(AfterSize(Seg(mem, from, end)))
    ensures i == DataAt(mem, from, end)
  {
    hide AfterLine, AfterSize;
    assert |Seg(mem, i, end)| == end - i;
  }

  lemma NextFound(mem: Memory, from: int, i: int, end: int)
    requires from <= end && i <= end && Seg(mem, i, end) == AfterBreaks(Seg(mem, from, end))
    ensures i == NextAt(mem, from, end)
  {
    hide AfterBreaks;
    assert |Seg(mem, i, end)| == end - i;
  }

  lemma Cat(a: seq<Byte>, b: seq<Byte>, c: seq<Byte>)
    ensures a + b + c == a + (b + c)
  {
  }

  lemma Ends(mem: Memory, i: int, end: int, room: nat)
    requires i <= end && (i == end || Size(Seg(mem, i, end), 0) <= 0)
    ensures Out(mem, i, end, room) == []
  {
  }

  /** One round of the decoder: `n` is the size after the cut, `next` the position behind the chunk. */
  lemma Advance(mem: Memory, i: int, end: nat, room: nat, size: int, n: int, can: nat, next: int)
    requires 0 <= i < end && end + room < 0x8000_0000 && size == Size(Seg(mem, i, end), 0) > 0
    requires var j := DataAt(mem, i, end);
      && n == (if Wrap(j + size) > end then end - j else size) && can == (if n < room then n else room)
      && next == Wrap(j + n)
    ensures next <= end && (can < room ==> i < next)
    ensures var j := DataAt(mem, i, end);
      && (can == room ==> Out(mem, i, end, room) == Seg(mem, j, j + can))
      && (can < room ==>
            Out(mem, i, end, room) == Seg(mem, j, j + can) + Out(mem, NextAt(mem, next, end), end, room - can))
  {
    hide Seg, AfterSize, AfterLine, AfterBreaks;
    SizeSmall(Seg(mem, i, end), 0);
    Digits(mem, i, end);
    var j := DataAt(mem, i, end);
    CutAt(j, size, n, end);
    hide Size, DataAt, NextAt, Wrap;
  }

  lemma CutAt(j: int, size: int, n: int, end: int)
    requires 0 <= j <= end < 0x8000_0000 && 0 < size < 0x8000_0000
    requires n == (if Wrap(j + size) > end then end - j else size)
    ensures if Wraps(j, size) then n == size && Wrap(j + n) < 0
            else n == Min(size, end - j) && Wrap(j + n) == j + n <= end
  {
  }

  lemma {:induction false} SizeSmall(s: seq<Byte>, acc: int)
    requires -0x8000_0000 <= acc < 0x8000_0000
    ensures -0x8000_0000 <= Size(s, acc) < 0x8000_0000
    decreases |s|
  {
    if s != [] && Hex(s[0]) { SizeSmall(s[1..], Wrap(acc * 16 + Digit(s[0]))); }
  }

  // ----- when the output is the body -----

  function Take(s: seq<Byte>, n: nat): seq<Byte> { s[..Min(n, |s|)] }

  /** At every size line that is reached, the end of the chunk fits 31 bits, or the rest of the message fills the
      output anyway. */
  ghost predicate Safe(mem: Memory, i: int, end: int, room: nat)
    requires i <= end
    decreases end - i
  {
    i >= end ||
    var size, j := Size(Seg(mem, i, end), 0), DataAt(mem, i, end);
    size <= 0 ||
    if Wraps(j, size) then room <= end - j
    else
      var n := Min(size, end - j);
      n >= room || (Digits(mem, i, end); Safe(mem, NextAt(mem, j + n, end), end, room - n))
  }

  lemma SegParts(mem: Memory, i: int, end: int, n: nat)
    requires i + n <= end
    ensures Seg(mem, i, end)[..n] == Seg(mem, i, i + n) && Seg(mem, i, end)[n..] == Seg(mem, i + n, end)
  {
  }

  lemma {:induction false} SuffixLine(s: seq<Byte>)
    ensures AfterLine(s) == s[|s| - |AfterLine(s)|..]
  {
    if s != [] && s[0] != LF { SuffixLine(s[1..]); }
  }

  lemma {:induction false} SuffixSize(s: seq<Byte>)
    ensures AfterSize(s) == s[|s| - |AfterSize(s)|..]
  {
    if s != [] && Hex(s[0]) { SuffixSize(s[1..]); }
  }

  lemma {:induction false} SuffixBreaks(s: seq<Byte>)
    ensures AfterBreaks(s) == s[|s| - |AfterBreaks(s)|..]
  {
    if s != [] && (s[0] == CR || s[0] == LF) { SuffixBreaks(s[1..]); }
  }

  lemma DataIs(mem: Memory, i: int, end: int)
    requires i <= end
    ensures AfterLine(AfterSize(Seg(mem, i, end))) == Seg(mem, DataAt(mem, i, end), end)
  {
    hide AfterLine, AfterSize;
    var s := Seg(mem, i, end);
    var t := AfterSize(s);
    SuffixSize(s);
    SuffixLine(t);
    SegParts(mem, i, end, |s| - |AfterLine(t)|);
    assert AfterLine(t) == s[|s| - |AfterLine(t)|..];
  }

  lemma NextIs(mem: Memory, j: int, end: int)
    requires j <= end
    ensures AfterBreaks(Seg(mem, j, end)) == Seg(mem, NextAt(mem, j, end), end)
  {
    hide AfterBreaks;
    var s := Seg(mem, j, end);
    SuffixBreaks(s);
    SegParts(mem, j, end, |s| - |AfterBreaks(s)|);
  }

  lemma BodyIs(mem: Memory, i: int, end: int)
    requires i < end && Size(Seg(mem, i, end), 0) > 0
    ensures var size, j := Size(Seg(mem, i, end), 0), DataAt(mem, i, end); var n := Min(size, end - j);
      Body(Seg(mem, i, end)) == Seg(mem, j, j + n) + Body(Seg(mem, NextAt(mem, j + n, end), end))
  {
    hide Size, AfterSize, AfterLine, AfterBreaks, Seg;
    var size, j := Size(Seg(mem, i, end), 0), DataAt(mem, i, end);
    var n := Min(size, end - j);
    DataIs(mem, i, end);
    SegParts(mem, j, end, n);
    NextIs(mem, j + n, end);
  }

  lemma BodyNone(s: seq<Byte>)
    requires s == [] || Size(s, 0) <= 0
    ensures Body(s) == []
  {
  }

  /** The output is the first `room` bytes of the body exactly if the message is safe. */
  lemma {:induction false} OutExactly(mem: Memory, i: int, end: int, room: nat)
    requires 0 <= i <= end && end + room < 0x8000_0000
    ensures Out(mem, i, end, room) == Take(Body(Seg(mem, i, end)), room) <==> Safe(mem, i, end, room)
    decreases end - i
  {
    hide Size, AfterSize, AfterLine, AfterBreaks, Seg, Body, DataAt, NextAt;
    if i == end || Size(Seg(mem, i, end), 0) <= 0 {
      BodyNone(Seg(mem, i, end));
    } else {
      var size, j := Size(Seg(mem, i, end), 0), DataAt(mem, i, end);
      var n := Min(size, end - j);
      BodyIs(mem, i, end);
      Digits(mem, i, end);
      if Wraps(j, size) {
        WrapsOut(mem, i, end, room);
      } else if n < room {
        OutExactly(mem, NextAt(mem, j + n, end), end, room - n);
        TakeMore(Seg(mem, j, j + n), Body(Seg(mem, NextAt(mem, j + n, end), end)), room,
            Out(mem, NextAt(mem, j + n, end), end, room - n));
      } else {
        TakeLess(mem, j, n, room, Body(Seg(mem, NextAt(mem, j + n, end), end)));
      }
    }
  }

  lemma TakeMore(a: seq<Byte>, b: seq<Byte>, room: nat, c: seq<Byte>)
    requires |a| < room
    ensures a + c == Take(a + b, room) <==> c == Take(b, room - |a|)
  {
    assert Take(a + b, room) == a + Take(b, room - |a|);
    assert (a + c)[|a|..] == c && (a + Take(b, room - |a|))[|a|..] == Take(b, room - |a|);
  }

  lemma TakeLess(mem: Memory, j: int, n: nat, room: nat, b: seq<Byte>)
    requires room <= n
    ensures Seg(mem, j, j + room) == Take(Seg(mem, j, j + n) + b, room)
  {
  }

  /** A wrapped chunk fills the output from behind the message, where its body ends with the message. */
  lemma WrapsOut(mem: Memory, i: int, end: int, room: nat)
    requires 0 <= i < end && end + room < 0x8000_0000 && Size(Seg(mem, i, end), 0) > 0
    requires Wraps(DataAt(mem, i, end), Size(Seg(mem, i, end), 0))
    ensures var j := DataAt(mem, i, end);
      Out(mem, i, end, room) == Seg(mem, j, j + room) && Body(Seg(mem, i, end)) == Seg(mem, j, end)
    ensures Out(mem, i, end, room) == Take(Body(Seg(mem, i, end)), room) <==> Safe(mem, i, end, room)
  {
    hide Size, AfterSize, AfterLine;
    var j := DataAt(mem, i, end);
    BodyIs(mem, i, end);
    assert Seg(mem, end, end) == [];
    NextIs(mem, end, end);
    BodyNone([]);
    if room <= end - j { SegParts(mem, j, end, room); }
  }

  // ----- the encoding -----

  /** A chunk as it is sent: the digits of its size, an extension, the data. */
  datatype Chunk = Chunk(size: seq<Byte>, ext: seq<Byte>, data: seq<Byte>)

  predicate AllHex(s: seq<Byte>) { forall k :: 0 <= k < |s| ==> Hex(s[k]) }

  /** What hexadecimal digits stand for. */
  function Value(d: seq<Byte>): nat
    requires AllHex(d)
  {
    if d == [] then 0 else Value(d[..|d| - 1]) * 16 + Digit(d[|d| - 1])
  }

  predicate NoHexFirst(s: seq<Byte>) { s == [] || !Hex(s[0]) }

  predicate WellFormed(c: Chunk)
  {
    && c.size != [] && AllHex(c.size) && Value(c.size) == |c.data| && 0 < |c.data| < 0x8000_0000
    && LF !in c.ext && NoHexFirst(c.ext)
  }

  function Wire(c: Chunk): seq<Byte> { c.size + (c.ext + [CR] + ([LF] + (c.data + [CR, LF]))) }

  /** The last chunk has size zero; anything may follow its digits. */
  predicate LastChunk(s: seq<Byte>)
  {
    exists n :: 0 < n <= |s| && AllHex(s[..n]) && Value(s[..n]) == 0 && NoHexFirst(s[n..])
  }

  function Stream(chunks: seq<Chunk>, last: seq<Byte>): seq<Byte>
  {
    if chunks == [] then last else Wire(chunks[0]) + Stream(chunks[1..], last)
  }

  /** The body that was sent. */
  function Sent(chunks: seq<Chunk>): seq<Byte>
  {
    if chunks == [] then [] else chunks[0].data + Sent(chunks[1..])
  }

  predicate Good(chunks: seq<Chunk>, last: seq<Byte>)
  {
    LastChunk(last) && forall k :: 0 <= k < |chunks| ==> WellFormed(chunks[k])
  }

  lemma {:induction false} ValueGrows(d: seq<Byte>, k: nat)
    requires AllHex(d) && k <= |d|
    ensures Value(d[..k]) <= Value(d)
  {
    if k < |d| {
      var e := d[..|d| - 1];
      ValueGrows(e, k);
      assert e[..k] == d[..k];
    } else {
      assert d[..k] == d;
    }
  }

  /** Reading digits from the left in 32 bits finds the value of those written. */
  lemma {:induction false} SizeReads(d: seq<Byte>, rest: seq<Byte>, k: nat)
    requires k <= |d| && AllHex(d) && Value(d) < 0x8000_0000 && NoHexFirst(rest)
    ensures Size(d[k..] + rest, Value(d[..k])) == Value(d)
    decreases |d| - k
  {
    var s := d[k..] + rest;
    if k == |d| {
      assert s == rest && d[..k] == d;
    } else {
      SizeReads(d, rest, k + 1);
      SizeStep(d, rest, k);
    }
  }

  lemma SizeStep(d: seq<Byte>, rest: seq<Byte>, k: nat)
    requires k < |d| && AllHex(d) && Value(d) < 0x8000_0000
    ensures Size(d[k..] + rest, Value(d[..k])) == Size(d[k + 1..] + rest, Value(d[..k + 1]))
  {
    var s, acc := d[k..] + rest, Value(d[..k]);
    ValueStep(d, k);
    assert s[1..] == d[k + 1..] + rest && s[0] == d[k];
    assert Size(s, acc) == Size(s[1..], Wrap(acc * 16 + Digit(d[k])));
  }

  lemma ValueStep(d: seq<Byte>, k: nat)
    requires k < |d| && AllHex(d) && Value(d) < 0x8000_0000
    ensures Value(d[..k + 1]) == Value(d[..k]) * 16 + Digit(d[k]) == Wrap(Value(d[..k]) * 16 + Digit(d[k]))
  {
    hide Value, Wrap;
    ValueGrows(d, k + 1);
    ValueNext(d, k);
    WrapSmall(Value(d[..k + 1]));
  }

  lemma WrapSmall(x: nat)
    requires x < 0x8000_0000
    ensures Wrap(x) == x
  {
  }

  lemma {:induction false} SizeSkipped(d: seq<Byte>, rest: seq<Byte>)
    requires AllHex(d) && NoHexFirst(rest)
    ensures AfterSize(d + rest) == rest
  {
    if d == [] {
      assert d + rest == rest;
    } else {
      SizeSkipped(d[1..], rest);
      assert (d + rest)[1..] == d[1..] + rest;
    }
  }

  lemma {:induction false} LineSkipped(e: seq<Byte>, rest: seq<Byte>)
    requires LF !in e && (rest == [] || rest[0] == LF)
    ensures AfterLine(e + rest) == if rest == [] then [] else rest[1..]
  {
    if e == [] {
      assert e + rest == rest;
    } else {
      LineSkipped(e[1..], rest);
      assert (e + rest)[1..] == e[1..] + rest;
    }
  }

  lemma BreaksSkipped(rest: seq<Byte>)
    requires rest == [] || Hex(rest[0])
    ensures AfterBreaks([CR, LF] + rest) == rest
  {
    var t := [LF] + rest;
    var s := [CR, LF] + rest;
    assert s[1..] == t && t[1..] == rest;
    assert AfterBreaks(rest) == rest;
    assert AfterBreaks(t) == AfterBreaks(rest);
    assert AfterBreaks(s) == AfterBreaks(t);
  }

  /** Where the data of a chunk begins, however much of it has come. */
  lemma Located(c: Chunk, came: seq<Byte>)
    requires WellFormed(c)
    ensures var s := c.size + (c.ext + [CR] + ([LF] + came));
      s != [] && Size(s, 0) == |c.data| && AfterLine(AfterSize(s)) == came
  {
    var line := c.ext + [CR] + ([LF] + came);
    assert line[0] == if c.ext == [] then CR else c.ext[0];
    SizeReads(c.size, line, 0);
    assert c.size[0..] == c.size && c.size[..0] == [];
    SizeSkipped(c.size, line);
    LineSkipped(c.ext + [CR], [LF] + came);
    assert ([LF] + came)[1..] == came;
  }

  /** A whole chunk adds its data. */
  lemma ChunkDecodes(c: Chunk, t: seq<Byte>)
    requires WellFormed(c) && (t == [] || Hex(t[0]))
    ensures Body(Wire(c) + t) == c.data + Body(t)
  {
    var came := c.data + ([CR, LF] + t);
    Located(c, came);
    Regrouped(c, t);
    hide Size, AfterSize, AfterLine, AfterBreaks, Wire, WellFormed;
    assert came[..|c.data|] == c.data && came[|c.data|..] == [CR, LF] + t;
    BreaksSkipped(t);
  }

  lemma Regrouped(c: Chunk, t: seq<Byte>)
    ensures Wire(c) + t == c.size + (c.ext + [CR] + ([LF] + (c.data + ([CR, LF] + t))))
  {
    var came := c.data + [CR, LF];
    assert came + t == c.data + ([CR, LF] + t);
    assert [LF] + came + t == [LF] + (came + t);
  }

  lemma StreamStarts(chunks: seq<Chunk>, last: seq<Byte>)
    requires Good(chunks, last)
    ensures Stream(chunks, last) != [] && Hex(Stream(chunks, last)[0])
  {
    if chunks == [] {
      var n :| 0 < n <= |last| && AllHex(last[..n]);
      assert last[0] == last[..n][0];
    } else {
      assert Stream(chunks, last)[0] == chunks[0].size[0];
    }
  }

  lemma LastSize(last: seq<Byte>, k: nat)
    requires LastChunk(last) && k <= |last|
    ensures Size(last[..k], 0) == 0
  {
    var n :| 0 < n <= |last| && AllHex(last[..n]) && Value(last[..n]) == 0 && NoHexFirst(last[n..]);
    var m, s := Min(n, k), last[..k];
    var d := last[..n][..m];
    ValueGrows(last[..n], m);
    assert s == d + s[m..] && NoHexFirst(s[m..]);
    SizeReads(d, s[m..], 0);
    assert d[0..] == d && d[..0] == [];
  }

  lemma LastDecodes(last: seq<Byte>, k: nat)
    requires LastChunk(last) && k <= |last|
    ensures Body(last[..k]) == []
  {
    LastSize(last, k);
    BodyNone(last[..k]);
  }

  /** The decoder inverts the encoding: the body of the stream is the body that was sent. */
  lemma {:induction false} StreamDecodes(chunks: seq<Chunk>, last: seq<Byte>)
    requires Good(chunks, last)
    ensures Body(Stream(chunks, last)) == Sent(chunks)
  {
    if chunks == [] {
      assert last[..|last|] == last;
      LastDecodes(last, |last|);
    } else {
      StreamDecodes(chunks[1..], last);
      StreamStarts(chunks[1..], last);
      ChunkDecodes(chunks[0], Stream(chunks[1..], last));
    }
  }

  /** A cut size line states no more than the whole one, and no data follows it. */
  lemma CutLine(c: Chunk, k: nat)
    requires WellFormed(c) && k <= |c.size| + |c.ext| + 1
    ensures var s := Wire(c)[..k]; Size(s, 0) <= |c.data| && AfterLine(AfterSize(s)) == []
  {
    var s, m := Wire(c)[..k], Min(k, |c.size|);
    var d, e := c.size[..m], (c.ext + [CR])[..k - m];
    assert s == d + e && (e != [] ==> m == |c.size| && e[0] == (c.ext + [CR])[0]);
    ValueGrows(c.size, m);
    SizeReads(d, e, 0);
    assert d[0..] == d && d[..0] == [];
    SizeSkipped(d, e);
    LineSkipped(e, []);
    assert e + [] == e;
  }

  /** Cut inside its size or its extension, a chunk adds nothing. */
  lemma CutHead(c: Chunk, k: nat)
    requires WellFormed(c) && k <= |c.size| + |c.ext| + 1
    ensures Body(Wire(c)[..k]) == []
  {
    CutLine(c, k);
  }

  /** Cut behind its line, a chunk adds the data that came. */
  lemma CutData(c: Chunk, k: nat)
    requires WellFormed(c) && |c.size| + |c.ext| + 2 <= k < |Wire(c)|
    ensures Body(Wire(c)[..k]) <= c.data
  {
    var h := |c.size| + |c.ext| + 2;
    var came := (c.data + [CR, LF])[..k - h];
    assert Wire(c)[..k] == c.size + (c.ext + [CR] + ([LF] + came));
    Located(c, came);
    var s, n := Wire(c)[..k], Min(|c.data|, |came|);
    var left := came[n..];
    assert left == [] || (left == [CR] && left[1..] == []);
    assert AfterBreaks(left) == [];
    hide Size, AfterSize, AfterLine, AfterBreaks, Wire, WellFormed;
    assert Body(s) == came[..n] + Body([]);
    assert came[..n] == c.data[..n];
  }

  /** Every truncation of the stream decodes to a prefix of the body. */
  lemma {:induction false} TruncationDecodes(chunks: seq<Chunk>, last: seq<Byte>, k: nat)
    requires Good(chunks, last) && k <= |Stream(chunks, last)|
    ensures Body(Stream(chunks, last)[..k]) <= Sent(chunks)
  {
    if chunks == [] {
      LastDecodes(last, k);
    } else {
      var c, t := chunks[0], Stream(chunks[1..], last);
      if k < |Wire(c)| {
        assert Stream(chunks, last)[..k] == Wire(c)[..k];
        if k <= |c.size| + |c.ext| + 1 { CutHead(c, k); } else { CutData(c, k); }
      } else {
        var j := k - |Wire(c)|;
        TruncationDecodes(chunks[1..], last, j);
        StreamStarts(chunks[1..], last);
        ChunkDecodes(c, t[..j]);
        assert Stream(chunks, last)[..k] == Wire(c) + t[..j];
      }
    }
  }

  // ----- streams in memory -----

  /** A message of 7fffffff, a line feed and the letter A: the end of the chunk wraps around, so the output is filled
      from behind the message, although the body is the letter alone. */
  lemma WrappedSize(mem: Memory, room: nat)
    requires 1 < room && Seg(mem, 0, 10) == [55, 102, 102, 102, 102, 102, 102, 102, LF, 65] && 10 + room < 0x8000_0000
    ensures |Out(mem, 0, 10, room)| == room && Body(Seg(mem, 0, 10)) == [65] && !Safe(mem, 0, 10, room)
  {
    var d, s := [55, 102, 102, 102, 102, 102, 102, 102], Seg(mem, 0, 10);
    Digits7f();
    assert s == d + [LF, 65] && d[0..] == d && d[..0] == [];
    SizeReads(d, [LF, 65], 0);
    SizeSkipped(d, [LF, 65]);
    assert AfterLine([LF, 65]) == [65] by { assert [LF, 65][1..] == [65]; }
    hide Size, AfterSize, AfterLine;
    WrapsOut(mem, 0, 10, room);
    assert mem(9) == s[9];
  }

  lemma Digits7f()
    ensures var d := [55, 102, 102, 102, 102, 102, 102, 102]; AllHex(d) && Value(d) == 0x7fff_ffff
  {
    hide Value;
    var d: seq<Byte> := [55, 102, 102, 102, 102, 102, 102, 102];
    assert AllHex(d);
    assert d[..8] == d && d[..0] == [];
    ValueNext(d, 7);
    ValueNext(d, 6);
    ValueNext(d, 5);
    ValueNext(d, 4);
    ValueNext(d, 3);
    ValueNext(d, 2);
    ValueNext(d, 1);
    ValueNext(d, 0);
    ValueNone();
  }

  lemma ValueNone()
    ensures Value([]) == 0
  {
  }

  lemma ValueNext(d: seq<Byte>, k: nat)
    requires k < |d| && AllHex(d)
    ensures Value(d[..k + 1]) == Value(d[..k]) * 16 + Digit(d[k])
  {
    assert d[..k + 1][..k] == d[..k] && d[..k + 1][k] == d[k];
  }

  /** Every size line of the message states a size below `bound`. */
  ghost predicate SizesBelow(mem: Memory, i: int, end: int, bound: int)
    requires i <= end
    decreases end - i
  {
    i >= end ||
    var size, j := Size(Seg(mem, i, end), 0), DataAt(mem, i, end);
    size <= 0 || (size < bound && (Digits(mem, i, end);
                                   SizesBelow(mem, NextAt(mem, j + Min(size, end - j), end), end, bound)))
  }

  /** Messages whose sizes cannot reach 2^31 from any position in them are safe. */
  lemma {:induction false} SmallSizesSafe(mem: Memory, i: int, end: int, room: nat, bound: int)
    requires 0 <= i <= end && end + bound <= 0x8000_0000 && SizesBelow(mem, i, end, bound)
    ensures Safe(mem, i, end, room)
    decreases end - i
  {
    hide Size, AfterSize, AfterLine, AfterBreaks, Seg, DataAt, NextAt;
    if i < end && Size(Seg(mem, i, end), 0) > 0 {
      var size, j := Size(Seg(mem, i, end), 0), DataAt(mem, i, end);
      var n := Min(size, end - j);
      Digits(mem, i, end);
      if n < room { SmallSizesSafe(mem, NextAt(mem, j + n, end), end, room - n, bound); }
    }
  }

  /** A stream is safe if it is complete, or if no size reaches 2^31 from its end. */
  lemma {:induction false} StreamSafe(mem: Memory, i: int, end: int, room: nat, chunks: seq<Chunk>, last: seq<Byte>,
      k: nat)
    requires 0 <= i <= end < 0x8000_0000 && Good(chunks, last) && k <= |Stream(chunks, last)|
    requires Seg(mem, i, end) == Stream(chunks, last)[..k]
    requires k == |Stream(chunks, last)| || forall c :: c in chunks ==> |c.data| + end < 0x8000_0000
    ensures Safe(mem, i, end, room)
    decreases chunks
  {
    hide Size, AfterSize, AfterLine, AfterBreaks, Seg, Wire, WellFormed, Safe, LastChunk;
    if chunks == [] {
      LastSize(last, k);
      SafeNone(mem, i, end, room);
    } else {
      var c, t := chunks[0], Stream(chunks[1..], last);
      WireLength(c);
      if k < |Wire(c)| {
        assert Stream(chunks, last)[..k] == Wire(c)[..k];
        CutChunk(c, k);
        SafeLast(mem, i, end, room);
      } else {
        var j := k - |Wire(c)|;
        assert Stream(chunks, last)[..k] == Wire(c) + t[..j];
        StreamStarts(chunks[1..], last);
        var next := WholeChunk(mem, i, end, c, t[..j]);
        if |c.data| < room { StreamSafe(mem, next, end, room - |c.data|, chunks[1..], last, j); }
        SafeStep(mem, i, end, room, next);
      }
    }
  }

  lemma WireLength(c: Chunk)
    ensures |Wire(c)| == |c.size| + |c.ext| + 2 + |c.data| + 2
  {
  }

  lemma SafeNone(mem: Memory, i: int, end: int, room: nat)
    requires i <= end && Size(Seg(mem, i, end), 0) <= 0
    ensures Safe(mem, i, end, room)
  {
  }

  /** After a cut chunk nothing follows. */
  lemma CutChunk(c: Chunk, k: nat)
    requires WellFormed(c) && k < |Wire(c)|
    ensures var s := Wire(c)[..k]; var rest := AfterLine(AfterSize(s)); var n := Size(s, 0);
      n <= |c.data| && (n > 0 ==> AfterBreaks(rest[Min(n, |rest|)..]) == [])
  {
    if k <= |c.size| + |c.ext| + 1 {
      CutLine(c, k);
    } else {
      var h := |c.size| + |c.ext| + 2;
      var came := (c.data + [CR, LF])[..k - h];
      assert Wire(c)[..k] == c.size + (c.ext + [CR] + ([LF] + came));
      Located(c, came);
      var left := came[Min(|c.data|, |came|)..];
      assert left == [] || (left == [CR] && left[1..] == []);
    }
  }

  lemma SafeLast(mem: Memory, i: int, end: int, room: nat)
    requires 0 <= i <= end
    requires var s := Seg(mem, i, end); var rest := AfterLine(AfterSize(s)); var n := Size(s, 0);
      n > 0 ==> end + n < 0x8000_0000 && AfterBreaks(rest[Min(n, |rest|)..]) == []
    ensures Safe(mem, i, end, room)
  {
    hide Size, AfterSize, AfterLine, AfterBreaks, Seg;
    var n := Size(Seg(mem, i, end), 0);
    if i < end && n > 0 {
      DataIs(mem, i, end);
      var j := DataAt(mem, i, end);
      SegParts(mem, j, end, Min(n, end - j));
    }
  }

  lemma WholeChunk(mem: Memory, i: int, end: int, c: Chunk, t: seq<Byte>) returns (next: int)
    requires 0 <= i <= end && WellFormed(c) && (t == [] || Hex(t[0])) && Seg(mem, i, end) == Wire(c) + t
    ensures i <= next <= end && Seg(mem, next, end) == t
    ensures i < end && Size(Seg(mem, i, end), 0) == |c.data| > 0 && DataAt(mem, i, end) + |c.data| <= end
    ensures next == NextAt(mem, DataAt(mem, i, end) + |c.data|, end)
  {
    var came := c.data + ([CR, LF] + t);
    Located(c, came);
    Regrouped(c, t);
    hide Size, AfterSize, AfterLine, AfterBreaks, Wire, Seg;
    DataIs(mem, i, end);
    var j, n := DataAt(mem, i, end), |c.data|;
    assert came[n..] == [CR, LF] + t;
    BreaksSkipped(t);
    SegParts(mem, j, end, n);
    NextIs(mem, j + n, end);
    next := NextAt(mem, j + n, end);
  }

  lemma SafeStep(mem: Memory, i: int, end: int, room: nat, next: int)
    requires 0 <= i < end < 0x8000_0000
    requires var n, j := Size(Seg(mem, i, end), 0), DataAt(mem, i, end);
      n > 0 && j + n <= end && next == NextAt(mem, j + n, end) && (n < room ==> Safe(mem, next, end, room - n))
    ensures Safe(mem, i, end, room)
  {
    hide Size, DataAt, NextAt;
  }

  /** Decoding a complete stream in memory writes the first `room` bytes that were sent. */
  lemma StreamOut(mem: Memory, i: int, end: int, room: nat, chunks: seq<Chunk>, last: seq<Byte>)
    requires 0 <= i <= end && end + room < 0x8000_0000 && Good(chunks, last) && Seg(mem, i, end) == Stream(chunks, last)
    ensures Out(mem, i, end, room) == Take(Sent(chunks), room)
  {
    var s := Stream(chunks, last);
    assert s[..|s|] == s;
    StreamSafe(mem, i, end, room, chunks, last, |s|);
    OutExactly(mem, i, end, room);
    StreamDecodes(chunks, last);
  }

  /** Decoding a stream that was cut anywhere writes a prefix of what was sent, if no size reaches 2^31 from the end of
      the message. */
  lemma CutStreamOut(mem: Memory, i: int, end: int, room: nat, chunks: seq<Chunk>, last: seq<Byte>, k: nat)
    requires 0 <= i <= end && end + room < 0x8000_0000 && Good(chunks, last) && k <= |Stream(chunks, last)|
    requires Seg(mem, i, end) == Stream(chunks, last)[..k] && forall c :: c in chunks ==> |c.data| + end < 0x8000_0000
    ensures Out(mem, i, end, room) == Take(Body(Stream(chunks, last)[..k]), room)
    ensures Out(mem, i, end, room) <= Sent(chunks)
  {
    StreamSafe(mem, i, end, room, chunks, last, k);
    OutExactly(mem, i, end, room);
    TruncationDecodes(chunks, last, k);
  }

  /** So for chunks below 2^28 bytes in a message of at most 0x7000_0000. */
  lemma CutSmallChunks(mem: Memory, i: int, end: int, room: nat, chunks: seq<Chunk>, last: seq<Byte>, k: nat)
    requires 0 <= i <= end <= 0x7000_0000 && end + room < 0x8000_0000 && Good(chunks, last)
    requires k <= |Stream(chunks, last)| && Seg(mem, i, end) == Stream(chunks, last)[..k]
    requires forall c :: c in chunks ==> |c.data| < 0x1000_0000
    ensures Out(mem, i, end, room) <= Sent(chunks)
  {
    CutStreamOut(mem, i, end, room, chunks, last, k);
  }
}
