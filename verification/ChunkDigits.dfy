/** Chunked bodies as a sender writes them: sizes are written with the sixteen digits, in either case. */
module ChunkDigits {
  import opened Basics
  import opened Chunked

  const SMALL := "0123456789abcdef"
  const CAPITAL := "0123456789ABCDEF"

  function DigitText(d: nat, cap: bool): Byte
    requires d < 16
  {
    DigitCode(d);
    (if cap then CAPITAL[d] else SMALL[d]) as int
  }

  lemma DigitCode(d: nat)
    requires d < 16
    ensures |SMALL| == |CAPITAL| == 16
    ensures SMALL[d] as int == if d < 10 then 48 + d else 87 + d
    ensures CAPITAL[d] as int == if d < 10 then 48 + d else 55 + d
  {
    if d < 8 {
      if d < 4 { assert d in {0, 1, 2, 3}; } else { assert d in {4, 5, 6, 7}; }
    } else {
      if d < 12 { assert d in {8, 9, 10, 11}; } else { assert d in {12, 13, 14, 15}; }
    }
  }

  predicate IsDigit(b: Byte) { exists d, cap :: 0 <= d < 16 && b == DigitText(d, cap) }

  /** The decoder reads the digit at place d of either text as d, and no other byte as a digit. */
  lemma DigitReads(d: nat, cap: bool)
    requires d < 16
    ensures Digit(DigitText(d, cap)) == d
  {
    hide SMALL, CAPITAL;
    DigitCode(d);
  }

  lemma HexIs(b: Byte)
    ensures Hex(b) <==> IsDigit(b)
  {
    hide SMALL, CAPITAL;
    if Hex(b) {
      var d := Digit(b);
      DigitCode(d);
      assert b == DigitText(d, 65 <= b <= 70);
    }
    if IsDigit(b) {
      var d, cap :| 0 <= d < 16 && b == DigitText(d, cap);
      DigitReads(d, cap);
    }
  }

  /** A number in hexadecimal; `caps` tells the case of each digit, from the right. */
  function Written(v: nat, caps: nat -> bool): seq<Byte>
  {
    var low := [DigitText(v % 16, caps(0))];
    if v < 16 then low else Written(v / 16, (i: nat) => caps(i + 1)) + low
  }

  function Zeros(n: nat): seq<Byte> { seq<Byte>(n, _ => '0' as int) }

  lemma {:induction false} WrittenValue(n: nat, v: nat, caps: nat -> bool)
    ensures var d := Zeros(n) + Written(v, caps); AllHex(d) && Value(d) == v
    decreases v
  {
    hide Digit, DigitText;
    var low := DigitText(v % 16, caps(0));
    DigitReads(v % 16, caps(0));
    var d := Zeros(n) + Written(v, caps);
    assert d[|d| - 1] == low;
    if v < 16 {
      assert d[..|d| - 1] == Zeros(n);
      ZerosValue(n);
    } else {
      var more := (i: nat) => caps(i + 1);
      assert d[..|d| - 1] == Zeros(n) + Written(v / 16, more);
      WrittenValue(n, v / 16, more);
    }
    assert d == d[..|d| - 1] + [low];
  }

  lemma {:induction false} ZerosValue(n: nat)
    ensures AllHex(Zeros(n)) && Value(Zeros(n)) == 0
  {
    if n > 0 {
      ZerosValue(n - 1);
      assert Zeros(n)[..n - 1] == Zeros(n - 1);
    }
  }

  // ----- sizes -----

  predicate NoDigit(rest: seq<Byte>) { rest == [] || !IsDigit(rest[0]) }

  /** A number is read modulo 2^32, as a signed number; so one below 2^31 is read as it was written. */
  lemma SizeOf(n: nat, v: nat, caps: nat -> bool, rest: seq<Byte>)
    requires NoDigit(rest)
    ensures var size := Size(Zeros(n) + Written(v, caps) + rest, 0);
      && -0x8000_0000 <= size < 0x8000_0000 && (size - v) % 0x1_0000_0000 == 0
      && (v < 0x8000_0000 ==> size == v)
  {
    hide Size, Digit, DigitText, Written, Zeros;
    var d := Zeros(n) + Written(v, caps);
    WrittenValue(n, v, caps);
    if rest != [] { HexIs(rest[0]); }
    assert d[0..] == d && d[..0] == [];
    SizeMod(d, rest, 0, 0);
  }

  lemma {:induction false} SizeMod(d: seq<Byte>, rest: seq<Byte>, k: nat, acc: int)
    requires k <= |d| && AllHex(d) && NoHexFirst(rest)
    requires -0x8000_0000 <= acc < 0x8000_0000 && (acc - Value(d[..k])) % 0x1_0000_0000 == 0
    ensures var size := Size(d[k..] + rest, acc);
      -0x8000_0000 <= size < 0x8000_0000 && (size - Value(d)) % 0x1_0000_0000 == 0
    decreases |d| - k
  {
    hide Digit, Value;
    var s := d[k..] + rest;
    if k == |d| {
      assert s == rest && d[..k] == d;
    } else {
      var next := Chunked.Wrap(acc * 16 + Digit(d[k]));
      assert s[0] == d[k] && s[1..] == d[k + 1..] + rest;
      ValueNext(d, k);
      WrapMod(acc, Value(d[..k]), Digit(d[k]));
      SizeMod(d, rest, k + 1, next);
    }
  }

  lemma ValueNext(d: seq<Byte>, k: nat)
    requires k < |d| && AllHex(d)
    ensures Value(d[..k + 1]) == Value(d[..k]) * 16 + Digit(d[k])
  {
    assert d[..k + 1][..k] == d[..k];
  }

  lemma WrapMod(acc: int, v: int, d: int)
    requires (acc - v) % 0x1_0000_0000 == 0
    ensures var w := Chunked.Wrap(acc * 16 + d);
      -0x8000_0000 <= w < 0x8000_0000 && (w - (v * 16 + d)) % 0x1_0000_0000 == 0
  {
  }

  // ----- messages -----

  /** A chunk to send: leading zeros and the case of the digits of its size, an extension, the data. */
  datatype Piece = Piece(zeros: nat, caps: nat -> bool, ext: seq<Byte>, data: seq<Byte>)

  predicate Proper(p: Piece) { 0 < |p.data| < 0x8000_0000 && 10 !in p.ext && NoDigit(p.ext) }

  /** Size, extension, line end, data, line end; then zeros and whatever comes behind them. */
  function Text(ps: seq<Piece>, zeros: nat, rest: seq<Byte>): seq<Byte>
  {
    if ps == [] then Zeros(zeros) + rest
    else
      var p := ps[0];
      Zeros(p.zeros) + Written(|p.data|, p.caps) + p.ext + [13, 10] + p.data + [13, 10] + Text(ps[1..], zeros, rest)
  }

  function Data(ps: seq<Piece>): seq<Byte> { if ps == [] then [] else ps[0].data + Data(ps[1..]) }

  function AsChunk(p: Piece): Chunk { Chunk(Zeros(p.zeros) + Written(|p.data|, p.caps), p.ext, p.data) }

  function AsChunks(ps: seq<Piece>): (cs: seq<Chunk>)
    ensures |cs| == |ps| && forall k :: 0 <= k < |ps| ==> cs[k] == AsChunk(ps[k])
  {
    seq(|ps|, k requires 0 <= k < |ps| => AsChunk(ps[k]))
  }

  lemma ChunkGood(p: Piece)
    requires Proper(p)
    ensures WellFormed(AsChunk(p))
  {
    hide Digit, DigitText, Value, Zeros;
    WrittenValue(p.zeros, |p.data|, p.caps);
    if p.ext != [] { HexIs(p.ext[0]); }
  }

  lemma LastGood(zeros: nat, rest: seq<Byte>)
    requires zeros > 0 && NoDigit(rest)
    ensures LastChunk(Zeros(zeros) + rest)
  {
    hide Digit, DigitText, Value, Zeros;
    var s := Zeros(zeros) + rest;
    ZerosValue(zeros);
    ZerosLength(zeros);
    if rest != [] { HexIs(rest[0]); }
    assert s[..zeros] == Zeros(zeros) && s[zeros..] == rest;
  }

  lemma ZerosLength(n: nat)
    ensures |Zeros(n)| == n
  {
  }

  lemma {:induction false} TextIsStream(ps: seq<Piece>, zeros: nat, rest: seq<Byte>)
    ensures Text(ps, zeros, rest) == Stream(AsChunks(ps), Zeros(zeros) + rest) && Data(ps) == Sent(AsChunks(ps))
  {
    hide Zeros, Written;
    if ps != [] {
      TextIsStream(ps[1..], zeros, rest);
      assert AsChunks(ps)[1..] == AsChunks(ps[1..]);
      var p, t := ps[0], Text(ps[1..], zeros, rest);
      var c := AsChunk(p);
      LineUp(c.size, p.ext, p.data, t);
    }
  }

  lemma LineUp(size: seq<Byte>, ext: seq<Byte>, data: seq<Byte>, t: seq<Byte>)
    ensures size + ext + [13, 10] + data + [13, 10] + t == Wire(Chunk(size, ext, data)) + t
  {
  }

  lemma TextGood(ps: seq<Piece>, zeros: nat, rest: seq<Byte>)
    requires zeros > 0 && NoDigit(rest) && forall k :: 0 <= k < |ps| ==> Proper(ps[k])
    ensures Good(AsChunks(ps), Zeros(zeros) + rest)
  {
    hide WellFormed, LastChunk, AsChunk, Proper, Zeros;
    LastGood(zeros, rest);
    forall k | 0 <= k < |ps|
      ensures WellFormed(AsChunks(ps)[k])
    {
      ChunkGood(ps[k]);
    }
  }

  /** The body of a message is the data of its chunks. */
  lemma TextDecodes(ps: seq<Piece>, zeros: nat, rest: seq<Byte>)
    requires zeros > 0 && NoDigit(rest) && forall k :: 0 <= k < |ps| ==> Proper(ps[k])
    ensures Body(Text(ps, zeros, rest)) == Data(ps)
  {
    hide *;
    TextIsStream(ps, zeros, rest);
    TextGood(ps, zeros, rest);
    StreamDecodes(AsChunks(ps), Zeros(zeros) + rest);
  }

  /** Decoding the message in memory writes the first `room` bytes of this data. */
  lemma TextOut(mem: Memory, i: int, end: int, room: nat, ps: seq<Piece>, zeros: nat, rest: seq<Byte>)
    requires zeros > 0 && NoDigit(rest) && forall k :: 0 <= k < |ps| ==> Proper(ps[k])
    requires 0 <= i <= end && end + room < 0x8000_0000 && Seg(mem, i, end) == Text(ps, zeros, rest)
    ensures Out(mem, i, end, room) == if |Data(ps)| <= room then Data(ps) else Data(ps)[..room]
  {
    hide Text, Data, Out, Seg, Stream, AsChunks, Good, Sent, Zeros, NoDigit, Proper;
    TextIsStream(ps, zeros, rest);
    TextGood(ps, zeros, rest);
    StreamOut(mem, i, end, room, AsChunks(ps), Zeros(zeros) + rest);
  }
}
