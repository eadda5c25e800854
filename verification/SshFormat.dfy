/** The bytes of a packet one by one: where each stands on the wire, and which key and block of the stream hides it. */
module SshFormat {
  import opened Basics
  import opened SshBytes
  import opened SshPackets

  /** Bit j of a byte. */
  function Bit(a: int, j: nat): int
    requires j < 8
  {
    a / [1, 2, 4, 8, 16, 32, 64, 128][j] % 2
  }

  lemma {:induction false} XorBits(a: nat, b: nat, n: nat, j: nat)
    requires j < n
    ensures Xor(a, b, n) / Two(j) % 2 == if a / Two(j) % 2 == b / Two(j) % 2 then 0 else 1
    decreases n
  {
    var x := Xor(a, b, n);
    if j > 0 {
      XorBits(a / 2, b / 2, n - 1, j - 1);
      HalfFirst(x, Two(j - 1));
      HalfFirst(a, Two(j - 1));
      HalfFirst(b, Two(j - 1));
      Halves(Xor(a / 2, b / 2, n - 1), a, b);
    } else {
      LowBit(x);
      LowBit(a);
      LowBit(b);
    }
  }

  lemma LowBit(x: nat)
    ensures x / Two(0) == x
  {
  }

  lemma HalfFirst(x: nat, p: nat)
    requires p > 0
    ensures x / (2 * p) == x / 2 / p
  {
    var q, r := x / 2 / p, x / 2 % p;
    var low := x % 2;
    assert x == 2 * (x / 2) + low && x / 2 == q * p + r;
    assert x == q * (2 * p) + (2 * r + low) by { Double(q, p, r, low, x); }
    Quotient(x, 2 * p, q, 2 * r + low);
  }

  lemma Double(q: int, p: int, r: int, low: int, x: int)
    requires x == 2 * (q * p + r) + low
    ensures x == q * (2 * p) + (2 * r + low)
  {
    assert q * (2 * p) == 2 * (q * p);
  }

  lemma Quotient(v: nat, m: nat, q: nat, r: nat)
    requires v == q * m + r && r < m
    ensures v / m == q
  {
    Remainder(v, m, q, r);
    var k := v / m;
    assert v == k * m + v % m;
    if k < q { More(k, q, m); }
    if q < k { More(q, k, m); }
  }

  /** A mixed byte is the exclusive or, bit for bit; with zero it is the byte of the stream. */
  lemma MixedBits(a: Byte, k: Byte, j: nat)
    requires j < 8
    ensures Bit(Mixed(a, k), j) == if Bit(a, j) == Bit(k, j) then 0 else 1
  {
    hide Mixed;
    MixedIs(a, k);
    TwoAt(j);
    XorBits(a, k, 8, j);
  }

  lemma MixedIs(a: Byte, k: Byte)
    ensures Mixed(a, k) == Xor(a, k, 8)
  {
  }

  lemma TwoAt(j: nat)
    requires j < 8
    ensures Two(j) == [1, 2, 4, 8, 16, 32, 64, 128][j]
  {
    assert Two(3) == 8 && Two(4) == 16 && Two(5) == 2 * Two(4) && Two(6) == 2 * Two(5) && Two(7) == 2 * Two(6);
    if j < 4 { assert j in {0, 1, 2, 3}; } else { assert j in {4, 5, 6, 7}; }
  }

  lemma {:induction false} XorZero(b: nat, n: nat)
    requires b < Two(n)
    ensures Xor(0, b, n) == b
  {
    if n > 0 { XorZero(b / 2, n - 1); }
  }

  lemma MixedZero(k: Byte)
    ensures Mixed(0, k) == k
  {
    hide Mixed, Xor;
    MixedIs(0, k);
    assert Two(8) == 256 by { TwoAt(7); }
    XorZero(k, 8);
  }

  // ----- numbers on the wire -----

  /** Byte i of a count of eight bytes, the highest first. */
  function CountByte(v: nat, i: nat): Byte
    requires i < 8
  {
    v / [0x100_0000_0000_0000, 0x1_0000_0000_0000, 0x100_0000_0000, 0x1_0000_0000,
         0x100_0000, 0x1_0000, 0x100, 1][i] % 256
  }

  /** Byte i of a length of four bytes, the highest first. */
  function LengthByte(v: nat, i: nat): Byte
    requires i < 4
  {
    v / [0x100_0000, 0x1_0000, 0x100, 1][i] % 256
  }

  lemma {:induction false} ToAt(v: nat, n: nat, i: nat)
    requires i < n
    ensures To(v, n)[i] == v / Pow(n - 1 - i) % 256
  {
    if i < n - 1 {
      ToAt(v / 256, n - 1, i);
      DivDiv(v, Pow(n - 2 - i));
    }
  }

  lemma DivDiv(v: nat, p: nat)
    requires p > 0
    ensures v / (256 * p) == v / 256 / p
  {
    var q, r := v / 256 / p, v / 256 % p;
    assert v / 256 == q * p + r;
    SshBytes.Regroup(q, p, r, v);
    Quotient(v, 256 * p, q, r * 256 + v % 256);
  }

  lemma PowAt(i: nat)
    requires i < 8
    ensures Pow(i) == [1, 0x100, 0x1_0000, 0x100_0000, 0x1_0000_0000, 0x100_0000_0000, 0x1_0000_0000_0000,
                       0x100_0000_0000_0000][i]
  {
    assert Pow(1) == 256 && Pow(2) == 65536 && Pow(3) == 256 * Pow(2) && Pow(4) == 256 * Pow(3);
    assert Pow(5) == 256 * Pow(4) && Pow(6) == 256 * Pow(5) && Pow(7) == 256 * Pow(6);
    if i < 4 { assert i in {0, 1, 2, 3}; } else { assert i in {4, 5, 6, 7}; }
  }

  /** The nonce: four zero bytes, then the count of packets, its highest byte first. */
  lemma NonceBytes(count: nat, i: nat)
    requires i < 8
    ensures Nonce(count)[..4] == [0, 0, 0, 0] && Nonce(count)[4 + i] == CountByte(count, i)
  {
    hide To, Pow;
    ToAt(count, 8, i);
    PowAt(7 - i);
    if i < 4 { assert i in {0, 1, 2, 3}; } else { assert i in {4, 5, 6, 7}; }
  }

  /** The largest payloads that are sent and that are accepted. */
  lemma Limits(size: nat, sealed: bool)
    ensures Sendable(size, sealed) <==> size <= if sealed then 65507 else 65527
    ensures Deliverable(size, sealed) <==> 1 <= size <= if sealed then 32763 else 32759
  {
  }

  // ----- packets -----

  /** The key of the tag: the first 64 bytes of the main stream, block 0. */
  function MacKey(suite: Suite, k: Keys, nonce: Octets): (key: Octets)
    ensures |key| == 64 && forall i :: 0 <= i < 64 ==> key[i] == suite.stream(k.main, 0, nonce)(i)
  {
    seq<Byte>(64, (i: nat) => suite.stream(k.main, 0, nonce)(i))
  }

  lemma TagIs(suite: Suite, k: Keys, nonce: Octets, data: Octets)
    ensures Tag(suite, k, nonce, data) == seq<Byte>(16, (i: nat) => suite.mac(MacKey(suite, k, nonce), data)(i))
  {
    hide Mixed;
    var ks := suite.stream(k.main, 0, nonce);
    var key := Mix(seq<Byte>(64, _ => 0), ks);
    forall i | 0 <= i < 64
      ensures key[i] == ks(i)
    {
      MixedZero(ks(i));
    }
    assert key == MacKey(suite, k, nonce);
  }

  /** A packet in clear: length, length of the padding, payload, padding. */
  lemma PlainBytes(suite: Suite, e: End, payload: Octets, pad: Octets, i: nat)
    requires e.keys.None? && |pad| == PadLen(|payload|, false)
    ensures var s := Packet(suite, e, payload, pad);
      var n := |payload|;
      && |s| == 5 + n + |pad| && s[4] == |pad| && s[5..5 + n] == payload && s[5 + n..] == pad
      && (i < 4 ==> s[i] == LengthByte(1 + n + |pad|, i))
  {
    hide To, PadLen;
    PadRules(|payload|, false);
    if i < 4 { LengthAt(1 + |payload| + |pad|, i); }
  }

  lemma LengthAt(v: nat, i: nat)
    requires i < 4
    ensures To(v, 4)[i] == LengthByte(v, i)
  {
    hide To, Pow;
    ToAt(v, 4, i);
    PowAt(3 - i);
    assert i in {0, 1, 2, 3};
  }

  /** What byte i of a sealed packet hides, counted from the length of the padding on. */
  function Clear(payload: Octets, pad: Octets, i: nat): Byte
    requires |pad| < 256 && i < 1 + |payload| + |pad|
  {
    if i == 0 then |pad| else if i <= |payload| then payload[i - 1] else pad[i - 1 - |payload|]
  }

  /** A sealed packet: the length is hidden by block 0 of the header key, everything after it by the main key from
      block 1 on, and 16 bytes at the end authenticate all of it. */
  lemma SealedBytes(suite: Suite, e: End, payload: Octets, pad: Octets, i: nat)
    requires e.keys.Some? && |pad| == PadLen(|payload|, true)
    ensures |pad| < 256
    ensures var s, k, nonce := Packet(suite, e, payload, pad), e.keys.value, Nonce(e.count);
      var n := 1 + |payload| + |pad|;
      && |s| == 4 + n + 16
      && (i < 4 ==> s[i] == Mixed(LengthByte(n, i), suite.stream(k.header, 0, nonce)(i)))
      && (i < n ==> s[4 + i] == Mixed(Clear(payload, pad, i), suite.stream(k.main, 1, nonce)(i)))
      && (i < 16 ==> s[4 + n + i] == suite.mac(MacKey(suite, k, nonce), s[..4 + n])(i))
  {
    hide To, PadLen, Nonce, Tag, Mixed, Clear, Inner, LengthByte;
    PadRules(|payload|, true);
    var k, nonce := e.keys.value, Nonce(e.count);
    var inner := Inner(payload, pad);
    InnerAt(payload, pad, i);
    var n := |inner|;
    if i < 4 { LengthAt(n, i); }
    var head, body := Mix(To(n, 4), suite.stream(k.header, 0, nonce)), Mix(inner, suite.stream(k.main, 1, nonce));
    TagIs(suite, k, nonce, head + body);
    assert Packet(suite, e, payload, pad)[..4 + n] == head + body;
  }

  lemma InnerAt(payload: Octets, pad: Octets, i: nat)
    requires |pad| < 256
    ensures var s := Inner(payload, pad); |s| == 1 + |payload| + |pad| && (i < |s| ==> s[i] == Clear(payload, pad, i))
  {
  }

  /** With a MAC that returns its key, the tag on the wire is the main stream at block 0. */
  lemma TagKey(suite: Suite, e: End, payload: Octets, pad: Octets, i: nat)
    requires e.keys.Some? && |pad| == PadLen(|payload|, true) && i < 16
    requires forall key: Octets, data: Octets, j: nat :: j < |key| ==> suite.mac(key, data)(j) == key[j]
    ensures var s := Packet(suite, e, payload, pad);
      |s| >= 16 && s[|s| - 16 + i] == suite.stream(e.keys.value.main, 0, Nonce(e.count))(i)
  {
    hide Packet, PadLen, Nonce, Clear, Mixed;
    SealedBytes(suite, e, payload, pad, i);
  }

  /** The tag of the same sealed bytes does not depend on the header key. */
  lemma TagHeader(suite: Suite, e: End, h: Octets, payload: Octets, pad: Octets)
    requires e.keys.Some? && |pad| == PadLen(|payload|, true)
    ensures var s := Packet(suite, e, payload, pad);
      var t := Packet(suite, e.(keys := Some(e.keys.value.(header := h))), payload, pad);
      |s| == |t| >= 16 && (s[..|s| - 16] == t[..|s| - 16] ==> s == t)
  {
    hide Packet, PadLen, Nonce, Clear, Mixed, MacKey;
    var f := e.(keys := Some(e.keys.value.(header := h)));
    var s, t := Packet(suite, e, payload, pad), Packet(suite, f, payload, pad);
    SealedBytes(suite, e, payload, pad, 0);
    SealedBytes(suite, f, payload, pad, 0);
    var n := |s| - 16;
    if s[..n] == t[..n] {
      SameKey(suite, e.keys.value, f.keys.value, Nonce(e.count));
      forall i | 0 <= i < 16
        ensures s[n..][i] == t[n..][i]
      {
        SealedBytes(suite, e, payload, pad, i);
        SealedBytes(suite, f, payload, pad, i);
      }
      assert s == s[..n] + s[n..] && t == t[..n] + t[n..];
      assert s[n..] == t[n..];
    }
  }

  lemma SameKey(suite: Suite, k: Keys, l: Keys, nonce: Octets)
    requires k.main == l.main
    ensures MacKey(suite, k, nonce) == MacKey(suite, l, nonce)
  {
  }

  // ----- receiving -----

  /** The signed number in the four bytes of a length. */
  function Signed32(b: Octets): int
    requires |b| == 4
  {
    var b0: int, b1: int, b2: int, b3: int := b[0], b[1], b[2], b[3];
    b0 * 0x100_0000 + b1 * 0x1_0000 + b2 * 0x100 + b3 - if b0 >= 128 then 0x1_0000_0000 else 0
  }

  lemma LengthIs(b: Octets)
    requires |b| == 4
    ensures Length(b) == Signed32(b)
  {
    var b0: int, b1: int, b2: int := b[0], b[1], b[2];
    assert b[..3][..2] == b[..2] && b[..2][..1] == b[..1] && b[..1][..0] == [];
    assert Big(b[..1]) == b0;
    assert Big(b[..2]) == b0 * 256 + b1;
    assert Big(b[..3]) == (b0 * 256 + b1) * 256 + b2;
  }

  /** What a receiver takes the length of the packet to be. */
  function Claimed(suite: Suite, k: Keys, nonce: Octets, s: Octets): int
    requires |s| >= 4
  {
    Signed32(seq<Byte>(4, (i: nat) requires i < 4 => Mixed(s[i], suite.stream(k.header, 0, nonce)(i))))
  }

  /** The 16 bytes behind the first 4 + n are their tag. */
  ghost predicate Tagged(suite: Suite, k: Keys, nonce: Octets, s: Octets, n: nat)
    requires |s| >= 4 + n + 16
  {
    s[4 + n..4 + n + 16] == seq<Byte>(16, (i: nat) => suite.mac(MacKey(suite, k, nonce), s[..4 + n])(i))
  }

  lemma TaggedIs(suite: Suite, k: Keys, nonce: Octets, s: Octets, n: nat)
    requires |s| >= 4 + n + 16
    ensures Tagged(suite, k, nonce, s, n) <==> Tag(suite, k, nonce, s[..4 + n]) == s[4 + n..4 + n + 16]
  {
    hide Tag, MacKey;
    TagIs(suite, k, nonce, s[..4 + n]);
  }

  lemma ClaimedIs(suite: Suite, k: Keys, nonce: Octets, s: Octets)
    requires |s| >= 4
    ensures Length(Mix(s[..4], suite.stream(k.header, 0, nonce))) == Claimed(suite, k, nonce, s)
  {
    hide Mixed, Length;
    var head := Mix(s[..4], suite.stream(k.header, 0, nonce));
    LengthIs(head);
    assert head == seq<Byte>(4, (i: nat) requires i < 4 => Mixed(s[i], suite.stream(k.header, 0, nonce)(i)));
  }

  /** A sealed packet is accepted exactly if its length is between 5 and 32768, all of it is there, the 16 bytes behind
      it are the tag, and there is a payload. The payload is then what the main stream hid from block 1 on. */
  lemma AcceptedExactly(suite: Suite, k: Keys, nonce: Octets, s: Octets)
    requires |s| >= 4
    ensures var n := Claimed(suite, k, nonce, s);
      var ks, r := suite.stream(k.main, 1, nonce), ReceiveSealed(suite, k, nonce, s);
      && (r.Got? <==>
            && 5 <= n <= 32768 && |s| >= 4 + n + 16
            && Tagged(suite, k, nonce, s, n) && n - 1 - Mixed(s[4], ks(0)) >= 1)
      && (r.Eof? <==> 5 <= n <= 32768 && |s| < 4 + n + 16)
      && (r.Got? ==>
            && |r.payload| == n - 1 - Mixed(s[4], ks(0)) && r.rest == s[4 + n + 16..]
            && forall i :: 0 <= i < |r.payload| ==> r.payload[i] == Mixed(s[5 + i], ks(1 + i)))
  {
    hide Mix, Mixed, Tag, Length, MacKey, Tagged, Claimed;
    ClaimedIs(suite, k, nonce, s);
    var n := Claimed(suite, k, nonce, s);
    if 5 <= n <= 32768 && |s| >= 4 + n + 16 {
      TaggedIs(suite, k, nonce, s, n);
      var ks, r := suite.stream(k.main, 1, nonce), ReceiveSealed(suite, k, nonce, s);
      BodyAt(s, n, ks, 0);
      if r.Got? {
        forall i | 0 <= i < |r.payload|
          ensures r.payload[i] == Mixed(s[5 + i], ks(1 + i))
        {
          BodyAt(s, n, ks, 1 + i);
        }
      }
    }
  }

  lemma BodyAt(s: Octets, n: nat, ks: nat -> Byte, i: nat)
    requires |s| >= 4 + n && i < n
    ensures Mix(s[4..4 + n], ks)[i] == Mixed(s[4 + i], ks(i))
  {
    hide Mixed;
  }
}
