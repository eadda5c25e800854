/** Byte strings of the SSH packet layer: big-endian numbers, the packet counter, and XOR with a key stream. */
module SshBytes {
  import opened Basics

  type Octets = seq<Byte>

  /** 256 to the n. */
  function Pow(n: nat): (p: nat)
    ensures p > 0
  {
    if n == 0 then 1 else 256 * Pow(n - 1)
  }

  /** The number that big-endian bytes stand for. */
  function Big(s: Octets): nat
  {
    if s == [] then 0 else Big(s[..|s| - 1]) * 256 + s[|s| - 1]
  }

  /** A number as n big-endian bytes, as far as they go. */
  function To(v: nat, n: nat): (s: Octets)
    ensures |s| == n
  {
    if n == 0 then [] else To(v / 256, n - 1) + [v % 256]
  }

  lemma {:induction false} BigTo(v: nat, n: nat)
    ensures Big(To(v, n)) == v % Pow(n)
  {
    if n > 0 {
      BigTo(v / 256, n - 1);
      assert To(v, n)[..n - 1] == To(v / 256, n - 1);
      ModSplit(v, Pow(n - 1));
    }
  }

  lemma ModSplit(v: nat, p: nat)
    requires p > 0
    ensures v % (256 * p) == v / 256 % p * 256 + v % 256
  {
    var q, a := v / 256 / p, v / 256 % p;
    assert v / 256 == q * p + a;
    assert v == q * (256 * p) + (a * 256 + v % 256) by { Regroup(q, p, a, v); }
    assert a * 256 + v % 256 < 256 * p;
    Remainder(v, 256 * p, q, a * 256 + v % 256);
  }

  lemma Regroup(q: int, p: int, a: int, v: int)
    requires v / 256 == q * p + a
    ensures v == q * (256 * p) + (a * 256 + v % 256)
  {
    assert q * (256 * p) == (q * p) * 256;
  }

  lemma Remainder(v: nat, m: nat, q: int, r: nat)
    requires v == q * m + r && r < m
    ensures v % m == r
  {
    var k := v / m;
    assert v == k * m + v % m;
    if k < q { More(k, q, m); }
    if q < k { More(q, k, m); }
  }

  lemma More(a: int, b: int, m: nat)
    requires a < b
    ensures a * m + m <= b * m
  {
    assert b * m == a * m + m + (b - a - 1) * m;
  }

  /** Two counters have the same bytes exactly if they differ by a multiple of 256^n. */
  lemma ToSame(v: nat, w: nat, n: nat)
    ensures To(v, n) == To(w, n) <==> v % Pow(n) == w % Pow(n)
  {
    BigTo(v, n);
    BigTo(w, n);
    if v % Pow(n) == w % Pow(n) { SameBytes(v, w, n); }
  }

  lemma {:induction false} SameBytes(v: nat, w: nat, n: nat)
    requires v % Pow(n) == w % Pow(n)
    ensures To(v, n) == To(w, n)
  {
    if n > 0 {
      ModSplit(v, Pow(n - 1));
      ModSplit(w, Pow(n - 1));
      SameBytes(v / 256, w / 256, n - 1);
    }
  }

  // ----- the counter -----

  /** Adds one to the number, from the last byte on. */
  function Incr(s: Octets): (r: Octets)
    ensures |r| == |s|
  {
    if s == [] then []
    else
      var n := |s| - 1;
      if s[n] == 255 then Incr(s[..n]) + [0] else s[..n] + [s[n] + 1]
  }

  /** Counting packets is adding one, whatever the number of bytes. */
  lemma {:induction false} IncrTo(v: nat, n: nat)
    ensures Incr(To(v, n)) == To(v + 1, n)
    decreases n
  {
    if n > 0 {
      var s := To(v, n);
      assert s[..n - 1] == To(v / 256, n - 1);
      LastByte(v);
      if v % 256 == 255 { IncrTo(v / 256, n - 1); }
    }
  }

  lemma LastByte(v: nat)
    ensures if v % 256 == 255 then (v + 1) % 256 == 0 && (v + 1) / 256 == v / 256 + 1
            else (v + 1) % 256 == v % 256 + 1 && (v + 1) / 256 == v / 256
  {
  }

  method Increment(counter: array<Byte>)
    requires counter.Length == 8
    modifies counter
    ensures counter[..] == Incr(old(counter[..]))
  {
    ghost var s := counter[..];
    var i := 7;
    assert s[..8] == s && counter[8..] == [];
    while i >= 0
      invariant -1 <= i <= 7
      invariant counter[..i + 1] == s[..i + 1]
      invariant Incr(s) == Incr(s[..i + 1]) + counter[i + 1..]
    {
      ghost var t := s[..i + 1];
      assert t[..i] == s[..i] && t[i] == s[i] == counter[i];
      ghost var rest := counter[i + 1..];
      var v: int := counter[i];
      v := v + 1;
      counter[i] := v % 256;
      assert counter[i + 1..] == rest && counter[..i] == s[..i];
      if v < 256 {
        assert counter[..] == s[..i] + [v] + rest;
        return;
      }
      assert counter[i..] == [0] + rest;
      i := i - 1;
    }
    assert counter[..] == counter[0..];
  }

  // ----- the cipher -----

  /** Exclusive or of the lowest n bits. */
  function Xor(a: nat, b: nat, n: nat): (r: nat)
    ensures r < Two(n)
  {
    if n == 0 then 0 else 2 * Xor(a / 2, b / 2, n - 1) + (if a % 2 == b % 2 then 0 else 1)
  }

  /** 2 to the n. */
  function Two(n: nat): (p: nat)
    ensures p > 0
  {
    if n == 0 then 1 else 2 * Two(n - 1)
  }

  lemma {:induction false} XorTwice(a: nat, b: nat, n: nat)
    requires a < Two(n)
    ensures Xor(Xor(a, b, n), b, n) == a
  {
    if n > 0 {
      XorTwice(a / 2, b / 2, n - 1);
      Halves(Xor(a / 2, b / 2, n - 1), a, b);
    }
  }

  lemma Halves(x: nat, a: nat, b: nat)
    ensures var y := 2 * x + (if a % 2 == b % 2 then 0 else 1);
      y / 2 == x && (if y % 2 == b % 2 then 0 else 1) == a % 2 && a == 2 * (a / 2) + a % 2
  {
  }

  function Mixed(a: Byte, k: Byte): Byte
  {
    assert Two(8) == 256;
    Xor(a, k, 8)
  }

  /** XOR with a key stream. */
  function Mix(s: Octets, ks: nat -> Byte): (r: Octets)
    ensures |r| == |s|
  {
    seq<Byte>(|s|, (i: nat) requires i < |s| => Mixed(s[i], ks(i)))
  }

  lemma MixTwice(s: Octets, ks: nat -> Byte)
    ensures Mix(Mix(s, ks), ks) == s
  {
    hide Mixed;
    forall i | 0 <= i < |s|
      ensures Mixed(Mixed(s[i], ks(i)), ks(i)) == s[i]
    {
      MixedTwice(s[i], ks(i));
    }
  }

  lemma MixedTwice(a: Byte, k: Byte)
    ensures Mixed(Mixed(a, k), k) == a
  {
    assert Two(8) == 256;
    XorTwice(a, k, 8);
  }
}
