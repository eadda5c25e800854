/** The two ends of the SSH packet layer as they run: packets are built, encrypted and decrypted in place in buffers. */
module SshWire {
  import opened Basics
  import opened SshBytes
  import opened SshPackets

  // ----- buffers -----

  method PutBytes(a: array<Byte>, at: nat, s: Octets)
    requires at + |s| <= a.Length
    modifies a
    ensures a[..at + |s|] == old(a[..at]) + s
  {
    var i := 0;
    while i < |s|
      invariant 0 <= i <= |s| && a[..at + i] == old(a[..at]) + s[..i]
    {
      a[at + i] := s[i];
      i := i + 1;
      assert a[..at + i] == a[..at + i - 1] + [s[i - 1]];
    }
  }

  /** Writes a number as four big-endian bytes. */
  method PutLength(a: array<Byte>, v: nat)
    requires a.Length >= 4 && v < 0x1_0000_0000
    modifies a
    ensures a[..4] == To(v, 4)
  {
    a[0] := v / 0x100_0000 % 256;
    a[1] := v / 0x1_0000 % 256;
    a[2] := v / 0x100 % 256;
    a[3] := v % 256;
    FourBytes(v);
    assert a[..4] == [v / 0x100_0000 % 256, v / 0x1_0000 % 256, v / 0x100 % 256, v % 256];
  }

  lemma FourBytes(v: nat)
    ensures To(v, 4) == [v / 0x100_0000 % 256, v / 0x1_0000 % 256, v / 0x100 % 256, v % 256]
  {
    var b, c, d := v / 256, v / 256 / 256, v / 256 / 256 / 256;
    assert c == v / 0x1_0000 && d == v / 0x100_0000;
    assert To(d, 1) == [d % 256];
    assert To(c, 2) == [d % 256, c % 256];
    assert To(b, 3) == [d % 256, c % 256, b % 256];
  }

  /** Encrypts or decrypts n bytes in place. */
  method MixIn(a: array<Byte>, from: nat, n: nat, ks: nat -> Byte)
    requires from + n <= a.Length
    modifies a
    ensures a[..from] == old(a[..from]) && a[from..from + n] == Mix(old(a[from..from + n]), ks)
    ensures a[from + n..] == old(a[from + n..])
  {
    ghost var s := a[..];
    hide Mixed;
    var i := 0;
    while i < n
      invariant 0 <= i <= n
      invariant forall k :: 0 <= k < a.Length ==>
        a[k] == if from <= k < from + i then Mixed(s[k], ks(k - from)) else s[k]
    {
      a[from + i] := Mixed(a[from + i], ks(i));
      i := i + 1;
    }
    assert a[from..from + n] == Mix(s[from..from + n], ks);
  }

  method TagOf(suite: Suite, k: Keys, nonce: Octets, data: Octets) returns (tag: Octets)
    ensures tag == Tag(suite, k, nonce, data)
  {
    var key := new Byte[64](_ => 0);
    assert key[..] == seq<Byte>(64, _ => 0) && key[0..64] == key[..];
    MixIn(key, 0, 64, suite.stream(k.main, 0, nonce));
    var bytes := key[..];
    assert key[0..64] == bytes;
    tag := seq<Byte>(16, (i: nat) => suite.mac(bytes, data)(i));
  }

  // ----- sending -----

  class Sender {
    const counter: array<Byte>
    const buffer: array<Byte>
    var keys: Option<Keys>
    ghost var count: nat

    constructor ()
      ensures Valid() && State() == End(0, None) && fresh(counter) && fresh(buffer)
    {
      counter := new Byte[8](_ => 0);
      buffer := new Byte[BUF_CAP](_ => 0);
      keys, count := None, 0;
      new;
      ZeroCounter(counter[..]);
    }

    ghost predicate Valid()
      reads this, counter
    {
      counter.Length == 8 && buffer.Length == BUF_CAP && counter != buffer && counter[..] == To(count, 8)
    }

    ghost function State(): End
      reads this
    {
      End(count, keys)
    }

    /** Builds the packet for a payload in the buffer and hands it to the network; `pad` are random bytes. */
    method Send(suite: Suite, payload: Octets, pad: Octets) returns (wire: Option<Octets>)
      requires Valid() && |pad| == PadLen(|payload|, keys.Some?)
      modifies this`count, counter, buffer
      ensures Valid() && wire.Some? == Sendable(|payload|, keys.Some?)
      ensures wire.Some? ==> wire.value == Packet(suite, old(State()), payload, pad) && count == old(count) + 1
      ensures wire.None? ==> count == old(count)
    {
      hide To, Mix, PadLen;
      PadRules(|payload|, keys.Some?);
      var total := 1 + |payload| + |pad|;
      var size := 4 + total + if keys.Some? then 16 else 0;
      if size > BUF_CAP { return None; }
      ghost var was := counter[..];
      PutLength(buffer, total);
      buffer[4] := |pad|;
      assert buffer[..5] == To(total, 4) + [|pad|];
      PutBytes(buffer, 5, payload);
      PutBytes(buffer, 5 + |payload|, pad);
      Built(total, payload, pad);
      assert counter[..] == was;
      if keys.Some? { Seal(suite, keys.value, total, To(count, 8), To(total, 4), Inner(payload, pad)); }
      wire := Some(buffer[..size]);
      IncrTo(count, 8);
      Increment(counter);
      count := count + 1;
    }

    /** Encrypts length and body in place and appends the tag. */
    method Seal(suite: Suite, k: Keys, n: nat, ghost digits: Octets, ghost length: Octets, ghost inner: Octets)
      requires counter.Length == 8 && buffer.Length == BUF_CAP && counter != buffer && counter[..] == digits
      requires |length| == 4 && n == |inner| && 4 + n + 16 <= BUF_CAP && buffer[..4 + n] == length + inner
      modifies buffer
      ensures var nonce := [0, 0, 0, 0] + digits;
        var sealed := Mix(length, suite.stream(k.header, 0, nonce)) + Mix(inner, suite.stream(k.main, 1, nonce));
        buffer[..4 + n + 16] == sealed + Tag(suite, k, nonce, sealed)
    {
      hide Mix, Tag;
      var nonce := [0, 0, 0, 0] + counter[..];
      assert buffer[..4] == length && buffer[0..4] == buffer[..4];
      assert buffer[4..4 + n] == inner;
      ghost var after := buffer[4..];
      MixIn(buffer, 0, 4, suite.stream(k.header, 0, nonce));
      assert buffer[4..] == after;
      assert buffer[4..4 + n] == after[..n] == inner;
      ghost var head := buffer[0..4];
      assert buffer[..4] == head;
      MixIn(buffer, 4, n, suite.stream(k.main, 1, nonce));
      assert buffer[..4 + n] == buffer[..4] + buffer[4..4 + n];
      var tag := TagOf(suite, k, nonce, buffer[..4 + n]);
      PutBytes(buffer, 4 + n, tag);
    }
  }

  lemma ZeroCounter(s: Octets)
    requires |s| == 8 && forall k :: 0 <= k < 8 ==> s[k] == 0
    ensures s == To(0, 8)
  {
    ZeroBytes(8);
  }

  lemma {:induction false} ZeroBytes(n: nat)
    ensures forall k :: 0 <= k < n ==> To(0, n)[k] == 0
  {
    if n > 0 { ZeroBytes(n - 1); }
  }

  lemma Built(total: nat, payload: Octets, pad: Octets)
    requires |pad| < 256
    ensures To(total, 4) + [|pad|] + payload + pad == To(total, 4) + Inner(payload, pad)
  {
    hide To;
  }

  // ----- receiving -----

  class Receiver {
    const counter: array<Byte>
    const buffer: array<Byte>
    var keys: Option<Keys>
    var input: Octets
    ghost var count: nat

    constructor (stream: Octets)
      ensures Valid() && State() == End(0, None) && input == stream && fresh(counter) && fresh(buffer)
    {
      counter := new Byte[8](_ => 0);
      buffer := new Byte[BUF_CAP](_ => 0);
      keys, count, input := None, 0, stream;
      new;
      ZeroCounter(counter[..]);
    }

    ghost predicate Valid()
      reads this, counter
    {
      counter.Length == 8 && buffer.Length == BUF_CAP && counter != buffer && counter[..] == To(count, 8)
    }

    ghost function State(): End
      reads this
    {
      End(count, keys)
    }

    /** Takes exactly n bytes from the network, or all that are left if there are fewer. */
    method Take(n: nat) returns (s: Option<Octets>)
      modifies this`input
      ensures s.Some? == (n <= |old(input)|)
      ensures if s.Some? then s.value == old(input)[..n] && input == old(input)[n..] else input == []
    {
      if |input| < n { input := []; return None; }
      s := Some(input[..n]);
      input := input[n..];
    }

    /** Receives one packet: 0 and the payload, -1 at the end of the stream, -2 for a broken packet. */
    method Recv(suite: Suite) returns (rc: int, payload: Octets)
      requires Valid()
      modifies this`input, this`count, counter, buffer
      ensures Valid()
      ensures match Receive(suite, old(State()), old(input))
        case Got(p, rest) => rc == 0 && payload == p && input == rest && count == old(count) + 1
        case Eof => rc == -1 && count == old(count)
        case Broken => rc == -2 && count == old(count)
    {
      hide To, ReceivePlain, ReceiveSealed;
      ghost var c := counter[..];
      if keys.Some? { rc, payload := RecvSealed(suite, keys.value); } else { rc, payload := RecvPlain(); }
      assert counter[..] == c;
      if rc == 0 {
        IncrTo(count, 8);
        Increment(counter);
        count := count + 1;
      }
    }

    method RecvPlain() returns (rc: int, payload: Octets)
      modifies this`input
      ensures match ReceivePlain(old(input))
        case Got(p, rest) => rc == 0 && payload == p && input == rest
        case Eof => rc == -1
        case Broken => rc == -2
    {
      hide Length;
      ghost var s := input;
      payload := [];
      var head := Take(5);
      if head.None? { return -1, []; }
      assert head.value[..4] == s[..4];
      var total, pad: int := Length(head.value[..4]), head.value[4];
      if total < 1 + pad + 1 || total > PAYLOAD_MAX { return -2, []; }
      var n := total - 1 - pad;
      var data := Take(n);
      if data.None? { return -1, []; }
      assert data.value == s[5..5 + n] && input == s[5 + n..];
      var rest := Take(pad);
      if rest.None? { return -1, []; }
      assert input == s[5 + n + pad..];
      rc, payload := 0, data.value;
    }

    method RecvSealed(suite: Suite, k: Keys) returns (rc: int, payload: Octets)
      requires Valid()
      modifies this`input, buffer
      ensures match ReceiveSealed(suite, k, Nonce(count), old(input))
        case Got(p, rest) => rc == 0 && payload == p && input == rest
        case Eof => rc == -1
        case Broken => rc == -2
    {
      hide To, Mix, Tag, Length;
      ghost var s := input;
      var nonce := [0, 0, 0, 0] + counter[..];
      payload := [];
      var head := Take(4);
      if head.None? { return -1, []; }
      var total := Length(Mix(head.value, suite.stream(k.header, 0, nonce)));
      if total < 1 + 4 || total > PAYLOAD_MAX { return -2, []; }
      var data := Take(total + 16);
      if data.None? { return -1, []; }
      SealedCuts(s, total, head.value, data.value);
      PutBytes(buffer, 0, data.value);
      assert buffer[..total + 16] == data.value;
      assert buffer[..total] == data.value[..total] && buffer[total..total + 16] == data.value[total..];
      var tag := TagOf(suite, k, nonce, head.value + buffer[..total]);
      var bad := Differ(tag, buffer, total);
      if bad { return -2, []; }
      assert buffer[0..total] == buffer[..total];
      MixIn(buffer, 0, total, suite.stream(k.main, 1, nonce));
      ghost var inner := buffer[0..total];
      var pad: int := buffer[0];
      assert inner[0] == pad;
      var n := total - 1 - pad;
      if n < 1 { return -2, []; }
      payload := buffer[1..1 + n];
      assert payload == inner[1..1 + n];
      rc := 0;
    }
  }

  lemma SealedCuts(s: Octets, total: nat, head: Octets, data: Octets)
    requires 4 + total + 16 <= |s| && head == s[..4] && data == s[4..][..total + 16]
    ensures head + data[..total] == s[..4 + total] && data[..total] == s[4..4 + total]
    ensures data[total..] == s[4 + total..4 + total + 16] && s[4..][total + 16..] == s[4 + total + 16..]
  {
  }

  /** Whether the 16 bytes of the buffer at `at` are not the tag. */
  method Differ(tag: Octets, a: array<Byte>, at: nat) returns (bad: bool)
    requires |tag| == 16 && at + 16 <= a.Length
    ensures bad <==> a[at..at + 16] != tag
  {
    bad := false;
    var i := 0;
    while i < 16
      invariant 0 <= i <= 16 && (bad <==> a[at..at + i] != tag[..i])
    {
      assert a[at..at + i + 1] == a[at..at + i] + [a[at + i]] && tag[..i + 1] == tag[..i] + [tag[i]];
      if tag[i] != a[at + i] { bad := true; }
      i := i + 1;
    }
    assert tag[..16] == tag;
  }

  // ----- both ends -----

  /** Sends all messages, changing keys where they say so. */
  method SendRun(s: Sender, suite: Suite, ms: seq<Message>) returns (stream: Octets)
    requires s.Valid() && Fits(s.State(), ms)
    modifies s, s.counter, s.buffer
    ensures s.Valid() && stream == SendAll(suite, old(s.State()), ms) && s.State() == Finally(old(s.State()), ms)
  {
    hide Packet, PadLen, Sendable, Deliverable, To;
    ghost var e := s.State();
    stream := [];
    var i := 0;
    assert ms[0..] == ms;
    while i < |ms|
      invariant 0 <= i <= |ms| && s.Valid() && Fits(s.State(), ms[i..])
      invariant stream + SendAll(suite, s.State(), ms[i..]) == SendAll(suite, e, ms)
      invariant Finally(s.State(), ms[i..]) == Finally(e, ms)
    {
      ghost var left, now, sofar := ms[i..], s.State(), stream;
      assert left[0] == ms[i] && left[1..] == ms[i + 1..];
      var wire := s.Send(suite, ms[i].payload, ms[i].pad);
      stream := stream + wire.value;
      if ms[i].keys.Some? { s.keys := ms[i].keys; }
      assert s.State() == Passed(now, ms[i].keys);
      Joined(sofar, wire.value, SendAll(suite, s.State(), ms[i + 1..]));
      i := i + 1;
    }
    assert ms[i..] == [];
  }

  lemma Joined(a: Octets, b: Octets, c: Octets)
    ensures a + b + c == a + (b + c)
  {
  }

  /** Receives a packet for each of the switches, changing keys where they say so. */
  method RecvRun(r: Receiver, suite: Suite, switches: seq<Option<Keys>>) returns (got: Option<seq<Octets>>)
    requires r.Valid()
    modifies r, r.counter, r.buffer
    ensures r.Valid()
    ensures match ReceiveAll(suite, old(r.State()), old(r.input), switches)
      case Some((payloads, e, rest)) => got == Some(payloads) && r.State() == e && r.input == rest
      case None => got == None
  {
    hide Receive, To;
    ghost var e, stream := r.State(), r.input;
    var all := [];
    var i := 0;
    assert switches[0..] == switches;
    BeforeNone(ReceiveAll(suite, e, stream, switches));
    while i < |switches|
      invariant 0 <= i <= |switches| && r.Valid()
      invariant ReceiveAll(suite, e, stream, switches)
           == Before(all, ReceiveAll(suite, r.State(), r.input, switches[i..]))
    {
      ghost var left, now, was := switches[i..], r.State(), r.input;
      assert left[0] == switches[i] && left[1..] == switches[i + 1..];
      var rc, payload := r.Recv(suite);
      if rc != 0 { return None; }
      if switches[i].Some? { r.keys := switches[i]; }
      assert r.State() == Passed(now, switches[i]);
      BeforeMore(all, payload, ReceiveAll(suite, r.State(), r.input, switches[i + 1..]));
      all := all + [payload];
      i := i + 1;
    }
    assert switches[i..] == [] && all + [] == all;
    got := Some(all);
  }

  function Before(a: seq<Octets>, r: Option<(seq<Octets>, End, Octets)>): Option<(seq<Octets>, End, Octets)>
  {
    match r case None => None case Some((b, e, rest)) => Some((a + b, e, rest))
  }

  lemma BeforeNone(r: Option<(seq<Octets>, End, Octets)>)
    ensures Before([], r) == r
  {
    if r.Some? { assert [] + r.value.0 == r.value.0; }
  }

  lemma BeforeMore(a: seq<Octets>, p: Octets, r: Option<(seq<Octets>, End, Octets)>)
    ensures Before(a + [p], r)
         == Before(a, match r case None => None case Some((b, e, rest)) => Some(([p] + b, e, rest)))
  {
    if r.Some? { assert a + [p] + r.value.0 == a + ([p] + r.value.0); }
  }

  /** A whole run between two ends that start alike: the receiver gets the payloads sent, in order, and both counters
      hold the number of packets modulo 2^64. */
  method Exchange(s: Sender, r: Receiver, suite: Suite, ms: seq<Message>) returns (got: Option<seq<Octets>>)
    requires s.Valid() && r.Valid() && s.State() == r.State() && Fits(s.State(), ms)
    requires {s.counter, s.buffer} !! {r.counter, r.buffer}
    modifies s, s.counter, s.buffer, r, r.counter, r.buffer
    ensures s.Valid() && r.Valid() && s.State() == r.State() && s.count == old(s.count) + |ms|
    ensures got == Some(Payloads(ms)) && s.counter[..] == r.counter[..] == To(old(s.count) + |ms|, 8)
  {
    hide Fits, SendAll, ReceiveAll, Finally, To;
    ghost var e := s.State();
    var stream := SendRun(s, suite, ms);
    r.input := stream;
    AllArrive(suite, e, ms, []);
    assert stream + [] == stream;
    got := RecvRun(r, suite, Switches(ms));
  }
}
