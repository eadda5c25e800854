/** The SSH binary packet layer, section 6 of RFC 4253, with the cipher and the MAC left abstract: the packet format,
    and what a receiver obtains from a stream of packets. */
module SshPackets {
  import opened Basics
  import opened SshBytes

  const BUF_CAP := 65536
  const PAYLOAD_MAX := 32768

  /** A stream cipher, which gives the bytes to XOR for a key, a block counter and a nonce, and a MAC of 16 bytes. */
  datatype Suite = Suite(stream: (Octets, nat, Octets) -> (nat -> Byte), mac: (Octets, Octets) -> (nat -> Byte))

  datatype Keys = Keys(main: Octets, header: Octets)

  /** One end of one direction: how many packets have passed, and the keys once they are in use. */
  datatype End = End(count: nat, keys: Option<Keys>)

  function Nonce(count: nat): (n: Octets)
    ensures |n| == 12
  {
    [0, 0, 0, 0] + To(count, 8)
  }

  /** Within 2^64 packets no nonce is used twice. */
  lemma NoncesDiffer(a: nat, b: nat)
    requires a < b < a + 0x1_0000_0000_0000_0000
    ensures Nonce(a) != Nonce(b)
  {
    Pow8();
    ToSame(a, b, 8);
    Apart(a, b, 0x1_0000_0000_0000_0000);
    assert Nonce(a)[4..] == To(a, 8) && Nonce(b)[4..] == To(b, 8);
  }

  lemma Pow8()
    ensures Pow(8) == 0x1_0000_0000_0000_0000
  {
    assert Pow(2) == 65536 && Pow(4) == 0x1_0000_0000;
    assert Pow(8) == 256 * (256 * (256 * (256 * Pow(4))));
  }

  lemma Apart(a: nat, b: nat, m: nat)
    requires a < b < a + m
    ensures a % m != b % m
  {
    var p, q := a / m, b / m;
    assert a == p * m + a % m && b == q * m + b % m;
    if p < q { More(p, q, m); }
    if q < p { More(q, p, m); }
  }

  // ----- packets -----

  /** With keys in use the length field does not count for the alignment. */
  function PadLen(size: nat, sealed: bool): nat
  {
    var n := 8 - ((if sealed then 1 else 5) + size) % 8;
    if n < 4 then n + 8 else n
  }

  /** At least four bytes of padding, and what is aligned is a multiple of eight. */
  lemma PadRules(size: nat, sealed: bool)
    ensures 4 <= PadLen(size, sealed) < 12 && ((if sealed then 1 else 5) + size + PadLen(size, sealed)) % 8 == 0
  {
  }

  /** Padding length, payload and padding. */
  function Inner(payload: Octets, pad: Octets): Octets
    requires |pad| < 256
  {
    [|pad|] + payload + pad
  }

  function WireLen(size: nat, sealed: bool): nat { 4 + 1 + size + PadLen(size, sealed) + if sealed then 16 else 0 }

  /** The sender refuses packets that do not fit its buffer. */
  predicate Sendable(size: nat, sealed: bool) { WireLen(size, sealed) <= BUF_CAP }

  function Tag(s: Suite, k: Keys, nonce: Octets, data: Octets): (t: Octets)
    ensures |t| == 16
  {
    var key := Mix(seq<Byte>(64, _ => 0), s.stream(k.main, 0, nonce));
    seq<Byte>(16, (i: nat) => s.mac(key, data)(i))
  }

  /** The bytes on the wire. */
  function Packet(s: Suite, e: End, payload: Octets, pad: Octets): Octets
    requires |pad| == PadLen(|payload|, e.keys.Some?)
  {
    var inner := Inner(payload, pad);
    var length := To(|inner|, 4);
    match e.keys
    case None => length + inner
    case Some(k) =>
      var nonce := Nonce(e.count);
      var sealed := Mix(length, s.stream(k.header, 0, nonce)) + Mix(inner, s.stream(k.main, 1, nonce));
      sealed + Tag(s, k, nonce, sealed)
  }

  /** A payload and what follows it, the end of the stream, or a broken packet. */
  datatype Received = Got(payload: Octets, rest: Octets) | Eof | Broken

  /** Four bytes as a signed number. */
  function Length(s: Octets): int
    requires |s| == 4
  {
    var v := Big(s);
    if v < 0x8000_0000 then v else v - 0x1_0000_0000
  }

  function ReceivePlain(s: Octets): Received
  {
    if |s| < 5 then Eof
    else
      var total, pad: int := Length(s[..4]), s[4];
      if total < 1 + pad + 1 || total > PAYLOAD_MAX then Broken
      else
        var n := total - 1 - pad;
        if |s| < 5 + n + pad then Eof else Got(s[5..5 + n], s[5 + n + pad..])
  }

  function ReceiveSealed(suite: Suite, k: Keys, nonce: Octets, s: Octets): Received
  {
    if |s| < 4 then Eof
    else
      var total := Length(Mix(s[..4], suite.stream(k.header, 0, nonce)));
      if total < 1 + 4 || total > PAYLOAD_MAX then Broken
      else if |s| < 4 + total + 16 then Eof
      else if Tag(suite, k, nonce, s[..4 + total]) != s[4 + total..4 + total + 16] then Broken
      else
        var inner := Mix(s[4..4 + total], suite.stream(k.main, 1, nonce));
        var n := total - 1 - inner[0];
        if n < 1 then Broken else Got(inner[1..1 + n], s[4 + total + 16..])
  }

  function Receive(suite: Suite, e: End, s: Octets): Received
  {
    match e.keys
    case None => ReceivePlain(s)
    case Some(k) => ReceiveSealed(suite, k, Nonce(e.count), s)
  }

  // ----- one packet -----

  /** What the receiver accepts: it wants at least one byte, and is stricter than the sender about the size. */
  predicate Deliverable(size: nat, sealed: bool) { 1 <= size && 1 + size + PadLen(size, sealed) <= PAYLOAD_MAX }

  lemma LengthTo(n: nat)
    requires n < 0x8000_0000
    ensures Length(To(n, 4)) == n
  {
    assert Pow(2) == 65536 && Pow(4) == 0x1_0000_0000;
    BigTo(n, 4);
  }

  lemma InnerParts(payload: Octets, pad: Octets)
    requires |pad| < 256
    ensures var s := Inner(payload, pad);
      |s| == 1 + |payload| + |pad| && s[0] == |pad| && s[1..1 + |payload|] == payload
  {
  }

  lemma PlainArrives(payload: Octets, pad: Octets, rest: Octets)
    requires |pad| == PadLen(|payload|, false) && Sendable(|payload|, false)
    ensures var inner := Inner(payload, pad);
      ReceivePlain(To(|inner|, 4) + inner + rest) == if Deliverable(|payload|, false) then Got(payload, rest)
        else Broken
  {
    hide To, PadLen;
    PadRules(|payload|, false);
    var inner := Inner(payload, pad);
    var s := To(|inner|, 4) + inner + rest;
    InnerParts(payload, pad);
    LengthTo(|inner|);
    assert s[..4] == To(|inner|, 4) && s[4] == inner[0];
    assert s[5..5 + |payload|] == payload && s[5 + |payload| + |pad|..] == rest;
  }

  lemma SealedArrives(suite: Suite, k: Keys, nonce: Octets, payload: Octets, pad: Octets, rest: Octets)
    requires |pad| == PadLen(|payload|, true) && Sendable(|payload|, true)
    ensures var inner := Inner(payload, pad);
      var sealed := Mix(To(|inner|, 4), suite.stream(k.header, 0, nonce)) + Mix(inner, suite.stream(k.main, 1, nonce));
      ReceiveSealed(suite, k, nonce, sealed + Tag(suite, k, nonce, sealed) + rest)
        == if Deliverable(|payload|, true) then Got(payload, rest) else Broken
  {
    hide To, PadLen, Mix, Tag;
    PadRules(|payload|, true);
    var inner := Inner(payload, pad);
    InnerParts(payload, pad);
    LengthTo(|inner|);
    var head, body := Mix(To(|inner|, 4), suite.stream(k.header, 0, nonce)), Mix(inner, suite.stream(k.main, 1, nonce));
    var sealed := head + body;
    var tag := Tag(suite, k, nonce, sealed);
    MixTwice(To(|inner|, 4), suite.stream(k.header, 0, nonce));
    MixTwice(inner, suite.stream(k.main, 1, nonce));
    Cuts(head, body, tag, rest);
  }

  lemma Cuts(head: Octets, body: Octets, tag: Octets, rest: Octets)
    ensures var s, h, t := head + body + tag + rest, |head|, |head| + |body|;
      s[..h] == head && s[h..t] == body && s[..t] == head + body && s[t..t + |tag|] == tag && s[t + |tag|..] == rest
  {
  }

  /** A packet that was sent arrives as it is, exactly if the receiver accepts its size; what follows is left. */
  lemma PacketArrives(suite: Suite, e: End, payload: Octets, pad: Octets, rest: Octets)
    requires |pad| == PadLen(|payload|, e.keys.Some?) && Sendable(|payload|, e.keys.Some?)
    ensures Receive(suite, e, Packet(suite, e, payload, pad) + rest)
         == if Deliverable(|payload|, e.keys.Some?) then Got(payload, rest) else Broken
  {
    hide ReceivePlain, ReceiveSealed, Inner, To, Mix, Tag, PadLen, Deliverable;
    match e.keys
    case None => PlainArrives(payload, pad, rest);
    case Some(k) => SealedArrives(suite, k, Nonce(e.count), payload, pad, rest);
  }

  /** A payload of 32764 bytes is sent but refused. */
  lemma TooLong(suite: Suite, e: End, payload: Octets, pad: Octets)
    requires |payload| == 32764 && |pad| == PadLen(|payload|, e.keys.Some?)
    ensures Sendable(|payload|, e.keys.Some?) && Receive(suite, e, Packet(suite, e, payload, pad)) == Broken
  {
    hide Receive, Packet;
    PacketArrives(suite, e, payload, pad, []);
    assert Packet(suite, e, payload, pad) + [] == Packet(suite, e, payload, pad);
  }

  // ----- whole runs -----

  /** A message, its random padding, and the keys that both ends take into use after it, if any. */
  datatype Message = Message(payload: Octets, pad: Octets, keys: Option<Keys>)

  /** The end after a packet. */
  function Passed(e: End, keys: Option<Keys>): End { End(e.count + 1, if keys.Some? then keys else e.keys) }

  predicate Fits(e: End, ms: seq<Message>)
    decreases |ms|
  {
    ms == [] ||
    (var m := ms[0];
     |m.pad| == PadLen(|m.payload|, e.keys.Some?) && Sendable(|m.payload|, e.keys.Some?)
     && Deliverable(|m.payload|, e.keys.Some?) && Fits(Passed(e, m.keys), ms[1..]))
  }

  /** The stream of bytes that a sender produces. */
  function SendAll(suite: Suite, e: End, ms: seq<Message>): Octets
    requires Fits(e, ms)
    decreases |ms|
  {
    if ms == [] then []
    else Packet(suite, e, ms[0].payload, ms[0].pad) + SendAll(suite, Passed(e, ms[0].keys), ms[1..])
  }

  /** The payloads that a receiver gets; `switches` are the keys it takes into use after each packet. */
  function ReceiveAll(suite: Suite, e: End, s: Octets, switches: seq<Option<Keys>>): Option<(seq<Octets>, End, Octets)>
    decreases |switches|
  {
    if switches == [] then Some(([], e, s))
    else match Receive(suite, e, s)
      case Got(payload, rest) =>
        (match ReceiveAll(suite, Passed(e, switches[0]), rest, switches[1..])
         case Some((more, e1, left)) => Some(([payload] + more, e1, left))
         case None => None)
      case _ => None
  }

  function Payloads(ms: seq<Message>): seq<Octets> { seq(|ms|, i requires 0 <= i < |ms| => ms[i].payload) }

  function Switches(ms: seq<Message>): seq<Option<Keys>> { seq(|ms|, i requires 0 <= i < |ms| => ms[i].keys) }

  /** The end after all messages. */
  function Finally(e: End, ms: seq<Message>): End
    decreases |ms|
  {
    if ms == [] then e else Finally(Passed(e, ms[0].keys), ms[1..])
  }

  /** If both ends start alike and change keys at the same packets, the receiver gets exactly the payloads sent, in
      order, and both ends have counted the same number of packets. */
  lemma {:induction false} AllArrive(suite: Suite, e: End, ms: seq<Message>, rest: Octets)
    requires Fits(e, ms)
    ensures ReceiveAll(suite, e, SendAll(suite, e, ms) + rest, Switches(ms))
         == Some((Payloads(ms), Finally(e, ms), rest))
    ensures Finally(e, ms).count == e.count + |ms|
    decreases |ms|
  {
    hide Packet, Receive, PadLen, Sendable, Deliverable;
    if ms == [] {
      assert [] + rest == rest;
    } else {
      var m, e1, tail := ms[0], Passed(e, ms[0].keys), ms[1..];
      var packet, more := Packet(suite, e, m.payload, m.pad), SendAll(suite, e1, tail);
      AllArrive(suite, e1, tail, rest);
      PacketArrives(suite, e, m.payload, m.pad, more + rest);
      assert packet + more + rest == packet + (more + rest);
      assert Switches(ms)[1..] == Switches(tail) && [m.payload] + Payloads(tail) == Payloads(ms);
    }
  }
}
