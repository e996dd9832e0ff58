/** The TCP service's packets: an 8-byte big-endian header and a body, on one flat byte
    string. Module TcpConnection parses them out of buffers as they arrive. */
module Packets {
  import opened Protocol

  const PACKET_HEADER := 8
  const PROTOCOL_MAGIC := 0xFDFC
  const CT_MIN := 0
  const CT_MAX := 5

  datatype Packet = Packet(cmd: nat, body: seq<byte>)

  function LongWord(s: seq<byte>): (n: nat)
    requires |s| == 4
    ensures n < 0x100000000
    ensures n == (s[0] as int) * 0x1000000 + (s[1] as int) * 0x10000 + (s[2] as int) * 0x100 + s[3] as int
  {
    Word(s[0], s[1]) * 0x10000 + Word(s[2], s[3])
  }

  /** What stands at the front of s: an unfinished packet, an invalid header, or a packet
      and the bytes it takes. A packet without a body counts as unfinished. */
  datatype Parsed = Incomplete | Bad | Whole(packet: Packet, length: nat)

  function Parse(s: seq<byte>): (r: Parsed)
    ensures r.Whole? ==> PACKET_HEADER < r.length <= |s|
  {
    if |s| < PACKET_HEADER then Incomplete
    else
      var cmd := Word(s[2], s[3]);
      if Word(s[0], s[1]) != PROTOCOL_MAGIC || cmd <= CT_MIN || cmd >= CT_MAX then Bad
      else
        var length := LongWord(s[4..8]);
        if length == 0 || |s| < PACKET_HEADER + length then Incomplete
        else Whole(Packet(cmd, s[PACKET_HEADER..PACKET_HEADER + length]), PACKET_HEADER + length)
  }

  /** All the packets at the front of s, what follows them, and whether that is invalid. */
  datatype Stream = Stream(packets: seq<Packet>, rest: seq<byte>, bad: bool)

  function ParseAll(s: seq<byte>): (r: Stream)
    ensures |r.rest| <= |s| && r.rest == s[|s| - |r.rest|..]
    decreases |s|
  {
    hide Parse;
    match Parse(s)
    case Incomplete => Stream([], s, false)
    case Bad => Stream([], s, true)
    case Whole(p, n) =>
      var r := ParseAll(s[n..]);
      assert s[n..][|s| - n - |r.rest|..] == s[|s| - |r.rest|..];
      Stream([p] + r.packets, r.rest, r.bad)
  }

  /** An invalid header: eight bytes that do not begin with the magic number and one of the
      four commands. */
  lemma HeaderRejected(s: seq<byte>)
    requires |s| >= 8
    ensures Parse(s).Bad? <==> !(s[0] == 0xFD && s[1] == 0xFC && s[2] == 0 && 1 <= s[3] <= 4)
    ensures Parse(s).Bad? ==> ParseAll(s) == Stream([], s, true)
  {
  }

  // What is at the front does not depend on what comes later, once it is decided.
  lemma ParseMore(s: seq<byte>, t: seq<byte>)
    requires !Parse(s).Incomplete?
    ensures Parse(s + t) == Parse(s)
  {
    assert (s + t)[4..8] == s[4..8];
    if Parse(s).Whole? {
      var n := Parse(s).length;
      assert (s + t)[PACKET_HEADER..n] == s[PACKET_HEADER..n];
    }
  }

  /** Parsing is incremental: what has been parsed stays parsed, and parsing goes on with
      the rest. */
  lemma {:induction false} ParseAllMore(s: seq<byte>, t: seq<byte>)
    ensures var a := ParseAll(s);
            var b := ParseAll(a.rest + t);
            ParseAll(s + t) == Stream(a.packets + b.packets, b.rest, b.bad)
    decreases |s|
  {
    hide Parse;
    var a := ParseAll(s);
    match Parse(s)
    case Incomplete =>
      assert [] + ParseAll(s + t).packets == ParseAll(s + t).packets;
    case Bad =>
      assert [] + ParseAll(s + t).packets == ParseAll(s + t).packets;
    case Whole(p, n) =>
      ParseMore(s, t);
      assert (s + t)[n..] == s[n..] + t;
      ParseAllMore(s[n..], t);
      var b := ParseAll(a.rest + t);
      ConcatAssociates([p], ParseAll(s[n..]).packets, b.packets);
  }

  function LongBytes(n: nat): (s: seq<byte>)
    requires n < 0x100000000
    ensures |s| == 4
  {
    [n / 0x1000000, LowByte(n / 0x10000), LowByte(n / 0x100), LowByte(n)]
  }

  lemma LongWordOf(n: nat)
    requires n < 0x100000000
    ensures LongWord(LongBytes(n)) == n
  {
    var hi, lo := n / 0x10000, n % 0x10000;
    assert n == hi * 0x10000 + lo;
    LowBytes(hi);
    LowBytes(lo);
    var q := n / 0x100;
    assert n == q * 0x100 + n % 0x100 && hi == q / 0x100;
    assert q == hi * 0x100 + q % 0x100;
    assert lo == q % 0x100 * 0x100 + n % 0x100;
    assert LowByte(lo / 256) == LowByte(q) && LowByte(lo) == LowByte(n);
    assert hi / 256 == n / 0x1000000;
  }

  predicate Sendable(p: Packet) {
    CT_MIN < p.cmd < CT_MAX && |p.body| < 0x100000000
  }

  function EncodePacket(p: Packet): (s: seq<byte>)
    requires Sendable(p)
    ensures |s| == PACKET_HEADER + |p.body|
  {
    [0xFD, 0xFC, 0, p.cmd] + LongBytes(|p.body|) + p.body
  }

  function EncodePackets(ps: seq<Packet>): seq<byte>
    requires forall p :: p in ps ==> Sendable(p)
  {
    if ps == [] then [] else assert Sendable(ps[0]); EncodePacket(ps[0]) + EncodePackets(ps[1..])
  }

  lemma HeaderParts(p: Packet, t: seq<byte>)
    requires Sendable(p)
    ensures var s := EncodePacket(p) + t;
            && Word(s[0], s[1]) == PROTOCOL_MAGIC && Word(s[2], s[3]) == p.cmd && LongWord(s[4..8]) == |p.body|
            && s[PACKET_HEADER..PACKET_HEADER + |p.body|] == p.body && s[PACKET_HEADER + |p.body|..] == t
  {
    hide LongBytes, LongWord;
    var s := EncodePacket(p) + t;
    assert s[4..8] == LongBytes(|p.body|);
    LongWordOf(|p.body|);
  }

  lemma PacketParsed(p: Packet, t: seq<byte>)
    requires Sendable(p)
    ensures ParseAll(EncodePacket(p) + t) ==
            if p.body == [] then Stream([], EncodePacket(p) + t, false)
            else var r := ParseAll(t); Stream([p] + r.packets, r.rest, r.bad)
  {
    hide EncodePacket, LongWord;
    HeaderParts(p, t);
  }

  /** A packet is delivered, and the ones behind it are reached, exactly when it has a
      body: an empty one blocks the connection whatever follows. */
  lemma DeliveredIffBody(p: Packet)
    requires Sendable(p)
    ensures (forall t :: ParseAll(EncodePacket(p) + t).packets == [p] + ParseAll(t).packets) <==> p.body != []
  {
    hide EncodePacket, ParseAll;
    forall t
      ensures p.body != [] ==> ParseAll(EncodePacket(p) + t).packets == [p] + ParseAll(t).packets
      ensures p.body == [] ==> ParseAll(EncodePacket(p) + t).packets == []
    {
      PacketParsed(p, t);
    }
    if p.body == [] {
      assert ParseAll(EncodePacket(p) + []).packets == [];
    }
  }

  // A proper part of a packet is neither complete nor invalid.
  lemma PartParsed(p: Packet, k: nat)
    requires Sendable(p) && k < |EncodePacket(p)|
    ensures ParseAll(EncodePacket(p)[..k]) == Stream([], EncodePacket(p)[..k], false)
  {
    hide LongWord, LongBytes;
    HeaderParts(p, []);
    var e := EncodePacket(p);
    var s := e[..k];
    assert e + [] == e;
    if k >= 8 {
      assert s[4..8] == e[4..8];
    }
  }

  /** At every moment of the arrival of valid packets, the packets parsed are the complete
      ones, in order, and what is left is the part of the next one. */
  lemma {:induction false} ArrivalParsed(ps: seq<Packet>, p: Packet, k: nat)
    requires forall q :: q in ps ==> Sendable(q) && q.body != []
    requires Sendable(p) && k < |EncodePacket(p)|
    ensures ParseAll(EncodePackets(ps) + EncodePacket(p)[..k]) == Stream(ps, EncodePacket(p)[..k], false)
  {
    hide EncodePacket, ParseAll;
    var part := EncodePacket(p)[..k];
    if ps == [] {
      assert EncodePackets(ps) + part == part;
      PartParsed(p, k);
    } else {
      assert ps[0] in ps && ps == [ps[0]] + ps[1..];
      ConcatAssociates(EncodePacket(ps[0]), EncodePackets(ps[1..]), part);
      PacketParsed(ps[0], EncodePackets(ps[1..]) + part);
      ArrivalParsed(ps[1..], p, k);
    }
  }
}
