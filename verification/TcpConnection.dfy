/** A connection of the TCP service: packets parsed out of the receive buffers, and
    responses written from the send buffers by gathering writes. */
module TcpConnection {
  import opened Protocol
  import opened Buffers
  import opened Packets

  const IOV_COUNT := 128
  const READ_SIZE := 1024 * 1024

  /** A request under construction: the header fields and the body as decoded. */
  class RequestPacket {
    var magic: nat
    var cmd: nat
    var dataLength: nat
    var body: seq<byte>

    constructor ()
      ensures body == []
    {
      magic, cmd, dataLength, body := PROTOCOL_MAGIC, CT_MIN, 0, [];
    }

    // DecodeHeader: 8, 0 when it has not arrived, -1 when it is invalid.
    method DecodeHeader(buffers: BufferList, pos: nat) returns (r: int)
      requires buffers.Valid() && buffers.Counted() && pos <= |buffers.View()|
      modifies this`magic, this`cmd, this`dataLength
      ensures var s := buffers.View()[pos..];
              if |s| < PACKET_HEADER then r == 0
              else
                && magic == Word(s[0], s[1]) && cmd == Word(s[2], s[3]) && dataLength == LongWord(s[4..8])
                && r == (if magic != PROTOCOL_MAGIC || cmd <= CT_MIN || cmd >= CT_MAX then -1 else PACKET_HEADER)
    {
      hide LongWord;
      if buffers.length < PACKET_HEADER + pos {
        return 0;
      }
      ghost var v := buffers.View();
      var h := buffers.GetData(pos, PACKET_HEADER);
      assert h == v[pos..][..PACKET_HEADER];
      assert h[4..8] == v[pos..][4..8];
      magic, cmd, dataLength := Word(h[0], h[1]), Word(h[2], h[3]), LongWord(h[4..8]);
      if PROTOCOL_MAGIC != magic || cmd <= CT_MIN || cmd >= CT_MAX {
        return -1;
      }
      return PACKET_HEADER;
    }

    // DecodeBody: the body's length, 0 when it has not arrived or is empty.
    method DecodeBody(buffers: BufferList, pos: nat, length: nat) returns (r: int)
      requires buffers.Valid() && buffers.Counted() && pos <= |buffers.View()|
      modifies this`body
      ensures if |buffers.View()| < pos + length then r == 0
              else r == length && body == buffers.View()[pos..pos + length]
    {
      if buffers.length < length + pos {
        return 0;
      }
      ghost var v := buffers.View();
      var b := buffers.GetData(pos, length);
      assert b == v[pos..pos + length];
      if |b| != length {
        return 0;
      }
      body := b;
      return length;
    }

    // Decode
    method Decode(buffers: BufferList, pos: nat) returns (r: int)
      requires buffers.Valid() && buffers.Counted() && pos <= |buffers.View()|
      modifies this
      ensures match Parse(buffers.View()[pos..])
              case Incomplete => r == 0
              case Bad => r == -1
              case Whole(p, n) => r == n && p == Packet(cmd, body)
    {
      hide LongWord, BufferList.Valid, BufferList.View, BufferList.Counted;
      var headerLength := DecodeHeader(buffers, pos);
      if headerLength <= 0 {
        return headerLength;
      }
      var bodyLength := DecodeBody(buffers, pos + headerLength, dataLength);
      ghost var v := buffers.View();
      if bodyLength > 0 {
        CutBehind(v, pos, PACKET_HEADER, dataLength);
        return headerLength + bodyLength;
      }
      return 0;
    }
  }

  lemma CutBehind(v: seq<byte>, pos: nat, n: nat, length: nat)
    requires pos + n + length <= |v|
    ensures v[pos..][n..n + length] == v[pos + n..pos + n + length]
  {
  }

  /** A response as it is put on the wire: the header's own bytes, and the body. */
  datatype Response = Response(header: seq<byte>, body: seq<byte>) {
    // The length field of the header, in network byte order, names bytes of the body.
    predicate Valid() {
      |header| == PACKET_HEADER && LongWord(header[4..8]) <= |body|
    }

    // The part of the body that is sent.
    function SentBody(): (b: seq<byte>)
      requires Valid()
      ensures b <= body && |b| == LongWord(header[4..8])
    {
      body[..LongWord(header[4..8])]
    }
  }

  // The packets at the front of s, and what follows them.
  predicate ParsedAs(s: seq<byte>, packets: seq<Packet>, rest: seq<byte>) {
    ParseAll(s).packets == packets && ParseAll(s).rest == rest
  }

  /** The receiving half of a connection. */
  class ReceiveSide {
    const buffers: BufferList
    var delivered: seq<Packet>   // the packets passed to OnPacket
    var closed: bool
    ghost var received: seq<byte>

    /** However the bytes received were cut: the packets delivered are the complete ones
        at their front, and the buffers hold the rest. */
    ghost predicate Valid()
      reads this, buffers, buffers.list, buffers.arrays
    {
      buffers.Valid() && buffers.Counted() && ParsedAs(received, delivered, buffers.View())
    }

    constructor ()
      ensures Valid() && !closed && received == [] && delivered == []
    {
      buffers := new BufferList();
      delivered, closed, received := [], false, [];
    }

    // Decode: all packets in the buffers, and the bytes they take; negative when there is
    // none and the front is invalid.
    method Decode() returns (packets: seq<Packet>, decodeLength: int)
      requires buffers.Valid() && buffers.Counted()
      ensures var all := ParseAll(buffers.View());
              && packets == all.packets
              && decodeLength == if packets == [] && all.bad then -1 else |buffers.View()| - |all.rest|
    {
      hide Parse, ParseAll, Decoded;
      ghost var v := buffers.View();
      packets, decodeLength := [], 0;
      var result := 1;
      NothingDecoded(v);
      while result > 0
        invariant 0 <= decodeLength <= |v| && buffers.View() == v
        invariant Decoded(v, packets, decodeLength)
        invariant result <= 0 ==> Stopped(v, decodeLength, result)
        decreases result > 0, |v| - decodeLength
      {
        var packet := new RequestPacket();
        result := packet.Decode(buffers, decodeLength);
        if result > 0 {
          OneDecoded(v, packets, decodeLength, Packet(packet.cmd, packet.body), result);
          packets := packets + [Packet(packet.cmd, packet.body)];
          decodeLength := decodeLength + result;
        }
      }
      AllDecoded(v, packets, decodeLength, result);
      if result < 0 && decodeLength <= 0 {
        decodeLength := result;
      }
    }

    /** One read of the socket, of whatever size; an empty one is the peer's close. An
        invalid header closes the connection in the read that delivers nothing. */
    method InputNotify(chunk: seq<byte>)
      requires Valid() && !closed && |chunk| <= READ_SIZE && buffers.length + |chunk| < UINT64
      modifies this`delivered, this`closed, this`received, buffers, buffers.list
      ensures Valid() && received == old(received) + chunk && old(delivered) <= delivered
      ensures closed == (chunk == [] || (delivered == old(delivered) && ParseAll(received).bad))
    {
      hide Parse, ParseAll, BufferList.Valid, BufferList.View, BufferList.Counted, BufferList.Datas, ParsedAs;
      if chunk == [] {
        assert received + chunk == received;
        closed := true;
        return;
      }
      ghost var had, before := received, delivered;
      buffers.Append(chunk);
      ghost var v := buffers.View();
      var packets, decodeLength := Decode();
      ArrivalStep(had, before, v, chunk, packets, decodeLength);
      received := received + chunk;
      if decodeLength > 0 {
        Deliver(packets, decodeLength);
      } else if decodeLength < 0 {
        closed := true;
      }
    }

    // Erases what the packets took, and passes them to OnPacket.
    method Deliver(packets: seq<Packet>, decodeLength: nat)
      requires buffers.Valid() && buffers.Counted() && decodeLength <= |buffers.View()|
      requires ParsedAs(received, delivered + packets, buffers.View()[decodeLength..])
      modifies this`delivered, buffers, buffers.list
      ensures Valid() && delivered == old(delivered) + packets
    {
      hide Parse, ParseAll, BufferList.Valid, BufferList.View, BufferList.Counted, BufferList.Datas, Erased, ParsedAs;
      var _ := buffers.EraseFront(decodeLength);
      delivered := delivered + packets;
    }
  }

  // The decoded packets are the new ones, and erasing what they took leaves the rest.
  lemma ArrivalStep(had: seq<byte>, before: seq<Packet>, v: seq<byte>, chunk: seq<byte>,
                    packets: seq<Packet>, decodeLength: int)
    requires |chunk| <= |v| && ParsedAs(had, before, v[..|v| - |chunk|]) && v[|v| - |chunk|..] == chunk
    requires var all := ParseAll(v);
             && packets == all.packets
             && decodeLength == if packets == [] && all.bad then -1 else |v| - |all.rest|
    ensures if decodeLength > 0 then decodeLength <= |v| && packets != []
            && ParsedAs(had + chunk, before + packets, v[decodeLength..])
            else ParsedAs(had + chunk, before, v)
    ensures decodeLength < 0 <==> packets == [] && ParseAll(had + chunk).bad
    ensures decodeLength <= 0 ==> packets == []
  {
    hide Parse, ParseAll;
    ParseAllMore(had, chunk);
    assert v == v[..|v| - |chunk|] + chunk;
    PacketsTake(v);
    assert before + [] == before;
  }

  lemma PacketsTake(v: seq<byte>)
    ensures ParseAll(v).packets == [] <==> |ParseAll(v).rest| == |v|
    ensures ParseAll(v).packets == [] ==> ParseAll(v).rest == v
  {
  }

  /** The sending half of a connection. */
  class SendSide {
    const buffers: BufferList
    var outputEnabled: bool
    ghost var queued: seq<byte>    // the responses' bytes, in the order of SendPacket
    ghost var written: seq<byte>   // what the socket has taken
    ghost var lastBody: Option<seq<byte>>   // the body of the last response

    /** Nothing is lost, repeated or reordered, and output stays enabled while there is
        something to send. The list's length is not kept: a response is pushed raw. */
    ghost predicate Valid()
      reads this, buffers, buffers.list, buffers.arrays
    {
      && buffers.Valid()
      && written + buffers.View() == queued
      && (buffers.list != [] ==> outputEnabled)
      && LastKept(buffers.Datas(), lastBody)
    }

    constructor ()
      ensures Valid() && queued == [] && written == [] && !outputEnabled && fresh(buffers)
      ensures lastBody == None && buffers.list == [] && buffers.Datas() == []
    {
      buffers := new BufferList();
      outputEnabled, queued, written, lastBody := false, [], [], None;
    }

    // Every buffer is one of had, or new.
    twostate predicate Newer(had: seq<Buffer>)
      reads buffers`list
    {
      forall i :: 0 <= i < |buffers.list| ==> buffers.list[i] in had || fresh(buffers.list[i])
    }

    // Encode: one buffer for the header and one for the body.
    method Encode(p: Response)
      requires p.Valid() && buffers.Valid()
      modifies buffers
      ensures buffers.Valid()
      ensures buffers.Datas() == old(buffers.Datas()) + [p.header, p.body[..LongWord(p.header[4..8])]]
      ensures |buffers.list| == |old(buffers.list)| + 2 && Newer(old(buffers.list))
    {
      hide BufferList.View, LongWord;
      ghost var datas := buffers.Datas();
      var length := LongWord(p.header[4..8]);
      buffers.AppendRaw(PACKET_HEADER, p.header);
      buffers.AppendRaw(length, p.body[..length]);
      assert datas + [p.header] + [p.SentBody()] == datas + [p.header, p.SentBody()];
    }

    method SendPacket(p: Response)
      requires Valid() && p.Valid()
      modifies this, buffers
      ensures Valid() && written == old(written)
      ensures queued == old(queued) + (p.header + p.body[..LongWord(p.header[4..8])])
      ensures buffers.Datas() == old(buffers.Datas()) + [p.header, p.body[..LongWord(p.header[4..8])]]
      ensures lastBody == Some(p.SentBody()) && outputEnabled && Newer(old(buffers.list))
    {
      hide LongWord, Flatten, BufferList.Valid, BufferList.Datas;
      ghost var datas := buffers.Datas();
      Encode(p);
      FlattenTwo(datas, p.header, p.SentBody());
      ConcatAssociates(written, Flatten(datas), p.header + p.SentBody());
      queued := queued + (p.header + p.SentBody());
      lastBody := Some(p.SentBody());
      outputEnabled := true;
    }

    // The gathering loop of OutputNotify: the first 128 buffers.
    method Gather() returns (iovs: seq<seq<byte>>, iovLength: nat)
      requires buffers.Valid()
      ensures iovs == buffers.Datas()[..Min(IOV_COUNT, |buffers.list|)]
      ensures iovLength == |Flatten(iovs)| == GatheredLength()
    {
      hide Flatten, BufferList.View;
      iovs, iovLength := [], 0;
      FlattenNone<byte>();
      ghost var datas := buffers.Datas();
      var i := 0;
      while i < |buffers.list| && i < IOV_COUNT
        invariant i <= |buffers.list| && i <= IOV_COUNT
        invariant iovs == datas[..i] && iovLength == |Flatten(iovs)|
      {
        FlattenSnoc(iovs, datas[i]);
        assert datas[..i + 1] == datas[..i] + [datas[i]];
        iovs := iovs + [buffers.list[i].Data()];
        iovLength := iovLength + buffers.list[i].DataLength();
        i := i + 1;
      }
    }

    /** One gathering write; the socket takes at most room bytes of it, none when it would
        block. What it takes is the front of what is queued, and the list keeps the rest.
        Once everything is written, output is disabled exactly when the last response had
        a body: the buffer of an empty one stays in the list. */
    method OutputNotify(room: nat)
      requires Valid()
      modifies this, buffers, buffers.list
      ensures Valid() && queued == old(queued) && lastBody == old(lastBody)
      ensures written == queued && lastBody.Some? ==> (outputEnabled <==> lastBody.value == [])
      ensures Rear(buffers.list, old(buffers.list))
      ensures var n := Min(room, old(GatheredLength()));
              && written == old(written) + old(buffers.View())[..n]
              && buffers.Datas() == Erased(old(buffers.Datas()), n)
      ensures outputEnabled == (buffers.list != [])
      ensures |old(buffers.list)| <= 128 && room >= |old(buffers.View())| ==> written == queued
    {
      hide Flatten, Erased, BufferList.Valid, BufferList.View, BufferList.Datas, Rear;
      ghost var v := buffers.View();
      WholeRear(buffers.list);
      assert v[..0] == [] && written + [] == written && v[..|v|] == v;
      NothingErased(buffers.Datas());
      ghost var reach := GatheredLength();
      if buffers.list != [] {
        var iovs, iovLength := Gather();
        assert iovLength == reach;
        if iovLength > 0 {
          var sent := Min(room, iovLength);
          if sent == 0 {
            return;
          }
          Write(iovs, sent);
        }
      }
      if buffers.list == [] {
        outputEnabled := false;
      }
      AllWritten();
    }

    lemma AllWritten()
      requires Valid()
      ensures written == queued <==> buffers.View() == []
      ensures buffers.View() == [] && lastBody.Some? ==> (buffers.list == [] <==> lastBody.value != [])
      ensures buffers.list != [] ==> outputEnabled
    {
      assert |written + buffers.View()| == |written| + |buffers.View()|;
      if buffers.View() == [] && buffers.list != [] {
        var datas := buffers.Datas();
        FlattenCut(datas, |datas| - 1);
        assert datas[|datas| - 1..] == [LastOf(datas)];
        FlattenOne(LastOf(datas));
        assert LastOf(datas) == [];
      }
    }

    ghost function GatheredLength(): (n: nat)
      requires buffers.Valid()
      reads this, buffers, buffers.list, buffers.arrays
      ensures n <= |buffers.View()| && (buffers.list == [] ==> n == 0)
      ensures |buffers.list| <= 128 ==> n == |buffers.View()|
    {
      hide Flatten;
      var datas := buffers.Datas();
      FlattenCut(datas, Min(IOV_COUNT, |datas|));
      FlattenNone<byte>();
      assert datas[..|datas|] == datas;
      |Flatten(datas[..Min(IOV_COUNT, |datas|)])|
    }

    // What a write takes is the front of the list's bytes.
    lemma Front(iovs: seq<seq<byte>>, sent: nat)
      requires buffers.Valid() && iovs == buffers.Datas()[..Min(IOV_COUNT, |buffers.list|)] && sent <= |Flatten(iovs)|
      ensures sent <= |buffers.View()| == |Flatten(buffers.Datas())| && buffers.View()[..sent] == Flatten(iovs)[..sent]
    {
      hide Flatten;
      FlattenCut(buffers.Datas(), |iovs|);
    }

    // writev, and the erasure of what it took.
    method Write(iovs: seq<seq<byte>>, sent: nat)
      requires Valid() && iovs == buffers.Datas()[..Min(IOV_COUNT, |buffers.list|)] && sent <= |Flatten(iovs)|
      modifies this`written, buffers, buffers.list
      ensures Valid() && |old(buffers.View())| >= sent && written == old(written) + old(buffers.View())[..sent]
      ensures buffers.Datas() == Erased(old(buffers.Datas()), sent)
      ensures Rear(buffers.list, old(buffers.list))
    {
      hide Flatten, Erased, BufferList.Valid, BufferList.Datas, BufferList.View, LastKept, Rear;
      ghost var datas, v := buffers.Datas(), buffers.View();
      Front(iovs, sent);
      TakeSome(written, v, sent);
      written := written + Flatten(iovs)[..sent];
      KeptErased(datas, sent, lastBody);
      ghost var list := buffers.list;
      var _ := buffers.EraseFront(sent);
      RearLength(buffers.list, list);
    }
  }

  // Before any response the list is empty; later its last buffer, as long as there is one,
  // is empty exactly when the last body was, and then it is never erased.
  predicate LastKept(datas: seq<seq<byte>>, lastBody: Option<seq<byte>>) {
    match lastBody
    case None => datas == []
    case Some(body) => if body == [] then datas != [] && LastOf(datas) == [] else datas == [] || LastOf(datas) != []
  }

  lemma WholeRear<T>(s: seq<T>)
    ensures Rear(s, s)
  {
  }

  lemma RearLength<T>(s: seq<T>, t: seq<T>)
    requires Rear(s, t)
    ensures |s| <= |t|
  {
  }

  lemma KeptErased(datas: seq<seq<byte>>, count: nat, lastBody: Option<seq<byte>>)
    requires LastKept(datas, lastBody) && count <= |Flatten(datas)|
    ensures LastKept(Erased(datas, count), lastBody)
  {
    hide Flatten;
    ErasedLast(datas, count);
  }

  /** At a response with length field 0: all its eight bytes have been written, and output
      is still enabled. */
  method EmptyResponseStays(header: seq<byte>) returns (s: SendSide)
    requires |header| == PACKET_HEADER && LongWord(header[4..8]) == 0
    ensures s.Valid() && s.written == s.queued == header && s.outputEnabled
  {
    hide LongWord, Flatten, Erased, BufferList.Valid, BufferList.View, BufferList.Datas, LastKept, SendSide.Valid;
    hide SendSide.GatheredLength;
    s := new SendSide();
    var p := Response(header, []);
    assert p.body[..0] == [] && header + [] == header && [] + header == header;
    s.SendPacket(p);
    TwoSegments(s, header, []);
    s.OutputNotify(PACKET_HEADER);
    assert header[..PACKET_HEADER] == header && [] + header == header;
  }

  /** The service's answer, sent: behind a header whose length field says 10, all of the ten
      bytes of its text. */
  method AnswerSent(magic: seq<byte>) returns (s: SendSide)
    requires |magic| == 4
    ensures s.Valid() && s.written == s.queued == magic + [0, 0, 0, 10] + Text("{\"code\":1}") && !s.outputEnabled
  {
    hide Flatten, Erased, BufferList.Valid, BufferList.View, BufferList.Datas, LastKept, SendSide.Valid, LongWord;
    hide SendSide.GatheredLength;
    var length: seq<byte>, body := [0, 0, 0, 10], Text("{\"code\":1}");
    s := new SendSide();
    var p := Response(magic + length, body);
    assert LongWord(p.header[4..8]) == 10 by {
      assert p.header[4..8] == length;
      TenBytes();
    }
    assert body[..10] == body;
    s.SendPacket(p);
    assert s.queued == magic + length + body;
    TwoSegments(s, magic + length, body);
    s.OutputNotify(PACKET_HEADER + 10);
    assert (magic + length + body)[..18] == magic + length + body;
  }

  lemma TenBytes()
    ensures LongWord([0, 0, 0, 10]) == 10
  {
  }

  lemma TwoSegments(s: SendSide, header: seq<byte>, body: seq<byte>)
    requires s.Valid() && s.buffers.Datas() == [] + [header, body]
    ensures s.buffers.Valid() && s.GatheredLength() == |header + body| && s.buffers.View() == header + body
  {
    hide Flatten;
    FlattenSnoc([header], body);
    FlattenOne(header);
    assert [] + [header, body] == [header] + [body];
    assert s.buffers.Datas()[..2] == s.buffers.Datas();
  }

  lemma TakeSome(w: seq<byte>, v: seq<byte>, n: nat)
    requires n <= |v|
    ensures w + v[..n] + v[n..] == w + v
  {
  }

  // The packets are those of the first n bytes of v, and parsing goes on there.
  predicate Decoded(v: seq<byte>, packets: seq<Packet>, n: nat)
    requires n <= |v|
  {
    var r := ParseAll(v[n..]);
    ParseAll(v) == Stream(packets + r.packets, r.rest, r.bad) && (packets != [] <==> n > 0)
  }

  predicate Stopped(v: seq<byte>, n: nat, result: int)
    requires n <= |v|
  {
    var r := Parse(v[n..]);
    if result == 0 then r.Incomplete? else result == -1 && r.Bad?
  }

  lemma NothingDecoded(v: seq<byte>)
    ensures Decoded(v, [], 0)
  {
    assert v[0..] == v && [] + ParseAll(v).packets == ParseAll(v).packets;
  }

  lemma OneDecoded(v: seq<byte>, packets: seq<Packet>, n: nat, p: Packet, length: nat)
    requires n <= |v| && Decoded(v, packets, n) && Parse(v[n..]) == Whole(p, length)
    ensures n + length <= |v| && Decoded(v, packets + [p], n + length)
  {
    hide Parse;
    assert v[n..][length..] == v[n + length..];
    ConcatAssociates(packets, [p], ParseAll(v[n + length..]).packets);
  }

  lemma AllDecoded(v: seq<byte>, packets: seq<Packet>, n: nat, result: int)
    requires n <= |v| && Decoded(v, packets, n) && Stopped(v, n, result)
    ensures var all := ParseAll(v);
            packets == all.packets && n == |v| - |all.rest| && all.bad == (result < 0) && (packets != [] <==> n > 0)
  {
    hide Parse;
    assert packets + [] == packets;
  }
}
