/** Whole exchanges, byte for byte as sections 3.3 to 5.5 of the FastCGI Specification 1.0
    lay them out. */
module WireBytes {
  import opened Protocol
  import opened Pairs
  import opened Scan
  import opened Delivery
  import opened Output
  import opened Accept
  import Framing

  /** An application that writes "hi!" to its output stream and nothing to its error stream,
      sets an exit status and finishes: data padded to 16 bytes, the end of the output
      stream, and END_REQUEST. */
  lemma ResponseBytes(m: Output)
    requires m == Start(1, 8184, 504, 0)
    ensures EncodeAll(Run(m, [Put(Out, Text("hi!")), SetExitStatus(0x01020304), Close(Err), Close(Out)]).log) ==
            [1, 6, 0, 1, 0, 3, 5, 0] + Text("hi!") + [0, 0, 0, 0, 0]
            + [1, 6, 0, 1, 0, 0, 0, 0]
            + [1, 3, 0, 1, 0, 8, 0, 0, 1, 2, 3, 4, 0, 0, 0, 0]
  {
    hide Run, Encode, EncodeAll;
    var text := Text("hi!");
    ResponseLog(m, text, 0x01020304);
    ThreeEncoded(ResponseRecords(text, 0x01020304));
    ResponseEncoded();
  }

  function ResponseRecords(text: seq<byte>, status: int): (rs: seq<Record>)
    requires |text| <= MAX_LENGTH
    ensures |rs| == 3
  {
    [Framing.DataRecord(STDOUT, 1, text), Framing.EofRecord(STDOUT, 1), Framing.EndRecord(1, status)]
  }

  lemma ResponseLog(m: Output, text: seq<byte>, status: int)
    requires m == Start(1, 8184, 504, 0) && 0 < |text| <= 8184
    ensures Run(m, [Put(Out, text), SetExitStatus(status), Close(Err), Close(Out)]).log == ResponseRecords(text, status)
  {
    hide Framing.DataRecord, Framing.EofRecord, Framing.EndRecord;
    var c1, c2, c3, c4 := Put(Out, text), SetExitStatus(status), Close(Err), Close(Out);
    var m1 := m.(out := m.out.(pending := text));
    assert Apply(m, c1) == m1 by {
      assert [] + text == text;
    }
    var m2 := m1.(appStatus := status);
    assert Apply(m1, c2) == m2;
    var m3 := m2.(err := m2.err.(written := true, closed := true), nWriters := 1);
    assert Apply(m2, c3) == m3;
    assert Apply(m3, c4).log == ResponseRecords(text, status);
    hide Apply;
    assert [c1, c2, c3, c4][1..] == [c2, c3, c4] && [c2, c3, c4][1..] == [c3, c4] && [c3, c4][1..] == [c4];
    assert Run(m3, [c4]) == Apply(m3, c4);
    assert Run(m2, [c3, c4]) == Run(m3, [c4]);
    assert Run(m1, [c2, c3, c4]) == Run(m2, [c3, c4]);
  }

  lemma ResponseEncoded()
    ensures var rs := ResponseRecords(Text("hi!"), 0x01020304);
            && Encode(rs[0]) == [1, 6, 0, 1, 0, 3, 5, 0] + Text("hi!") + [0, 0, 0, 0, 0]
            && Encode(rs[1]) == [1, 6, 0, 1, 0, 0, 0, 0]
            && Encode(rs[2]) == [1, 3, 0, 1, 0, 8, 0, 0, 1, 2, 3, 4, 0, 0, 0, 0]
  {
  }

  lemma ThreeEncoded(rs: seq<Record>)
    requires |rs| == 3
    ensures EncodeAll(rs) == Encode(rs[0]) + Encode(rs[1]) + Encode(rs[2])
  {
    hide Encode;
    assert rs == [rs[0], rs[1]] + [rs[2]] && [rs[0], rs[1]] == [rs[0]] + [rs[1]];
    EncodeAllSnoc([rs[0], rs[1]], rs[2]);
    EncodeAllSnoc([rs[0]], rs[1]);
    EncodeAllOne(rs[0]);
  }

  /** A request to a Responder that wants the connection kept, with one parameter; behind it
      the reader of the request's input gets "hi" and EOF. */
  lemma RequestBytes(stale: nat, more: seq<byte>)
    ensures Examine(stale, [1, 1, 0, 1, 0, 8, 0, 0, 0, 1, 1, 0, 0, 0, 0, 0]
                           + ([1, 4, 0, 1, 0, 6, 0, 0, 1, 3] + Text("Axyz") + ([1, 4, 0, 1, 0, 0, 0, 0] + more)))
         == Offered(BeginBody(1, 1, true), [Text("FCGI_ROLE=RESPONDER"), Text("A=xyz")], Eof(false, 0, more), [])
  {
    hide ScanStream, Encode, Examine, ReadPairs, RoleEntry;
    var pair := Pair(Text("A"), Text("xyz"));
    var params: Record, end: Record := Record(PARAMS, 1, EncodePair(pair), []), Record(PARAMS, 1, [], []);
    InputBytes();
    OneRecordDelivered(Context(false, PARAMS, 1, true, 0), params, end, more);
    OnlyPair(pair);
    ResponderEntry();
    OfferedRequest(stale, 1, 1, true, Encode(params) + (Encode(end) + more));
    assert [ROLE_RESPONDER] + [Entry(pair)] == [ROLE_RESPONDER, Entry(pair)];
  }

  lemma ResponderEntry()
    ensures RoleEntry(1) == Some(Text("FCGI_ROLE=RESPONDER")) && ROLE_RESPONDER == Text("FCGI_ROLE=RESPONDER")
    ensures Entry(Pair(Text("A"), Text("xyz"))) == Text("A=xyz")
  {
    assert Text("FCGI_ROLE=RESPONDER") == ROLE_RESPONDER;
    assert Text("A") == [65] && Text("xyz") == [120, 121, 122];
    assert Text("A=xyz") == [65] + [EQUALS] + [120, 121, 122];
  }

  lemma InputDelivered(more: seq<byte>)
    ensures var o := ScanStream(Context(false, STDIN, 1, true, 0), START,
                                [1, 5, 0, 1, 0, 2, 1, 0] + Text("hi") + [0] + ([1, 5, 0, 1, 0, 0, 0, 0] + more));
            o.data == Text("hi") && o.replies == [] && o.end == Eof(false, 0, more)
  {
    hide ScanStream, Encode;
    var data: Record, last: Record := Record(STDIN, 1, Text("hi"), [0]), Record(STDIN, 1, [], []);
    InputBytes();
    OneRecordDelivered(Context(false, STDIN, 1, true, 0), data, last, more);
  }

  lemma InputBytes()
    ensures Encode(BeginRecord(1, 1, true)) == [1, 1, 0, 1, 0, 8, 0, 0, 0, 1, 1, 0, 0, 0, 0, 0]
    ensures Encode(Record(STDIN, 1, Text("hi"), [0])) == [1, 5, 0, 1, 0, 2, 1, 0] + Text("hi") + [0]
    ensures Encode(Record(STDIN, 1, [], [])) == [1, 5, 0, 1, 0, 0, 0, 0]
    ensures Encode(Record(PARAMS, 1, EncodePair(Pair(Text("A"), Text("xyz"))), []))
         == [1, 4, 0, 1, 0, 6, 0, 0, 1, 3] + Text("Axyz")
    ensures Encode(Record(PARAMS, 1, [], [])) == [1, 4, 0, 1, 0, 0, 0, 0]
  {
    assert EncodePair(Pair(Text("A"), Text("xyz"))) == [1, 3] + Text("Axyz");
  }

  lemma OnlyPair(p: Pair)
    requires Encodable(p)
    ensures ReadPairs(EncodePair(p)) == ParamList([Entry(p)], true)
  {
    hide EncodePair, Entry, ReadPair;
    ReadOnePair(p, []);
    assert EncodePair(p) + [] == EncodePair(p);
    assert [Entry(p)] + [] == [Entry(p)];
  }

  lemma OneRecordDelivered(c: Context, r: Record, last: Record, more: seq<byte>)
    requires Serving(c) && IsStreamData(c, r) && last == Record(c.rtype, c.requestId, [], [])
    ensures var o := ScanStream(c, START, Encode(r) + (Encode(last) + more));
            o.data == r.content && o.replies == [] && o.end == Eof(false, 0, more)
  {
    hide ScanStream, Encode;
    StreamDelivered(c, [], last, more);
    StreamDataPasses(c, r, Encode(last) + more);
    assert EncodeAll([]) + (Encode(last) + more) == Encode(last) + more;
    assert [] + more == more && r.content + [] == r.content;
  }

  /** The three kinds of reply: to another request, to an unknown type, and to a query of
      whether requests may share the connection. */
  lemma ReplyBytes(rtype: byte)
    ensures CantMultiplexReply(0x0102) == [1, 3, 1, 2, 0, 8, 0, 0, 0, 0, 0, 0, 1, 0, 0, 0]
    ensures UnknownTypeReply(rtype) == [1, 11, 0, 0, 0, 8, 0, 0, rtype, 0, 0, 0, 0, 0, 0, 0]
    ensures ReplyDefined([Text("FCGI_MPXS_CONNS=")])
    ensures GetValuesReply([Text("FCGI_MPXS_CONNS=")])
         == [1, 10, 0, 0, 0, 18, 6, 0] + ([15, 1] + Text("FCGI_MPXS_CONNS") + Text("0")) + [0, 0, 0, 0, 0, 0]
  {
    hide ValueReplies, NameOf;
    MpxsQuery();
    assert |[15, 1] + Text("FCGI_MPXS_CONNS") + Text("0")| == 18;
    assert 0 !in Text("FCGI_MPXS_CONNS");
  }

  lemma MpxsQuery()
    ensures NameOf(Text("FCGI_MPXS_CONNS=")) == Text("FCGI_MPXS_CONNS")
    ensures ValueReplies([Text("FCGI_MPXS_CONNS=")]) == [15, 1] + Text("FCGI_MPXS_CONNS") + Text("0")
  {
    hide NameOf;
    var p := Pair(Text("FCGI_MPXS_CONNS"), []);
    KnownTexts();
    KnownName(p.name);
    NameOfEntry(p);
    assert Entry(p) == Text("FCGI_MPXS_CONNS=");
    var names := [Entry(p)];
    assert names[1..] == [];
    assert ValueReplies(names) == ValueReply(p.name) + [] == ValueReply(p.name);
  }
}
