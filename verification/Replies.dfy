/** What a reader writes back to the peer while it reads, for every input whatever. */
module Replies {
  import opened Protocol
  import opened Pairs
  import opened Scan
  import opened Connection

  // The three kinds of replies; the library builds each of them in 64 bytes or less.
  predicate IsReply(r: Record) {
    && |Encode(r)| <= 64
    && (|| (r.rtype == END_REQUEST && r.content == MakeEndRequestBody(0, CANT_MPX_CONN))
        || (r.rtype == GET_VALUES_RESULT && r.id == NULL_REQUEST_ID)
        || (r.rtype == UNKNOWN_TYPE && r.id == NULL_REQUEST_ID))
  }

  // From log a to log b, nothing but replies has been sent.
  predicate OnlyReplies(a: seq<Sending>, b: seq<Sending>) {
    && |a| <= |b| && b[..|a|] == a
    && forall i :: |a| <= i < |b| ==> b[i].Reply? && IsReply(b[i].record)
  }

  lemma OnlyRepliesTwice(a: seq<Sending>, b: seq<Sending>, c: seq<Sending>)
    requires OnlyReplies(a, b) && OnlyReplies(b, c)
    ensures OnlyReplies(a, c)
  {
    assert c[..|b|][..|a|] == c[..|a|];
  }

  // The records entered from log a to log b.
  function Entered(a: seq<Sending>, b: seq<Sending>): seq<Record> {
    if |a| <= |b| then Records(b[|a|..]) else []
  }

  lemma EnteredBytes(a: seq<Sending>, b: seq<Sending>)
    requires OnlyReplies(a, b)
    ensures EncodeAll(Records(b)) == EncodeAll(Records(a)) + EncodeAll(Entered(a, b))
    ensures forall r :: r in Entered(a, b) ==> IsReply(r)
  {
    hide EncodeAll, IsReply;
    assert b == a + b[|a|..];
    RecordsConcat(a, b[|a|..]);
    EncodeAllConcat(Records(a), Records(b[|a|..]));
  }

  lemma OneReply(a: seq<Sending>, r: Record)
    requires IsReply(r)
    ensures OnlyReplies(a, a + [Reply(r)])
  {
  }

  lemma NoReply(a: seq<Sending>)
    ensures OnlyReplies(a, a)
  {
  }

  predicate WholeReplies(s: seq<byte>) {
    var d := DecodeAll(s);
    d.Some? && forall r :: r in d.value ==> IsReply(r)
  }

  lemma WholeRepliesCons(r: Record, s: seq<byte>)
    requires IsReply(r) && WholeReplies(s)
    ensures WholeReplies(Encode(r) + s)
  {
    hide Encode, ParseHeader, IsReply;
    EncodeParts(r, s);
    assert DecodeAll(Encode(r) + s) == Some([r] + DecodeAll(s).value) by {
      HeaderBytes(r, s);
    }
  }

  lemma HeaderBytes(r: Record, s: seq<byte>)
    ensures var e := Encode(r) + s; |e| >= HEADER_LEN && e[0] == VERSION_1 as byte && e[7] == 0
  {
  }

  lemma ReplyOf(c: Context, h: Header, skip: bool, s: seq<byte>, rest: seq<byte>)
    requires h.requestId < 0x10000
    requires var r := React(c, h, skip, s); r.Go?
    requires WholeReplies(rest)
    ensures WholeReplies(React(c, h, skip, s).reply + rest)
  {
    hide WholeReplies, ReadPairs, ScanRecord, ValueReplies, NameOf;
    var reply := React(c, h, skip, s).reply;
    if reply == [] {
      assert reply + rest == rest;
    } else {
      ReplyRecord(c, h, skip, s);
      var r: Record :| IsReply(r) && Encode(r) == reply;
      WholeRepliesCons(r, rest);
    }
  }

  lemma ReplyRecord(c: Context, h: Header, skip: bool, s: seq<byte>)
    requires h.requestId < 0x10000
    requires var r := React(c, h, skip, s); r.Go? && r.reply != []
    ensures exists r: Record :: IsReply(r) && Encode(r) == React(c, h, skip, s).reply
  {
    hide ReadPairs, ScanRecord, ValueReplies, NameOf;
    if h.rtype == BEGIN_REQUEST {
      var r: Record := Record(END_REQUEST, h.requestId, MakeEndRequestBody(0, CANT_MPX_CONN), []);
      assert IsReply(r) && Encode(r) == React(c, h, skip, s).reply;
    } else if h.rtype != GET_VALUES {
      var r: Record := Record(UNKNOWN_TYPE, NULL_REQUEST_ID, MakeUnknownTypeBody(h.rtype), []);
      assert IsReply(r) && Encode(r) == React(c, h, skip, s).reply;
    } else {
      var o := ScanRecord(Position(h.contentLength, h.paddingLength, skip), s);
      var body := ValueReplies(ReadPairs(o.data).list);
      var r: Record := Record(GET_VALUES_RESULT, NULL_REQUEST_ID, body, Zeros(AlignInt8(|body|) - |body|));
      assert IsReply(r) && Encode(r) == React(c, h, skip, s).reply;
    }
  }

  /** For every input, well-formed or not, the replies are whole records of at most 64
      bytes and of the three kinds. */
  lemma {:induction false} RepliesWhole(c: Context, p: Position, s: seq<byte>)
    ensures WholeReplies(ScanStream(c, p, s).replies)
    decreases |s|, 1
  {
    hide WholeReplies, React;
    NoReplies();
    if s != [] {
      if p.content > 0 && !p.skip {
        var k := Min(p.content, |s|);
        RepliesWhole(c, p.(content := p.content - k), s[k..]);
      } else if |s| >= p.content + p.padding {
        RepliesWholeAtHeader(c, p.skip && p.content == 0, s[p.content + p.padding..]);
      }
    }
  }

  lemma NoReplies()
    ensures WholeReplies([])
  {
  }

  lemma {:induction false} RepliesWholeAtHeader(c: Context, skip: bool, s: seq<byte>)
    ensures WholeReplies(ScanHeader(c, skip, s).replies)
    decreases |s|, 0
  {
    hide WholeReplies, React;
    NoReplies();
    if |s| >= HEADER_LEN {
      var h := ParseHeader(s[..HEADER_LEN]);
      var r := React(c, h, skip, s[HEADER_LEN..]);
      if r.Go? {
        RepliesWhole(c, r.position, r.rest);
        ReplyOf(c, h, skip, s[HEADER_LEN..], ScanStream(c, r.position, r.rest).replies);
      }
    }
  }
}
