/** What a reader makes of a connection's bytes, on one flat byte string: no buffer,
    no chunks. The Reader class is proved equal to this, for every cutting of the
    input; the record-level laws are in module Delivery. */
module Scan {
  import opened Protocol
  import opened Pairs

  const UNSUPPORTED_VERSION := -2
  const PROTOCOL_ERROR := -3
  const PARAMS_ERROR := -4
  const CALL_SEQ_ERROR := -5

  /** What a stream's behaviour depends on besides its position: whether it is confined
      to the current record, the record type it is set to, the request data, and its
      error code. */
  datatype Context = Context(eorStop: bool, rtype: byte, requestId: nat, begun: bool, errno: int)

  /** Unread part of the current record, and the flag "do not deliver its content". */
  datatype Position = Position(content: nat, padding: nat, skip: bool)

  const START := Position(0, 0, false)

  datatype BeginBody = BeginBody(requestId: nat, role: nat, keepConnection: bool)

  datatype End =
    | Eof(skip: bool, padding: nat, rest: seq<byte>)       // end of the stream; rest is unread
    | Begin(body: BeginBody, padding: nat, rest: seq<byte>) // a request began
    | Fail(error: int)
    | Undefined   // the C code's behaviour is undefined from here on

  /** Everything that is still to come: bytes for the client, bytes written back to the
      peer meanwhile, and how the stream ends. For each byte of data, late tells how many
      bytes of the replies are written only after the client has been given it. */
  datatype Outcome = Outcome(data: seq<byte>, replies: seq<byte>, end: End, late: seq<nat> := []) {
    // With the bytes s for the client before everything else.
    function Behind(s: seq<byte>): Outcome {
      Outcome(s + data, replies, end, Same(|s|, |replies|) + late)
    }

    // When the client has been given n bytes.
    function Without(n: nat): Outcome
      requires n <= |data|
    {
      Outcome(data[n..], replies, end, if n <= |late| then late[n..] else [])
    }
  }

  function Same(n: nat, value: nat): (r: seq<nat>)
    ensures |r| == n
  {
    seq(n, _ => value)
  }

  lemma BehindTwice(o: Outcome, a: seq<byte>, b: seq<byte>)
    ensures o.Behind(b).Behind(a) == o.Behind(a + b)
    ensures o.Behind([]) == o
  {
    ConcatAssociates(a, b, o.data);
    var v := |o.replies|;
    assert Same(|a|, v) + Same(|b|, v) == Same(|a + b|, v);
    ConcatAssociates(Same(|a|, v), Same(|b|, v), o.late);
    assert [] + o.data == o.data && Same(0, v) + o.late == o.late;
  }

  /** Between the future v and the future w of a stream, the client has been given n bytes,
      and no reply has been written that could still wait. */
  predicate Prompt(v: Outcome, n: nat, w: Outcome) {
    || w.data == w.replies == []
    || (n == 0 && w.replies == v.replies)
    || (0 < n <= |v.late| && |w.replies| == v.late[n - 1])
  }

  /** The C code's behaviour is defined until the client has n bytes, or the end. */
  predicate Yields(o: Outcome, n: int) {
    o.end.Undefined? ==> n <= |o.data|
  }

  /** A stream confined to the current record (eorStop): the rest of the content, then
      the end, which is only noticed once a further byte of input is at hand. */
  function ScanRecord(p: Position, s: seq<byte>): (o: Outcome)
    ensures o.end.Eof? || o.end.Fail?
    ensures o.replies == []
    ensures o.end.Eof? ==> o.end.padding == 0 && |o.end.rest| <= |s|
    decreases |s|
  {
    if s == [] then Outcome([], [], Fail(PROTOCOL_ERROR))
    else if p.content > 0 && !p.skip then
      var k := Min(p.content, |s|);
      var o := ScanRecord(p.(content := p.content - k), s[k..]);
      o.Behind(s[..k])
    else if |s| < p.content + p.padding then Outcome([], [], Fail(PROTOCOL_ERROR))
    else Outcome([], [], Eof(p.skip && p.content == 0, 0, s[p.content + p.padding..]))
  }

  /** Effect of one header: the stream ends, or scanning goes on. */
  datatype Reaction =
    | Stop(end: End)
    | Go(reply: seq<byte>, position: Position, rest: seq<byte>)

  const MAX_CONNS: seq<byte> := [70, 67, 71, 73, 95, 77, 65, 88, 95, 67, 79, 78, 78, 83]        // "FCGI_MAX_CONNS"
  const MAX_REQS: seq<byte> := [70, 67, 71, 73, 95, 77, 65, 88, 95, 82, 69, 81, 83]             // "FCGI_MAX_REQS"
  const MPXS_CONNS: seq<byte> := [70, 67, 71, 73, 95, 77, 80, 88, 83, 95, 67, 79, 78, 78, 83]   // "FCGI_MPXS_CONNS"

  // Index of the first occurrence of c, or |s|.
  function IndexOf(s: seq<byte>, c: byte): (i: nat)
    ensures i <= |s|
    ensures c !in s[..i]
    ensures i < |s| ==> s[i] == c
  {
    if s == [] || s[0] == c then 0 else
      var i := 1 + IndexOf(s[1..], c);
      assert s[..i] == [s[0]] + s[1..][..i - 1];
      i
  }

  // The variable name in a name=value string, as strchr(name, '=') cuts it.
  function NameOf(nameValue: seq<byte>): seq<byte> {
    nameValue[..IndexOf(nameValue, EQUALS)]
  }

  // The library's answer to one variable asked for; nothing when it is not known.
  function ValueReply(name: seq<byte>): seq<byte> {
    if name == MAX_CONNS || name == MAX_REQS then [|name|, 1] + name + [49]
    else if name == MPXS_CONNS then [|name|, 1] + name + [48]
    else []
  }

  function ValueReplies(names: seq<seq<byte>>): seq<byte> {
    if names == [] then [] else ValueReply(NameOf(names[0])) + ValueReplies(names[1..])
  }

  lemma {:induction false} ValueRepliesConcat(a: seq<seq<byte>>, b: seq<seq<byte>>)
    ensures ValueReplies(a + b) == ValueReplies(a) + ValueReplies(b)
  {
    hide ValueReply, NameOf;
    if a == [] {
      assert a + b == b;
    } else {
      ValueRepliesConcat(a[1..], b);
      assert (a + b)[1..] == a[1..] + b;
      ConcatAssociates(ValueReply(NameOf(a[0])), ValueReplies(a[1..]), ValueReplies(b));
    }
  }

  // The reply is built in a 64-byte buffer, NUL-terminated, from C strings.
  predicate ReplyDefined(names: seq<seq<byte>>) {
    && |ValueReplies(names)| <= 55
    && forall n :: n in names ==> 0 !in NameOf(n)
  }

  function GetValuesReply(names: seq<seq<byte>>): seq<byte>
    requires ReplyDefined(names)
  {
    var body := ValueReplies(names);
    var padding := AlignInt8(|body|) - |body|;
    MakeHeader(GET_VALUES_RESULT, NULL_REQUEST_ID, |body|, padding) + body + Zeros(padding)
  }

  function UnknownTypeReply(rtype: byte): seq<byte> {
    MakeHeader(UNKNOWN_TYPE, NULL_REQUEST_ID, 8, 0) + MakeUnknownTypeBody(rtype)
  }

  function CantMultiplexReply(requestId: nat): seq<byte> {
    MakeHeader(END_REQUEST, requestId, 8, 0) + MakeEndRequestBody(0, CANT_MPX_CONN)
  }

  // ProcessBeginRecord, at a record whose header named p.content and p.padding.
  function ReactBegin(c: Context, requestId: nat, p: Position, s: seq<byte>): (r: Reaction)
    ensures r.Go? ==> |r.rest| <= |s|
  {
    if requestId == 0 || p.content != 8 then Stop(Fail(PROTOCOL_ERROR))
    else if c.begun then Go(CantMultiplexReply(requestId), p.(skip := true), s)
    else if p.skip || |s| < 8 then Stop(Fail(PROTOCOL_ERROR))
    else Stop(Begin(BeginBody(requestId, Word(s[0], s[1]), s[2] % 2 == 1), p.padding, s[8..]))
  }

  // ProcessManagementRecord.
  function ReactManagement(c: Context, rtype: byte, p: Position, s: seq<byte>): (r: Reaction)
    ensures r.Go? ==> |r.rest| <= |s|
  {
    if rtype != GET_VALUES then Go(UnknownTypeReply(rtype), p, s)
    else
      var o := ScanRecord(p, s);
      var asked := ReadPairs(o.data);
      if o.end.Fail? then Stop(o.end)
      else if !asked.ok then Stop(Fail(PARAMS_ERROR))
      else if c.errno != 0 then Stop(Fail(PROTOCOL_ERROR))
      else if !ReplyDefined(asked.list) then Stop(Undefined)
      else Go(GetValuesReply(asked.list), Position(0, 0, o.end.skip), o.end.rest)
  }

  // ProcessHeader and the dispatch on its result in FillBuffProc; s follows the header.
  function React(c: Context, h: Header, skip: bool, s: seq<byte>): (r: Reaction)
    ensures r.Go? ==> |r.rest| <= |s|
    ensures h.requestId < 0x10000 && r.Stop? && r.end.Begin? ==> 0 < r.end.body.requestId < 0x10000
  {
    var p := Position(h.contentLength, h.paddingLength, skip);
    if h.version != VERSION_1 then Stop(Fail(UNSUPPORTED_VERSION))
    else if h.rtype == BEGIN_REQUEST then ReactBegin(c, h.requestId, p, s)
    else if h.requestId == NULL_REQUEST_ID then ReactManagement(c, h.rtype, p, s)
    else if h.requestId != c.requestId then Go([], p.(skip := true), s)
    else if h.rtype != c.rtype then Stop(Fail(PROTOCOL_ERROR))
    else if h.contentLength == 0 then Stop(Eof(skip, h.paddingLength, s))
    else Go([], p, s)
  }

  /** The whole future of a stream at position p whose unread input is s. */
  function ScanStream(c: Context, p: Position, s: seq<byte>): (o: Outcome)
    ensures c.begun ==> !o.end.Begin?
    ensures o.end.Begin? ==> 0 < o.end.body.requestId < 0x10000
    decreases |s|, 1
  {
    if s == [] then Outcome([], [], Fail(PROTOCOL_ERROR))
    else if p.content > 0 && !p.skip then
      var k := Min(p.content, |s|);
      var o := ScanStream(c, p.(content := p.content - k), s[k..]);
      o.Behind(s[..k])
    else
      if |s| < p.content + p.padding then Outcome([], [], Fail(PROTOCOL_ERROR))
      else ScanHeader(c, p.skip && p.content == 0, s[p.content + p.padding..])
  }

  // The same at a record boundary.
  function ScanHeader(c: Context, skip: bool, s: seq<byte>): (o: Outcome)
    ensures c.begun ==> !o.end.Begin?
    ensures o.end.Begin? ==> 0 < o.end.body.requestId < 0x10000
    decreases |s|, 0
  {
    if |s| < HEADER_LEN then Outcome([], [], Fail(PROTOCOL_ERROR))
    else
      match React(c, ParseHeader(s[..HEADER_LEN]), skip, s[HEADER_LEN..])
      case Stop(end) => Outcome([], [], end)
      case Go(reply, p, rest) =>
        var o := ScanStream(c, p, rest);
        o.(replies := reply + o.replies)
  }

  // The stream's error code is the first one set; an end of stream with an error is a failure.
  function Seal(errno: int, end: End): End {
    if errno == 0 || end.Begin? || end.Undefined? then end else Fail(errno)
  }

  /** The future of a stream in context c at position p with unread input s. */
  function Future(c: Context, p: Position, s: seq<byte>): (o: Outcome)
    ensures c.begun || c.eorStop ==> !o.end.Begin?
  {
    var o := if c.eorStop then ScanRecord(p, s) else ScanStream(c, p, s);
    o.(end := Seal(c.errno, o.end))
  }

  // One step of either scanner over k content bytes; k need not be all there are.

  // The content of the current record, as far as it has arrived.
  lemma ArrivedRecord(p: Position, s: seq<byte>)
    requires p.content > 0 && !p.skip && s != []
    ensures var m := Min(p.content, |s|);
            var o := ScanRecord(p.(content := p.content - m), s[m..]);
            ScanRecord(p, s) == o.Behind(s[..m])
  {
  }

  lemma DeliverRecord(p: Position, s: seq<byte>, k: nat)
    requires p.content > 0 && !p.skip && 0 < k <= Min(p.content, |s|)
    ensures ScanRecord(p, s) ==
            ScanRecord(p.(content := p.content - k), s[k..]).Behind(s[..k])
  {
    hide ScanRecord;
    var m := Min(p.content, |s|);
    ArrivedRecord(p, s);
    if k < m {
      var q := p.(content := p.content - k);
      ArrivedRecord(q, s[k..]);
      assert s[k..][..m - k] == s[k..m] && s[..k] + s[k..m] == s[..m];
      assert s[k..][m - k..] == s[m..];
      BehindTwice(ScanRecord(p.(content := p.content - m), s[m..]), s[..k], s[k..m]);
    }
  }

  // A stream confined to a record gets exactly the content that arrives, unless it is skipped.
  lemma RecordContent(p: Position, s: seq<byte>)
    ensures ScanRecord(p, s).data == if p.skip then [] else s[..Min(p.content, |s|)]
    ensures var end := ScanRecord(p, s).end; end.Eof? || end == Fail(PROTOCOL_ERROR)
  {
    if p.content > 0 && !p.skip && s != [] {
      var k := Min(p.content, |s|);
      var q := p.(content := p.content - k);
      assert ScanRecord(q, s[k..]).data == [];
      assert s[..k] + [] == s[..k];
    }
  }

  // The content of the current record, as far as it has arrived.
  lemma ArrivedStream(c: Context, p: Position, s: seq<byte>)
    requires p.content > 0 && !p.skip && s != []
    ensures var m := Min(p.content, |s|);
            var o := ScanStream(c, p.(content := p.content - m), s[m..]);
            ScanStream(c, p, s) == o.Behind(s[..m])
  {
  }

  lemma DeliverStream(c: Context, p: Position, s: seq<byte>, k: nat)
    requires p.content > 0 && !p.skip && 0 < k <= Min(p.content, |s|)
    ensures ScanStream(c, p, s) ==
            ScanStream(c, p.(content := p.content - k), s[k..]).Behind(s[..k])
  {
    hide ScanStream;
    var m := Min(p.content, |s|);
    ArrivedStream(c, p, s);
    if k < m {
      var q := p.(content := p.content - k);
      ArrivedStream(c, q, s[k..]);
      assert s[k..][..m - k] == s[k..m] && s[..k] + s[k..m] == s[..m];
      assert s[k..][m - k..] == s[m..];
      BehindTwice(ScanStream(c, p.(content := p.content - m), s[m..]), s[..k], s[k..m]);
    }
  }

  lemma Deliver(c: Context, p: Position, s: seq<byte>, k: nat)
    requires p.content > 0 && !p.skip && 0 < k <= Min(p.content, |s|)
    ensures Future(c, p, s) ==
            Future(c, p.(content := p.content - k), s[k..]).Behind(s[..k])
  {
    hide ScanStream, ScanRecord;
    if c.eorStop {
      DeliverRecord(p, s, k);
    } else {
      DeliverStream(c, p, s, k);
    }
  }

  // Dropping k bytes of skipped content or padding.
  function Drop(p: Position, k: nat): Position
    requires k <= p.content + p.padding
  {
    if k < p.content then p.(content := p.content - k)
    else Position(0, p.padding - (k - p.content), p.skip && p.content == 0)
  }

  lemma DropStream(c: Context, p: Position, s: seq<byte>, k: nat)
    requires p.skip || p.content == 0
    requires k <= |s| && k <= p.content + p.padding
    ensures ScanStream(c, p, s) == ScanStream(c, Drop(p, k), s[k..])
  {
    hide ScanHeader;
    var at := p.content + p.padding;
    if |s| >= at {
      assert s[k..][at - k..] == s[at..];
    }
    NothingAhead(c);
  }

  lemma NothingAhead(c: Context)
    ensures forall skip :: ScanHeader(c, skip, []) == Outcome([], [], Fail(PROTOCOL_ERROR))
  {
  }

  lemma Dropped(c: Context, p: Position, s: seq<byte>, k: nat)
    requires p.skip || p.content == 0
    requires k <= |s| && k <= p.content + p.padding
    requires !c.eorStop || k < p.content + p.padding
    ensures Future(c, p, s) == Future(c, Drop(p, k), s[k..])
  {
    hide ScanStream;
    var at := p.content + p.padding;
    if c.eorStop {
      if |s| >= at {
        assert s[k..][at - k..] == s[at..];
      }
      assert ScanRecord(p, s) == ScanRecord(Drop(p, k), s[k..]);
    } else {
      DropStream(c, p, s, k);
    }
  }

  lemma EndOfRecord(c: Context, p: Position, s: seq<byte>)
    requires c.eorStop && (p.skip || p.content == 0)
    requires s != [] && |s| >= p.content + p.padding
    ensures Future(c, p, s) ==
            Outcome([], [], Seal(c.errno, Eof(p.skip && p.content == 0, 0, s[p.content + p.padding..])))
  {
  }

  // The same with the bytes of header held back.
  lemma Skipped(c: Context, p: Position, header: seq<byte>, t: seq<byte>, k: nat)
    requires p.skip || p.content == 0
    requires t != [] && k <= |t| && k <= p.content + p.padding
    requires header != [] ==> p.content + p.padding == 0 && !c.eorStop
    ensures if c.eorStop && k == p.content + p.padding then
              Future(c, p, header + t) == Outcome([], [], Seal(c.errno, Eof(Drop(p, k).skip, 0, t[k..])))
            else
              Future(c, p, header + t) == Future(c, Drop(p, k), header + t[k..])
  {
    hide Future;
    if header == [] {
      assert [] + t == t && [] + t[k..] == t[k..];
      if c.eorStop && k == p.content + p.padding {
        EndOfRecord(c, p, t);
      } else {
        Dropped(c, p, t, k);
      }
    } else {
      assert t[k..] == t;
    }
  }

  lemma EndOfInput(c: Context, p: Position, s: seq<byte>)
    requires |s| < HEADER_LEN && (s == [] || (!c.eorStop && p.content == 0 && p.padding == 0))
    ensures Future(c, p, s) == Outcome([], [], Seal(c.errno, Fail(PROTOCOL_ERROR)))
  {
    var o := Outcome([], [], Fail(PROTOCOL_ERROR));
    assert if c.eorStop then ScanRecord(p, s) == o else ScanStream(c, p, s) == o;
  }

  // The future after a complete header.
  function FutureAfter(c: Context, r: Reaction): Outcome {
    match r
    case Stop(end) => Outcome([], [], Seal(c.errno, end))
    case Go(reply, p, rest) => var o := Future(c, p, rest); o.(replies := reply + o.replies)
  }

  lemma HeaderRead(c: Context, skip: bool, header: seq<byte>, s: seq<byte>)
    requires |header| == HEADER_LEN && !c.eorStop
    ensures Future(c, Position(0, 0, skip), header + s) == FutureAfter(c, React(c, ParseHeader(header), skip, s))
  {
    hide React, ParseHeader;
    var t := header + s;
    assert t[..HEADER_LEN] == header && t[HEADER_LEN..] == s && t[0..] == t;
    assert ScanStream(c, Position(0, 0, skip), t) == ScanHeader(c, skip, t);
  }
}
