/** Input streams: FCGX_GetChar, FCGX_GetStr, FCGX_UnGetChar, FillBuffProc,
    ProcessHeader and ReadParams over one buffer that the connection refills in
    arbitrary chunks. Every method is proved against module Scan. */
module Reader {
  import opened Protocol
  import opened Pairs
  import opened Scan
  import opened Connection
  import opened Replies

  // Return codes of ProcessHeader; negative ones are errors.
  const STREAM_RECORD := 0
  const SKIP := 1
  const BEGIN_RECORD := 2
  const MGMT_RECORD := 3

  // No further name-value pair.
  const END_OF_DATA := -2

  datatype Slot = Null | Entry(text: seq<byte>)

  /** The growing NULL-terminated vector of name=value strings. */
  class Params {
    var vec: array<Slot>
    var cur: nat

    ghost predicate Valid()
      reads this, vec
    {
      cur < vec.Length && vec[cur] == Null && forall i :: 0 <= i < cur ==> vec[i].Entry?
    }

    ghost function List(): (l: seq<seq<byte>>)
      requires Valid()
      reads this, vec
      ensures |l| == cur && forall i :: 0 <= i < cur ==> vec[i] == Entry(l[i])
    {
      seq(cur, i requires 0 <= i < cur && Valid() reads this, vec => vec[i].text)
    }

    constructor (length: nat)
      requires length > 0
      ensures Valid() && List() == [] && fresh(vec) && vec.Length == length
    {
      vec := new Slot[length](_ => Null);
      cur := 0;
    }

    // PutParam: the vector doubles when its last slot, kept for NULL, would be used.
    method Put(nameValue: seq<byte>)
      requires Valid()
      modifies this, vec
      ensures Valid() && List() == old(List()) + [nameValue]
      ensures vec == old(vec) || fresh(vec)
    {
      ghost var was := List();
      vec[cur] := Entry(nameValue);
      cur := cur + 1;
      if cur >= vec.Length {
        Double();
      }
      vec[cur] := Null;
      assert forall i :: 0 <= i < cur ==> List()[i] == (was + [nameValue])[i];
    }

    method Double()
      requires 0 < cur == vec.Length
      modifies this`vec
      ensures fresh(vec) && vec.Length == 2 * old(vec.Length)
      ensures forall i :: 0 <= i < cur ==> vec[i] == old(vec)[i]
    {
      var bigger := new Slot[2 * vec.Length](_ => Null);
      forall i | 0 <= i < cur {
        bigger[i] := vec[i];
      }
      vec := bigger;
    }

    // FCGX_GetParam
    method GetParam(name: seq<byte>) returns (r: Option<seq<byte>>)
      requires Valid()
      ensures r == Find(List(), name)
    {
      ghost var list := List();
      var p := 0;
      assert list[0..] == list;
      while vec[p] != Null
        invariant p <= cur && Find(list[p..], name) == Find(list, name)
        decreases cur - p
      {
        var text := vec[p].text;
        assert list[p..][0] == text && list[p..][1..] == list[p + 1..];
        if |name| < |text| && name == text[..|name|] && text[|name|] == EQUALS {
          assert name + [EQUALS] == text[..|name| + 1];
          return Some(text[|name| + 1..]);
        }
        p := p + 1;
      }
      assert list[p..] == [];
      return None;
    }
  }

  // memcpy into part of an array.
  method Store(dst: array<byte>, at: nat, src: seq<byte>)
    requires at + |src| <= dst.Length
    modifies dst
    ensures dst[at..at + |src|] == src
    ensures forall j :: 0 <= j < dst.Length && !(at <= j < at + |src|) ==> dst[j] == old(dst[j])
  {
    forall i | 0 <= i < |src| {
      dst[at + i] := src[i];
    }
  }

  class Reader {
    const req: Request
    const conn: Connection
    const buff: array<byte>
    var rdNext: nat
    var stop: nat
    var stopUnget: nat
    var buffStop: nat
    var isClosed: bool
    var errno: int
    var rtype: byte
    var eorStop: bool
    var skip: bool
    var contentLen: nat
    var paddingLen: nat

    ghost predicate Buffered()
      reads this
    {
      buff.Length > 0 && rdNext <= buffStop <= buff.Length
    }

    ghost predicate Valid()
      reads this
    {
      && Buffered()
      && (!isClosed ==> rdNext <= stop <= buffStop)
      && (isClosed ==> contentLen == 0 || errno != 0)
    }

    // The limit of FCGX_UnGetChar lies before the next byte; a limit left over from
    // before SetType may lie behind it, until the next fragment.
    ghost predicate Limited()
      reads this
    {
      isClosed || rdNext == stop || stopUnget <= rdNext
    }

    ghost function Where(): Position
      reads this
    {
      Position(contentLen, paddingLen, skip)
    }

    ghost function Ctx(): Context
      reads this, req`requestId, req`isBeginProcessed
    {
      Context(eorStop, rtype, req.requestId, req.isBeginProcessed, errno)
    }

    // Unread input behind position from: the rest of the buffer, then the connection's.
    ghost function Unread(from: nat): seq<byte>
      requires from <= buffStop <= buff.Length
      reads this, buff, conn`input
    {
      buff[from..buffStop] + conn.input
    }

    /** What the client will still get from this stream. */
    ghost function View(): Outcome
      requires Valid()
      reads this, buff, conn`input, req`requestId, req`isBeginProcessed
    {
      if isClosed then
        Outcome([], [], Seal(errno, Eof(skip, paddingLen, Unread(rdNext))))
      else
        Future(Ctx(), Where(), Unread(stop)).Behind(buff[rdNext..stop])
    }

    /** The same with the replies already sent: unchanged by everything but the client
        taking bytes. */
    ghost function Total(): Outcome
      requires Valid()
      reads this, buff, conn, req
    {
      var o := View();
      o.(replies := conn.sent + o.replies)
    }

    // What has been sent since is replies, and they are in the log.
    twostate predicate Answered()
      reads conn`sent, conn`log
    {
      conn.Logged() && OnlyReplies(old(conn.log), conn.log)
    }

    // NewStream for a reader; malloc may return a buffer that is not 8-byte aligned.
    constructor (req: Request, conn: Connection, bufflen: int, misaligned: bool, streamType: byte)
      ensures Valid() && fresh(buff)
      ensures this.req == req && this.conn == conn && rtype == streamType
      ensures !isClosed && errno == 0 && !eorStop && Where() == START && rdNext == stop
      ensures Unread(stop) == conn.input && buff.Length == BufferSize(bufflen, misaligned)
    {
      hide BufferSize;
      var size := BufferSize(bufflen, misaligned);
      this.req, this.conn := req, conn;
      buff := new byte[size](_ => 0);
      rdNext, stop, stopUnget, buffStop := 0, 0, 0, 0;
      isClosed, errno, rtype := false, 0, streamType;
      eorStop, skip, contentLen, paddingLen := false, false, 0, 0;
    }

    // SetReaderType
    method SetType(streamType: byte)
      requires Valid()
      modifies this
      ensures Valid()
      ensures rtype == streamType && Where() == START && !eorStop && !isClosed && rdNext == stop
      ensures errno == old(errno)
      ensures Unread(stop) == old(Unread(rdNext))
    {
      rtype, eorStop, skip, contentLen, paddingLen := streamType, false, false, 0, 0;
      stop := rdNext;
      isClosed := false;
    }

    // SetError
    method SetError(error: int)
      requires error != 0
      modifies this`errno, this`isClosed
      ensures isClosed
      ensures errno == if old(errno) == 0 then error else old(errno)
    {
      if errno == 0 {
        errno := error;
      }
      isClosed := true;
    }

    // Future of the stream inside FillBuff, when the bytes of header are held back.
    ghost function Pending(header: seq<byte>): Outcome
      requires Buffered()
      reads this, buff, conn, req
    {
      var o := Future(Ctx(), Where(), header + Unread(rdNext));
      o.(replies := conn.sent + o.replies)
    }

    // Position of a reader confined to a record: what is left of the content.
    ghost predicate Advanced(s: seq<byte>, left: int, padding: nat)
      requires Buffered()
      reads this, buff, conn
    {
      !skip && Unread(rdNext) == s && contentLen + (stop - rdNext) == left && paddingLen == padding
    }

    // The next thing on a stream whose future is o is the beginning of a request.
    static predicate Begins(o: Outcome) {
      o.data == [] && o.end.Begin?
    }

    // Outcome of FillBuff on a stream whose future was o: either a request has begun, or
    // the future is the same and its end or its next byte is at hand.
    ghost predicate Filled(o: Outcome, errnoBefore: int)
      reads this, buff, conn, req
    {
      && Valid()
      && if Begins(o) then
           && !isClosed && rdNext == stop && errno == errnoBefore
           && req.isBeginProcessed && conn.sent == o.replies
           && BeginBody(req.requestId, req.role, req.keepConnection) == o.end.body
           && Where() == Position(0, o.end.padding, false)
           && Unread(stop) == o.end.rest
         else
           Total() == o && (isClosed || rdNext < stop)
    }

    // The read at the head of FillBuffProc's loop; nothing of the future changes.
    method Refill(header: seq<byte>, ghost o: Outcome) returns (ok: bool)
      requires Buffered() && Pending(header) == o
      modifies this`rdNext, this`buffStop, buff, conn`input
      ensures Buffered() && Pending(header) == o
      ensures Unread(rdNext) == old(Unread(rdNext))
      ensures if ok then rdNext < buffStop else Unread(rdNext) == []
    {
      hide Future;
      ghost var s := Unread(rdNext);
      ok := true;
      if rdNext == buffStop {
        var count := conn.Read(buff);
        if count == 0 {
          assert Unread(rdNext) == s;
          return false;
        }
        rdNext := 0;
        buffStop := count;
        assert Unread(rdNext) == s;
      }
    }

    // FillBuffProc
    method FillBuff()
      requires Valid() && !isClosed && rdNext == stop && Yields(Total(), 1)
      requires conn.Logged()
      modifies this, buff, conn, req
      ensures Answered()
      ensures conn.sent == old(conn.sent) + EncodeAll(Entered(old(conn.log), conn.log))
      ensures rtype == old(rtype) && eorStop == old(eorStop)
      ensures Filled(old(Total()), old(errno)) && (!isClosed ==> errno == old(errno))
      ensures old(eorStop || req.isBeginProcessed) ==> unchanged(req)
      ensures !Begins(old(Total())) ==> req.isBeginProcessed == old(req.isBeginProcessed)
      ensures old(eorStop && !skip) && !isClosed ==>
                Advanced(old(Unread(rdNext)), old(contentLen + (stop - rdNext)), old(paddingLen))
      decreases !eorStop, 0, 2
    {
      ghost var o := Total();
      var header: seq<byte> := [];
      assert Pending([]) == o by {
        hide Future;
        assert [] + Unread(rdNext) == Unread(stop);
      }
      hide Future, Filled, View, Total, Pending, OnlyReplies, EncodeAll;
      NoReply(conn.log);
      var done := false;
      while !done
        invariant Answered()
        invariant rtype == old(rtype) && eorStop == old(eorStop) && (!isClosed ==> errno == old(errno))
        invariant old(eorStop || req.isBeginProcessed) ==> unchanged(req)
        invariant Begins(o) || req.isBeginProcessed == old(req.isBeginProcessed)
        invariant if done then Filled(o, old(errno)) else Between(header, o) && unchanged(req) && errno == old(errno)
        invariant old(eorStop && !skip) && !isClosed ==>
                    && Buffered() && !skip
                    && (if done then Advanced(old(Unread(rdNext)), old(contentLen), old(paddingLen))
                        else contentLen > 0 ==> Unread(rdNext) == old(Unread(rdNext)) && Where() == old(Where()))
        decreases !done, if Buffered() then |Unread(rdNext)| else 0
      {
        ghost var log := conn.log;
        header, done := Step(header, o);
        OnlyRepliesTwice(old(conn.log), log, conn.log);
      }
      EnteredBytes(old(conn.log), conn.log);
    }

    // Between two rounds of FillBuffProc's loop, with the bytes of header held back.
    ghost predicate Between(header: seq<byte>, o: Outcome)
      reads this, buff, conn, req
    {
      && Buffered() && !isClosed
      && |header| < HEADER_LEN
      && (header != [] ==> contentLen == 0 && paddingLen == 0 && !eorStop)
      && Pending(header) == o
    }

    // One round; true when FillBuff is done.
    method Step(header: seq<byte>, ghost o: Outcome) returns (longer: seq<byte>, done: bool)
      requires Between(header, o) && Yields(o, 1)
      requires conn.Logged()
      modifies this, buff, conn, req
      ensures Answered()
      ensures rtype == old(rtype) && eorStop == old(eorStop) && (!isClosed ==> errno == old(errno))
      ensures Begins(o) || req.isBeginProcessed == old(req.isBeginProcessed)
      ensures done ==> Filled(o, old(errno)) && (old(eorStop || req.isBeginProcessed) ==> unchanged(req))
      ensures !done ==> Between(longer, o) && unchanged(req) && errno == old(errno)
      ensures !done ==> |Unread(rdNext)| < old(|Unread(rdNext)|)
      ensures old(eorStop && !skip) && !isClosed ==>
                && Buffered() && !skip
                && if done then Advanced(old(Unread(rdNext)), old(contentLen), old(paddingLen)) else contentLen == 0
      decreases !eorStop, 0, 1
    {
      hide Future, Filled, View, Total, Pending, OnlyReplies, EncodeAll;
      NoReply(conn.log);
      longer, done := header, true;
      var ok := Refill(header, o);
      if !ok {
        NoInput(header, o);
        return;
      }
      if contentLen > 0 && !skip {
        Deliver(Min(contentLen, buffStop - rdNext), o);
        return;
      }
      var more := SkipAhead(header, o);
      if more {
        done := false;
        return;
      }
      if eorStop {
        CloseAtRecordEnd(o);
        return;
      }
      longer := TakeHeader(header, o);
      if |longer| < HEADER_LEN {
        done := false;
        return;
      }
      done := Interpret(longer, o);
      longer := [];
    }

    // OS_Read met the end of the connection.
    method NoInput(header: seq<byte>, ghost o: Outcome)
      requires Buffered() && Unread(rdNext) == [] && |header| < HEADER_LEN
      requires header != [] ==> contentLen == 0 && paddingLen == 0 && !eorStop
      requires Pending(header) == o
      modifies this`errno, this`isClosed
      ensures Filled(o, old(errno)) && isClosed
    {
      hide Future;
      EndOfInput(Ctx(), Where(), header + Unread(rdNext));
      SetError(PROTOCOL_ERROR);
    }

    // EOF of a stream confined to a record that has been consumed.
    method CloseAtRecordEnd(ghost o: Outcome)
      requires Buffered() && contentLen == 0 && paddingLen == 0
      requires o == Outcome([], conn.sent, Seal(errno, Eof(skip, 0, Unread(rdNext))))
      modifies this`stop, this`isClosed
      ensures Filled(o, errno) && isClosed
    {
      hide Future;
      ghost var u := Unread(rdNext);
      stop := rdNext;
      isClosed := true;
      assert Unread(rdNext) == u && conn.sent + [] == conn.sent;
      assert Total() == o && !Begins(o);
    }

    lemma UnreadFrom(start: nat, k: nat)
      requires Buffered() && start + k <= buffStop
      ensures Unread(start)[..k] == buff[start..start + k] && Unread(start)[k..] == Unread(start + k)
    {
    }

    // The steps of FillBuff over skipped content and padding; true when more is to come.
    method SkipAhead(header: seq<byte>, ghost o: Outcome) returns (more: bool)
      requires Buffered() && rdNext < buffStop
      requires contentLen == 0 || skip
      requires header != [] ==> contentLen == 0 && paddingLen == 0 && !eorStop
      requires Pending(header) == o
      modifies this`rdNext, this`contentLen, this`paddingLen, this`skip
      ensures Buffered()
      ensures !more ==> contentLen == 0 && paddingLen == 0
      ensures rdNext >= old(rdNext) && (!old(skip) ==> !skip)
      ensures header != [] ==> !more && rdNext == old(rdNext)
      ensures more ==> rdNext > old(rdNext) && (contentLen == 0 || skip)
      ensures more || !eorStop ==> Pending(header) == o
      ensures !more && eorStop ==> o == Outcome([], conn.sent, Seal(errno, Eof(skip, 0, Unread(rdNext))))
    {
      hide Future;
      ghost var p, t, start := Where(), Unread(rdNext), rdNext;
      ghost var k;
      more, k := DropSkipped();
      UnreadFrom(start, k);
      Skipped(Ctx(), p, header, t, k);
    }

    // A complete header: true when FillBuff is done.
    method Interpret(header: seq<byte>, ghost o: Outcome) returns (done: bool)
      requires Buffered() && !isClosed && !eorStop && contentLen == 0 && paddingLen == 0
      requires |header| == HEADER_LEN
      requires Pending(header) == o && Yields(o, 1)
      requires conn.Logged()
      modifies this, buff, conn, req
      ensures Answered()
      ensures rtype == old(rtype) && !eorStop && (!isClosed ==> errno == old(errno))
      ensures Begins(o) || req.isBeginProcessed == old(req.isBeginProcessed)
      ensures done ==> Filled(o, old(errno)) && (old(req.isBeginProcessed) ==> unchanged(req))
      ensures !done ==> Buffered() && !isClosed && Pending([]) == o && unchanged(req) && errno == old(errno)
      ensures !done ==> |Unread(rdNext)| <= old(|Unread(rdNext)|)
      decreases !eorStop, 0, 0
    {
      hide Future, React, ParseHeader;
      ghost var c, before := Ctx(), conn.sent;
      ghost var r := React(c, ParseHeader(header), skip, Unread(rdNext));
      HeaderRead(c, skip, header, Unread(rdNext));
      eorStop := true;
      stop := rdNext;
      var status := ProcessHeader(header);
      done := Dispatch(status, c, r, before, o);
    }

    // The switch on ProcessHeader's result.
    method Dispatch(status: int, ghost c: Context, ghost r: Reaction, ghost before: seq<byte>, ghost o: Outcome)
      returns (done: bool)
      requires Valid() && eorStop && Processed(r, status, c.errno, before)
      requires o == (var f := FutureAfter(c, r); f.(replies := before + f.replies))
      requires Yields(o, 1)
      requires Regular(r) ==> c == Ctx().(eorStop := false)
      modifies this`eorStop, this`isClosed, this`stop, this`skip, this`errno
      ensures !eorStop && (!isClosed ==> errno == c.errno)
      ensures done ==> Filled(o, c.errno)
      ensures !done ==> Regular(r) && r.Go?
      ensures !done ==> Buffered() && !isClosed && Pending([]) == o && errno == c.errno && Unread(rdNext) == r.rest
    {
      hide Future;
      eorStop := false;
      isClosed := false;
      done := true;
      assert [] + Unread(rdNext) == Unread(rdNext);
      if status == STREAM_RECORD {
        if contentLen == 0 {
          stop := rdNext;
          isClosed := true;
          return;
        }
      } else if status == SKIP {
        skip := true;
      } else if status == BEGIN_RECORD {
        return;
      } else if status != MGMT_RECORD {
        SetError(status);
        return;
      }
      done := false;
    }

    // The bytes of a header that have arrived.
    method TakeHeader(header: seq<byte>, ghost o: Outcome) returns (longer: seq<byte>)
      requires Buffered() && |header| < HEADER_LEN && Pending(header) == o
      modifies this`rdNext
      ensures Buffered() && Pending(longer) == o
      ensures |longer| <= HEADER_LEN
      ensures |longer| + |Unread(rdNext)| == |header| + old(|Unread(rdNext)|)
      ensures old(rdNext < buffStop) ==> |longer| > |header|
      ensures |longer| >= |header|
    {
      hide Future;
      ghost var s := header + Unread(rdNext);
      var count := Min(HEADER_LEN - |header|, buffStop - rdNext);
      longer := header + buff[rdNext..rdNext + count];
      rdNext := rdNext + count;
      assert longer + Unread(rdNext) == s;
    }

    // Reactions that leave the request data alone.
    ghost predicate Regular(r: Reaction) {
      r.Go? || r.end.Eof?
    }

    // What ProcessHeader reports and leaves behind, for each reaction of the flat
    // scanner; errno and sent were the error code and the output before.
    ghost predicate Processed(r: Reaction, status: int, errnoBefore: int, sentBefore: seq<byte>)
      requires Buffered()
      reads this, buff, conn, req
    {
      match r
      case Go(reply, p, rest) =>
        && (status == STREAM_RECORD || status == SKIP || status == MGMT_RECORD)
        && (status == STREAM_RECORD ==> contentLen > 0)
        && p == Position(contentLen, paddingLen, status == SKIP || skip)
        && errno == errnoBefore
        && conn.sent == sentBefore + reply && Unread(rdNext) == rest
      case Stop(Eof(sk, padding, rest)) =>
        && status == STREAM_RECORD && Where() == Position(0, padding, sk)
        && errno == errnoBefore
        && conn.sent == sentBefore && Unread(rdNext) == rest
      case Stop(Begin(body, padding, rest)) =>
        && status == BEGIN_RECORD && Where() == Position(0, padding, false)
        && body == BeginBody(req.requestId, req.role, req.keepConnection) && req.isBeginProcessed
        && errno == errnoBefore
        && conn.sent == sentBefore && Unread(rdNext) == rest && rdNext == stop && stop <= buffStop
      case Stop(Fail(e)) =>
        && status < 0
        && (if errno == 0 then status else errno) == (if errnoBefore == 0 then e else errnoBefore)
        && conn.sent == sentBefore
      case Stop(Undefined) => true
    }

    // ProcessHeader
    method ProcessHeader(header: seq<byte>) returns (status: int)
      requires |header| == HEADER_LEN
      requires Valid() && !isClosed && rdNext == stop && eorStop
      requires contentLen == 0 && paddingLen == 0
      requires React(Ctx().(eorStop := false), ParseHeader(header), skip, Unread(rdNext)) != Stop(Undefined)
      requires conn.Logged()
      modifies this, buff, conn, req
      ensures Answered()
      ensures Valid() && eorStop && rtype == old(rtype)
      ensures var r := old(React(Ctx().(eorStop := false), ParseHeader(header), skip, Unread(rdNext)));
              && Processed(r, status, old(errno), old(conn.sent))
              && (Regular(r) || old(req.isBeginProcessed) ==> unchanged(req))
              && (req.isBeginProcessed == old(req.isBeginProcessed) || (r.Stop? && r.end.Begin?))
      decreases !eorStop, 9
    {
      hide OnlyReplies, EncodeAll;
      NoReply(conn.log);
      var h := ParseHeader(header);
      if h.version != VERSION_1 {
        return UNSUPPORTED_VERSION;
      }
      contentLen := h.contentLength;
      paddingLen := h.paddingLength;
      if h.rtype == BEGIN_REQUEST {
        status := ProcessBegin(h.requestId);
        return;
      }
      if h.requestId == NULL_REQUEST_ID {
        status := ProcessManagement(h.rtype);
        return;
      }
      if h.requestId != req.requestId {
        return SKIP;
      }
      if h.rtype != rtype {
        return PROTOCOL_ERROR;
      }
      return STREAM_RECORD;
    }

    // ProcessBeginRecord
    method ProcessBegin(requestId: nat) returns (status: int)
      requires requestId < 0x10000
      requires Valid() && !isClosed && rdNext == stop && eorStop
      requires conn.Logged()
      modifies this, buff, conn, req
      ensures Answered()
      ensures Valid() && eorStop && rtype == old(rtype)
      ensures var r := old(ReactBegin(Ctx().(eorStop := false), requestId, Where(), Unread(rdNext)));
              && Processed(r, status, old(errno), old(conn.sent))
              && (Regular(r) || old(req.isBeginProcessed) ==> unchanged(req))
              && (req.isBeginProcessed == old(req.isBeginProcessed) || (r.Stop? && r.end.Begin?))
      decreases !eorStop, 7
    {
      hide OnlyReplies, EncodeAll;
      NoReply(conn.log);
      if requestId == 0 || contentLen != 8 {
        return PROTOCOL_ERROR;
      }
      if req.isBeginProcessed {
        RefuseRequest(requestId);
        return SKIP;
      }
      status := ReadBegin(requestId);
    }

    // The body of a request's first BEGIN_REQUEST record.
    method ReadBegin(requestId: nat) returns (status: int)
      requires 0 < requestId < 0x10000 && !req.isBeginProcessed && contentLen == 8
      requires Valid() && !isClosed && rdNext == stop && eorStop
      requires conn.Logged()
      modifies this, buff, conn, req
      ensures Answered()
      ensures Valid() && eorStop && rtype == old(rtype)
      ensures var r := old(ReactBegin(Ctx().(eorStop := false), requestId, Where(), Unread(rdNext)));
              && Processed(r, status, old(errno), old(conn.sent)) && !Regular(r)
              && (req.isBeginProcessed ==> r.Stop? && r.end.Begin?)
      decreases !eorStop, 6
    {
      hide OnlyReplies, EncodeAll, View, Total, Future, ScanRecord, ScanStream, ReactBegin, Advanced;
      BeginReaction(Ctx().(eorStop := false), requestId, Where(), Unread(rdNext));
      req.requestId := requestId;
      var body := GetBody();
      if |body| != 8 {
        return PROTOCOL_ERROR;
      }
      req.keepConnection := body[2] % 2 == 1;
      req.role := Word(body[0], body[1]);
      req.isBeginProcessed := true;
      return BEGIN_RECORD;
    }

    // The eight bytes of a BEGIN_REQUEST body, or fewer.
    method GetBody() returns (body: seq<byte>)
      requires Valid() && !isClosed && rdNext == stop && eorStop && contentLen == 8
      requires conn.Logged()
      modifies this, buff, conn, req
      ensures Answered() && unchanged(req) && conn.sent == old(conn.sent)
      ensures Valid() && eorStop && rtype == old(rtype)
      ensures var s := old(Unread(rdNext));
              if old(skip) || |s| < 8 then
                |body| < 8 && (errno == old(errno) || (old(errno) == 0 && errno == PROTOCOL_ERROR))
              else
                && body == s[..8] && errno == old(errno) && rdNext == stop <= buffStop
                && Where() == Position(0, old(paddingLen), false) && Unread(rdNext) == s[8..]
      decreases !eorStop, 5
    {
      hide OnlyReplies, EncodeAll, View, Total, Future, ScanRecord, ScanStream;
      BodyAhead();
      body := GetStr(8);
      TotalSent();
      if |body| != 8 {
        ClosedTotal();
      }
    }

    static lemma BeginReaction(c: Context, requestId: nat, p: Position, s: seq<byte>)
      requires requestId != 0 && p.content == 8 && !c.begun
      ensures ReactBegin(c, requestId, p, s) ==
              if p.skip || |s| < 8 then Stop(Fail(PROTOCOL_ERROR))
              else Stop(Begin(BeginBody(requestId, Word(s[0], s[1]), s[2] % 2 == 1), p.padding, s[8..]))
    {
    }

    // A stream confined to a record sends nothing.
    lemma TotalSent()
      requires Valid() && eorStop
      ensures Total().replies == conn.sent
    {
      assert conn.sent + [] == conn.sent;
    }

    // END_REQUEST with CANT_MPX_CONN.
    method RefuseRequest(requestId: nat)
      requires 0 < requestId < 0x10000 && conn.Logged()
      modifies conn`sent, conn`log
      ensures conn.sent == old(conn.sent) + CantMultiplexReply(requestId) && Answered()
    {
      ghost var r: Record := Record(END_REQUEST, requestId, MakeEndRequestBody(0, CANT_MPX_CONN), []);
      var record := new byte[16];
      Store(record, 0, MakeHeader(END_REQUEST, requestId, 8, 0));
      Store(record, 8, MakeEndRequestBody(0, CANT_MPX_CONN));
      assert record[..16] == CantMultiplexReply(requestId) == Encode(r);
      SendReply(record, 16, r);
    }

    method RefuseType(recordType: byte)
      requires conn.Logged()
      modifies conn`sent, conn`log
      ensures conn.sent == old(conn.sent) + UnknownTypeReply(recordType) && Answered()
    {
      ghost var r: Record := Record(UNKNOWN_TYPE, NULL_REQUEST_ID, MakeUnknownTypeBody(recordType), []);
      var record := new byte[16];
      Store(record, 0, MakeHeader(UNKNOWN_TYPE, NULL_REQUEST_ID, 8, 0));
      Store(record, 8, MakeUnknownTypeBody(recordType));
      assert record[..16] == UnknownTypeReply(recordType) == Encode(r);
      SendReply(record, 16, r);
    }

    // write_it_all of a reply record.
    method SendReply(record: array<byte>, len: nat, ghost r: Record)
      requires len <= record.Length && record[..len] == Encode(r) && IsReply(r) && conn.Logged()
      modifies conn`sent, conn`log
      ensures conn.sent == old(conn.sent) + Encode(r) && Answered()
    {
      hide Encode, IsReply;
      conn.WriteAll(record, len);
      EncodeAllOne(r);
      assert Records([Reply(r)]) == [r];
      OneReply(conn.log, r);
      conn.Enter([Reply(r)]);
    }

    // Future of a stream confined to a record whose content is eight bytes.
    lemma BodyAhead()
      requires Valid() && !isClosed && rdNext == stop && eorStop && contentLen == 8
      ensures var s, o := Unread(rdNext), Total();
              && (if skip || |s| < 8 then |o.data| < 8 else |o.data| == 8 && o.data == s[..8])
              && ((o.end.Eof? && errno == 0) || o.end == Fail(if errno == 0 then PROTOCOL_ERROR else errno))
              && o.replies == conn.sent
    {
      RecordContent(Where(), Unread(rdNext));
      assert buff[rdNext..stop] == [];
    }

    // ProcessManagementRecord
    method ProcessManagement(recordType: byte) returns (status: int)
      requires Valid() && !isClosed && rdNext == stop && eorStop
      requires ReactManagement(Ctx().(eorStop := false), recordType, Where(), Unread(rdNext)) != Stop(Undefined)
      requires conn.Logged()
      modifies this, buff, conn, req
      ensures Answered()
      ensures Valid() && eorStop && rtype == old(rtype)
      ensures var r := old(ReactManagement(Ctx().(eorStop := false), recordType, Where(), Unread(rdNext)));
              && Processed(r, status, old(errno), old(conn.sent))
              && (Regular(r) || old(req.isBeginProcessed) ==> unchanged(req))
              && (req.isBeginProcessed == old(req.isBeginProcessed) || (r.Stop? && r.end.Begin?))
      decreases !eorStop, 8, 1
    {
      if recordType != GET_VALUES {
        RefuseType(recordType);
        return MGMT_RECORD;
      }
      status := AnswerGetValues();
    }

    // The GET_VALUES branch of ProcessManagementRecord.
    method AnswerGetValues() returns (status: int)
      requires Valid() && !isClosed && rdNext == stop && eorStop
      requires ReactManagement(Ctx().(eorStop := false), GET_VALUES, Where(), Unread(rdNext)) != Stop(Undefined)
      requires conn.Logged()
      modifies this, buff, conn, req
      ensures Answered()
      ensures Valid() && eorStop && rtype == old(rtype) && unchanged(req)
      ensures Processed(old(ReactManagement(Ctx().(eorStop := false), GET_VALUES, Where(), Unread(rdNext))),
                        status, old(errno), old(conn.sent))
      decreases !eorStop, 8, 0
    {
      hide Future, View, Total, ScanRecord, ReadPairs, ReplyDefined, OnlyReplies, EncodeAll;
      ghost var o := ScanRecord(Where(), Unread(rdNext));
      var params := new Params(3);
      AskedAhead();
      var _ := ReadParams(params);
      ClosedTotal();
      assert params.List() == ReadPairs(o.data).list;
      if errno != 0 || contentLen != 0 {
        return PROTOCOL_ERROR;
      }
      ghost var log := conn.log;
      SendValues(params);
      OnlyRepliesTwice(old(conn.log), log, conn.log);
      return MGMT_RECORD;
    }

    // Future of a stream confined to a GET_VALUES record.
    lemma AskedAhead()
      requires Valid() && !isClosed && rdNext == stop && eorStop
      ensures var o := ScanRecord(Where(), Unread(rdNext));
              Total() == Outcome(o.data, conn.sent, Seal(errno, o.end), o.late)
    {
      BehindTwice(ScanRecord(Where(), Unread(rdNext)), [], []);
      assert buff[rdNext..stop] == [];
    }

    lemma NoValues()
      ensures ValueReplies([]) == []
    {
    }

    lemma OneMoreValue(names: seq<seq<byte>>, i: nat)
      requires i < |names|
      ensures ValueReplies(names[..i + 1]) == ValueReplies(names[..i]) + ValueReply(NameOf(names[i]))
      ensures |ValueReplies(names[..i + 1])| <= |ValueReplies(names)|
    {
      hide ValueReply;
      assert names[..i + 1] == names[..i] + [names[i]];
      ValueRepliesConcat(names[..i], [names[i]]);
      assert names == names[..i + 1] + names[i + 1..];
      ValueRepliesConcat(names[..i + 1], names[i + 1..]);
      assert ValueReplies([names[i]]) == ValueReply(NameOf(names[i])) + ValueReplies([]);
    }

    // The value and the sprintf of one known variable; the terminating NUL is overwritten
    // by the next.
    method AppendValue(response: array<byte>, end: nat, nameValue: seq<byte>) returns (newEnd: nat)
      requires end < response.Length
      requires end + |ValueReply(NameOf(nameValue))| < response.Length
      requires forall j :: end <= j < response.Length ==> response[j] == 0
      modifies response
      ensures newEnd == end + |ValueReply(NameOf(nameValue))|
      ensures response[..newEnd] == old(response[..end]) + ValueReply(NameOf(nameValue))
      ensures forall j :: newEnd <= j < response.Length ==> response[j] == 0
    {
      var name, value: byte := NameOf(nameValue), 0;
      ghost var reply := ValueReply(name);
      if name == MAX_CONNS {
        value := 49;
      } else if name == MAX_REQS {
        value := 49;
      } else if name == MPXS_CONNS {
        value := 48;
      } else {
        return end;
      }
      assert reply == [|name|, 1] + name + [value];
      hide ValueReply;
      StoreText(response, end, [|name|, 1] + name + [value]);
      newEnd := end + |name| + 3;
    }

    // A C string: the text and a NUL.
    method StoreText(response: array<byte>, end: nat, text: seq<byte>)
      requires end + |text| < response.Length
      requires forall j :: end <= j < response.Length ==> response[j] == 0
      modifies response
      ensures response[..end + |text|] == old(response[..end]) + text
      ensures forall j :: end + |text| <= j < response.Length ==> response[j] == 0
    {
      Store(response, end, text + [0]);
      assert response[end..end + |text|] == response[end..end + |text| + 1][..|text|] == text;
      assert response[..end + |text|] == response[..end] + response[end..end + |text|];
    }

    // The reply to GET_VALUES, built in a buffer of 64 bytes.
    method SendValues(params: Params)
      requires params.Valid() && ReplyDefined(params.List()) && conn.Logged()
      modifies conn`sent, conn`log
      ensures conn.sent == old(conn.sent) + GetValuesReply(params.List()) && Answered()
    {
      hide ValueReply, ValueReplies;
      ghost var names := params.List();
      var response := new byte[64](_ => 0);
      var end := HEADER_LEN;
      NoValues();
      for i := 0 to params.cur
        invariant unchanged(conn)
        invariant HEADER_LEN <= end < 64 && end == HEADER_LEN + |ValueReplies(names[..i])|
        invariant response[HEADER_LEN..end] == ValueReplies(names[..i])
        invariant forall j :: end <= j < 64 ==> response[j] == 0
      {
        OneMoreValue(names, i);
        end := AppendValue(response, end, params.vec[i].text);
      }
      assert names[..params.cur] == names && params.List() == names;
      SendBody(response, end, names);
    }

    // The header and padding of the GET_VALUES reply, and its output.
    method SendBody(response: array<byte>, end: nat, ghost names: seq<seq<byte>>)
      requires response.Length == 64 && HEADER_LEN <= end < 64 && ReplyDefined(names)
      requires response[HEADER_LEN..end] == ValueReplies(names)
      requires (forall j :: end <= j < 64 ==> response[j] == 0) && conn.Logged()
      modifies response, conn`sent, conn`log
      ensures conn.sent == old(conn.sent) + GetValuesReply(names) && Answered()
    {
      hide ValueReplies, ReplyDefined;
      var len := end - HEADER_LEN;
      var paddedLen := AlignInt8(len);
      Store(response, 0, MakeHeader(GET_VALUES_RESULT, NULL_REQUEST_ID, len, paddedLen - len));
      assert response[..HEADER_LEN] == MakeHeader(GET_VALUES_RESULT, NULL_REQUEST_ID, len, paddedLen - len);
      assert response[HEADER_LEN..end] == ValueReplies(names);
      assert response[end..HEADER_LEN + paddedLen] == Zeros(paddedLen - len);
      assert response[..HEADER_LEN + paddedLen] == GetValuesReply(names);
      ghost var r: Record := Record(GET_VALUES_RESULT, NULL_REQUEST_ID, ValueReplies(names), Zeros(paddedLen - len));
      assert Encode(r) == GetValuesReply(names);
      SendReply(response, HEADER_LEN + paddedLen, r);
    }

    // The call of fillBuffProc from GetChar and GetStr.
    method NextFragment()
      requires Valid() && !isClosed && rdNext == stop
      requires (eorStop || req.isBeginProcessed) && Yields(Total(), 1)
      requires conn.Logged()
      modifies this, buff, conn, req
      ensures Answered()
      ensures Valid() && rtype == old(rtype) && eorStop == old(eorStop) && unchanged(req)
      ensures Total() == old(Total()) && (isClosed || stopUnget == rdNext < stop)
      ensures !isClosed ==> errno == old(errno)
      ensures old(eorStop && !skip) && !isClosed ==>
                Advanced(old(Unread(rdNext)), old(contentLen), old(paddingLen))
      decreases !eorStop, 1
    {
      hide Future;
      assert !Total().end.Begin?;
      FillBuff();
      if !isClosed {
        stopUnget := rdNext;
      }
    }

    // Taking n bytes that are in the buffer.
    method Take(n: nat) returns (str: seq<byte>)
      requires Valid() && !isClosed && 0 < n <= stop - rdNext
      modifies this`rdNext
      ensures Valid() && rdNext == old(rdNext) + n
      ensures var o := old(Total());
              |str| == n && n <= |o.data| && str == o.data[..n] && Total() == o.Without(n) && Given(o, n)
      ensures Unread(rdNext) == old(Unread(rdNext))[n..]
    {
      hide Future;
      ghost var o, f := Total(), Future(Ctx(), Where(), Unread(stop));
      UnreadFrom(rdNext, n);
      str := buff[rdNext..rdNext + n];
      ghost var rest := buff[rdNext + n..stop];
      assert buff[rdNext..stop] == str + rest;
      BehindCut(f, str, rest);
      rdNext := rdNext + n;
      assert View() == f.Behind(rest);
    }

    // The first bytes of a stream: when they have been taken, the replies behind the last
    // one of them are still to come.
    static lemma BehindCut(f: Outcome, a: seq<byte>, b: seq<byte>)
      ensures var o := f.Behind(a + b);
              && o.data[..|a|] == a && o.Without(|a|) == f.Behind(b)
              && (a != [] ==> |a| <= |o.late| && o.late[|a| - 1] == |f.replies|)
    {
      BehindTwice(f, a, b);
      assert f.Behind(a + b).late == Same(|a|, |f.replies|) + f.Behind(b).late;
      assert f.Behind(a + b).data == a + f.Behind(b).data;
    }

    // The client has just been given the first n bytes of a stream whose future was o.
    ghost predicate Given(o: Outcome, n: nat)
      requires Valid()
      reads this, buff, conn`input, req`requestId, req`isBeginProcessed
    {
      0 < n <= |o.late| && |View().replies| == o.late[n - 1]
    }

    // FCGX_GetChar
    method GetChar() returns (c: int)
      requires Valid() && (eorStop || req.isBeginProcessed)
      requires Yields(Total(), 1)
      requires conn.Logged()
      modifies this, buff, conn, req
      ensures Answered()
      ensures conn.sent == old(conn.sent) + EncodeAll(Entered(old(conn.log), conn.log))
      ensures Valid() && rtype == old(rtype) && eorStop == old(eorStop) && unchanged(req)
      ensures var o := old(Total());
              if o.data == [] then c == -1 && isClosed && Total() == o
              else c == o.data[0] && !isClosed && Total() == o.Without(1)
      ensures Prompt(old(View()), if c == -1 then 0 else 1, View())
      ensures c != -1 && old(Limited()) ==> stopUnget < rdNext
      decreases !eorStop, 2
    {
      hide Future, EncodeAll, OnlyReplies;
      NoReply(conn.log);
      EnteredBytes(conn.log, conn.log);
      if isClosed {
        return -1;
      }
      if rdNext == stop {
        NextFragment();
        EnteredBytes(old(conn.log), conn.log);
        if isClosed {
          return -1;
        }
      }
      var str := Take(1);
      return str[0];
    }

    // FCGX_GetStr: up to n bytes; fewer only at the end of the stream.
    method GetStr(n: int) returns (str: seq<byte>)
      requires Valid() && (eorStop || req.isBeginProcessed)
      requires Yields(Total(), n)
      requires conn.Logged()
      modifies this, buff, conn, req
      ensures Answered()
      ensures conn.sent == old(conn.sent) + EncodeAll(Entered(old(conn.log), conn.log))
      ensures Valid() && rtype == old(rtype) && eorStop == old(eorStop) && unchanged(req)
      ensures var o := old(Total());
              var k := Max(0, Min(n, |o.data|));
              str == o.data[..k] && Total() == o.Without(k)
      ensures Prompt(old(View()), |str|, View())
      ensures |str| < n ==> isClosed
      ensures !isClosed ==> errno == old(errno)
      ensures 0 < n == |str| ==> !isClosed
      ensures str != [] && !isClosed && old(Limited()) ==> stopUnget < rdNext
      ensures old(eorStop && !skip && !isClosed) && !isClosed ==>
                && |str| <= old(|Unread(rdNext)|)
                && Advanced(old(Unread(rdNext))[|str|..], old(contentLen + (stop - rdNext)) - |str|, old(paddingLen))
      decreases !eorStop, 3
    {
      hide Future, EncodeAll, OnlyReplies;
      NoReply(conn.log);
      EnteredBytes(conn.log, conn.log);
      if isClosed || n <= 0 {
        return [];
      }
      if n <= stop - rdNext {
        str := Take(n);
        return;
      }
      str := GatherStr(n);
      EnteredBytes(old(conn.log), conn.log);
      assert Total() == old(Total()).Without(|str|);
    }

    // The general case of GetStr.
    method GatherStr(n: nat) returns (str: seq<byte>)
      requires Valid() && !isClosed && 0 < n && (eorStop || req.isBeginProcessed)
      requires Yields(Total(), n)
      requires conn.Logged()
      modifies this, buff, conn, req
      ensures Answered()
      ensures Valid() && rtype == old(rtype) && eorStop == old(eorStop) && unchanged(req)
      ensures Served(old(Total()), str)
      ensures if isClosed then |str| < n && |str| == old(|Total().data|) else |str| == n && errno == old(errno)
      ensures !isClosed ==> Given(old(Total()), n)
      ensures !isClosed && old(Limited()) ==> stopUnget < rdNext
      ensures old(eorStop && !skip) && !isClosed ==>
                && |str| <= old(|Unread(rdNext)|)
                && Advanced(old(Unread(rdNext))[|str|..], old(contentLen + (stop - rdNext)) - |str|, old(paddingLen))
      decreases !eorStop, 2
    {
      hide Future, View, Total, OnlyReplies, EncodeAll;
      NoReply(conn.log);
      ghost var o := Total();
      ghost var s, left, padding := Unread(rdNext), contentLen + (stop - rdNext), paddingLen;
      str := [];
      assert s[0..] == s && o.data[0..] == o.data;
      while true
        invariant Answered()
        invariant Valid() && !isClosed && rtype == old(rtype) && eorStop == old(eorStop) && unchanged(req)
        invariant |str| < n && Served(o, str) && errno == old(errno) && (old(Limited()) ==> Limited())
        invariant old(eorStop && !skip) ==> |str| <= |s| && Advanced(s[|str|..], left - |str|, padding)
        decreases n - |str|, if rdNext == stop then 1 else 0
      {
        if rdNext != stop {
          str := TakeMore(str, n, o, s);
          if |str| == n {
            return;
          }
        }
        ghost var log := conn.log;
        NextFragment();
        OnlyRepliesTwice(old(conn.log), log, conn.log);
        if isClosed {
          ClosedTotal();
          return;
        }
      }
    }

    // str has been taken from a stream whose future was o.
    ghost predicate Served(o: Outcome, str: seq<byte>)
      reads this, buff, conn, req
    {
      Valid() && |str| <= |o.data| && str == o.data[..|str|] && Total() == o.Without(|str|)
    }

    // One memcpy of GetStr.
    method TakeMore(str: seq<byte>, n: nat, ghost o: Outcome, ghost s: seq<byte>) returns (longer: seq<byte>)
      requires Valid() && !isClosed && rdNext < stop && |str| < n && Served(o, str)
      modifies this`rdNext
      ensures Valid() && |str| < |longer| <= n && (|longer| < n ==> rdNext == stop) && Served(o, longer)
      ensures Given(o, |longer|)
      ensures rdNext == old(rdNext) + |longer| - |str|
      ensures |str| <= |s| && old(Unread(rdNext)) == s[|str|..] ==> |longer| <= |s| && Unread(rdNext) == s[|longer|..]
    {
      hide Future, View, Total;
      var m := Min(n - |str|, stop - rdNext);
      var more := Take(m);
      longer := str + more;
      assert o.data[|str|..][..m] == o.data[|str|..|str| + m];
      assert o.data[|str|..][m..] == o.data[|longer|..];
      if |str| <= |s| && old(Unread(rdNext)) == s[|str|..] {
        assert s[|str|..][m..] == s[|longer|..];
      }
    }

    // The stream's future is o, except that only data is left of its bytes.
    ghost predicate At(o: Outcome, data: seq<byte>)
      reads this, buff, conn, req
    {
      Valid() && Total() == o.(data := data, late := Total().late)
    }

    // The other three bytes of a length field that begins with c; -1 at the end of input.
    method ReadLengthRest(c: byte) returns (len: int)
      requires Valid() && !isClosed && (eorStop || req.isBeginProcessed)
      requires !Total().end.Undefined?
      requires conn.Logged()
      modifies this, buff, conn, req
      ensures Answered()
      ensures rtype == old(rtype) && eorStop == old(eorStop) && unchanged(req)
      ensures match ReadLength([c] + old(Total()).data)
              case Some((n, rest)) => len == n && At(old(Total()), rest)
              case None => len == -1 && At(old(Total()), []) && isClosed
      decreases !eorStop, 4
    {
      hide Future, View, Total;
      ghost var d := Total().data;
      assert ([c] + d)[1..] == d;
      if c < 128 {
        return c;
      }
      var b := GetStr(3);
      if |b| != 3 {
        return -1;
      }
      assert ([c] + d)[4..] == d[3..];
      len := LongLength(c, b[0], b[1], b[2]);
    }

    // A length field: END_OF_DATA when there is none, -1 when it is incomplete.
    method ReadLengthField() returns (len: int)
      requires Valid() && (eorStop || req.isBeginProcessed)
      requires !Total().end.Undefined?
      requires conn.Logged()
      modifies this, buff, conn, req
      ensures Answered()
      ensures rtype == old(rtype) && eorStop == old(eorStop) && unchanged(req)
      ensures match ReadLength(old(Total()).data)
              case Some((n, rest)) => len == n && At(old(Total()), rest)
              case None =>
                && len == (if old(Total()).data == [] then END_OF_DATA else -1)
                && At(old(Total()), []) && isClosed
      decreases !eorStop, 5
    {
      hide Future, View, Total, OnlyReplies, EncodeAll;
      ghost var d := Total().data;
      var c := GetChar();
      if c == -1 {
        return END_OF_DATA;
      }
      assert [d[0]] + d[1..] == d;
      ghost var log := conn.log;
      len := ReadLengthRest(c);
      OnlyRepliesTwice(old(conn.log), log, conn.log);
    }

    // GetStr in ReadParams, where too few bytes mean an incomplete pair.
    method GetExactly(n: nat, ghost o: Outcome) returns (str: seq<byte>)
      requires Valid() && (eorStop || req.isBeginProcessed)
      requires !Total().end.Undefined? && At(o, Total().data)
      requires conn.Logged()
      modifies this, buff, conn, req
      ensures Answered()
      ensures Valid() && rtype == old(rtype) && eorStop == old(eorStop) && unchanged(req)
      ensures !Total().end.Undefined?
      ensures var d := old(Total()).data;
              if |d| < n then |str| < n && At(o, []) && isClosed
              else str == d[..n] && Total().data == d[n..] && At(o, d[n..])
      decreases !eorStop, 4
    {
      hide Future, View, Total;
      str := GetStr(n);
    }

    static lemma NameValueCut(d: seq<byte>, n: nat, v: nat)
      requires n <= |d|
      ensures n + v <= |d| ==> d[n..][..v] == d[n..n + v] && d[n..][v..] == d[n + v..]
    {
    }

    // A name and a value of known lengths, as one name=value string.
    method ReadNameValue(nameLen: nat, valueLen: nat) returns (r: Option<seq<byte>>)
      requires Valid() && (eorStop || req.isBeginProcessed)
      requires !Total().end.Undefined?
      requires conn.Logged()
      modifies this, buff, conn, req
      ensures Answered()
      ensures rtype == old(rtype) && eorStop == old(eorStop) && unchanged(req)
      ensures var d := old(Total()).data;
              if |d| < nameLen + valueLen then r == None && At(old(Total()), []) && isClosed
              else r == Some(d[..nameLen] + [EQUALS] + d[nameLen..nameLen + valueLen])
                   && At(old(Total()), d[nameLen + valueLen..])
      decreases !eorStop, 5
    {
      hide Future, View, Total, OnlyReplies, EncodeAll;
      ghost var o := Total();
      var name := GetExactly(nameLen, o);
      if |name| != nameLen {
        return None;
      }
      NameValueCut(o.data, nameLen, valueLen);
      ghost var log := conn.log;
      var value := GetExactly(valueLen, o);
      OnlyRepliesTwice(old(conn.log), log, conn.log);
      if |value| != valueLen {
        return None;
      }
      return Some(name + [EQUALS] + value);
    }

    // The body of ReadParams' loop: 1 for a pair read, 0 at the end of the stream, -1
    // for an incomplete pair.
    method ReadParam(params: Params) returns (r: int)
      requires Valid() && (eorStop || req.isBeginProcessed) && params.Valid()
      requires !Total().end.Undefined?
      requires conn.Logged()
      modifies this, buff, conn, req, params, params.vec
      ensures Answered()
      ensures rtype == old(rtype) && eorStop == old(eorStop) && unchanged(req)
      ensures params.Valid() && (params.vec == old(params.vec) || fresh(params.vec))
      ensures var d := old(Total()).data;
              if d == [] || ReadPair(d) == None then
                && r == (if d == [] then 0 else -1)
                && isClosed && At(old(Total()), []) && params.List() == old(params.List())
              else
                var (entry, rest) := ReadPair(d).value;
                r == 1 && At(old(Total()), rest) && params.List() == old(params.List()) + [entry]
      decreases !eorStop, 6
    {
      hide Future, View, Total, ReadLength, OnlyReplies, EncodeAll;
      var nameLen := ReadLengthField();
      if nameLen < 0 {
        return if nameLen == END_OF_DATA then 0 else -1;
      }
      ghost var log := conn.log;
      var valueLen := ReadLengthField();
      OnlyRepliesTwice(old(conn.log), log, conn.log);
      if valueLen < 0 {
        return -1;
      }
      log := conn.log;
      var nameValue := ReadNameValue(nameLen, valueLen);
      OnlyRepliesTwice(old(conn.log), log, conn.log);
      if nameValue == None {
        return -1;
      }
      params.Put(nameValue.value);
      return 1;
    }

    // ReadParams
    method ReadParams(params: Params) returns (result: int)
      requires Valid() && (eorStop || req.isBeginProcessed) && params.Valid()
      requires !Total().end.Undefined?
      requires conn.Logged()
      modifies this, buff, conn, req, params, params.vec
      ensures Answered()
      ensures Valid() && rtype == old(rtype) && eorStop == old(eorStop) && unchanged(req)
      ensures params.Valid() && (params.vec == old(params.vec) || fresh(params.vec))
      ensures var o := old(Total());
              var pairs := ReadPairs(o.data);
              && params.List() == old(params.List()) + pairs.list
              && result == (if pairs.ok then 0 else -1)
              && isClosed
              && Total() == Outcome([], o.replies,
                                    if pairs.ok || o.end.Fail? then o.end else Fail(PARAMS_ERROR))
      decreases !eorStop, 7
    {
      hide Future, View, Total, ReadPair, ReadPairs, OnlyReplies;
      ghost var o, had, got := Total(), params.List(), [];
      NoReply(conn.log);
      assert [] + ReadPairs(o.data).list == ReadPairs(o.data).list;
      result := 1;
      while result == 1
        invariant Valid() && At(o, Total().data) && params.Valid() && Answered()
        invariant rtype == old(rtype) && eorStop == old(eorStop) && unchanged(req)
        invariant params.vec == old(params.vec) || fresh(params.vec)
        invariant params.List() == had + got
        invariant Parsed(o.data, got, Total().data, result)
        invariant result == 1 || ((result == 0 || result == -1) && isClosed && Total().data == [])
        decreases result == 1, |Total().data|
      {
        ParsedStep(o.data, got, Total().data);
        ghost var d, log := Total().data, conn.log;
        result := ReadParam(params);
        OnlyRepliesTwice(old(conn.log), log, conn.log);
        if result == 1 {
          got := got + [ReadPair(d).value.0];
        }
      }
      ClosedTotal();
      if result == -1 {
        SetError(PARAMS_ERROR);
        ClosedTotal();
      }
    }

    // ReadPairs(d) is got, then the pairs of rest; result says how far ReadParams has come.
    static ghost predicate Parsed(d: seq<byte>, got: seq<seq<byte>>, rest: seq<byte>, result: int) {
      var all := ReadPairs(d);
      if result == 1 then
        all == var more := ReadPairs(rest); ParamList(got + more.list, more.ok)
      else
        all == ParamList(got, result == 0)
    }

    static lemma ParsedStep(d: seq<byte>, got: seq<seq<byte>>, rest: seq<byte>)
      requires Parsed(d, got, rest, 1)
      ensures if rest == [] then Parsed(d, got, [], 0)
              else if ReadPair(rest) == None then Parsed(d, got, [], -1)
              else var (entry, more) := ReadPair(rest).value; Parsed(d, got + [entry], more, 1)
    {
      hide ReadPair;
      assert got + [] == got;
      if rest != [] && ReadPair(rest).Some? {
        var (entry, more) := ReadPair(rest).value;
        assert got + ([entry] + ReadPairs(more).list) == got + [entry] + ReadPairs(more).list;
      }
    }

    lemma ClosedTotal()
      requires Valid() && isClosed
      ensures Total()
           == Outcome([], conn.sent, if errno == 0 then Eof(skip, paddingLen, Unread(rdNext)) else Fail(errno))
    {
    }

    // FCGX_UnGetChar. Only a limit left over from before SetType lets the C code write
    // before the buffer.
    method UnGetChar(c: int) returns (r: int)
      requires Valid() && (c == -1 || isClosed || rdNext == stopUnget || rdNext > 0)
      modifies this`rdNext, buff
      ensures Valid() && (old(stopUnget <= rdNext) ==> stopUnget <= rdNext)
      ensures r == if c == -1 || isClosed || old(rdNext) == stopUnget then -1 else c
      ensures var o := old(Total());
              Total() == if r == -1 then o
                         else Outcome([LowByte(c)] + o.data, o.replies, o.end, [|View().replies|] + o.late)
    {
      hide Future;
      if c == -1 || isClosed || rdNext == stopUnget {
        return -1;
      }
      hide Outcome.Behind;
      ghost var f := Future(Ctx(), Where(), Unread(stop));
      ghost var rest := buff[rdNext..stop];
      rdNext := rdNext - 1;
      buff[rdNext] := LowByte(c);
      assert buff[rdNext..stop] == [LowByte(c)] + rest;
      PushedBack(f, LowByte(c), rest);
      assert View() == f.Behind([LowByte(c)] + rest);
      return c;
    }

    static lemma PushedBack(f: Outcome, b: byte, rest: seq<byte>)
      ensures var o := f.Behind(rest);
              f.Behind([b] + rest) == Outcome([b] + o.data, o.replies, o.end, [|f.replies|] + o.late)
    {
      BehindTwice(f, [b], rest);
      assert Same(1, |f.replies|) == [|f.replies|];
    }

    // Delivery of content that is in the buffer.
    method Deliver(count: nat, ghost o: Outcome)
      requires Buffered() && !isClosed && !skip
      requires 0 < count <= contentLen && count <= buffStop - rdNext
      requires Pending([]) == o
      modifies this`contentLen, this`stop
      ensures !isClosed && Filled(o, errno)
      ensures contentLen == old(contentLen) - count && stop == rdNext + count
    {
      hide Future;
      ghost var s := Unread(rdNext);
      assert [] + s == s;
      Scan.Deliver(Ctx(), Where(), s, count);
      UnreadFrom(rdNext, count);
      contentLen := contentLen - count;
      stop := rdNext + count;
    }

    // Content that is not wanted and padding, as far as they have arrived; more says
    // whether some of them is still to come.
    method DropSkipped() returns (more: bool, ghost k: nat)
      requires Buffered() && rdNext < buffStop
      requires contentLen == 0 || skip
      modifies this`rdNext, this`contentLen, this`paddingLen, this`skip
      ensures Buffered() && (!more ==> contentLen == 0 && paddingLen == 0)
      ensures k == rdNext - old(rdNext) <= old(contentLen + paddingLen)
      ensures more == (k < old(contentLen + paddingLen))
      ensures more ==> k > 0
      ensures Where() == Drop(old(Where()), k)
    {
      var start := rdNext;
      more := false;
      if contentLen > 0 {
        var count := Min(contentLen, buffStop - rdNext);
        contentLen := contentLen - count;
        rdNext := rdNext + count;
        if contentLen > 0 {
          more := true;
        } else {
          skip := false;
        }
      }
      if !more && paddingLen > 0 {
        var count := Min(paddingLen, buffStop - rdNext);
        paddingLen := paddingLen - count;
        rdNext := rdNext + count;
        more := paddingLen > 0;
      }
      k := rdNext - start;
    }
  }
}
