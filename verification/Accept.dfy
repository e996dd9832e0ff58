/** A request from its first byte to its last: FCGX_Accept_r, FCGX_Finish_r, FCGX_Free
    and FCGX_StartFilterData over the reader and the two writers. */
module Accept {
  import opened Protocol
  import opened Pairs
  import opened Scan
  import opened Delivery
  import opened Connection
  import opened Reader
  import opened Writer
  import opened Output
  import opened RoundTrip
  import opened Environment
  import Framing

  // "FCGI_ROLE="
  const ROLE_PREFIX: seq<byte> := [70, 67, 71, 73, 95, 82, 79, 76, 69, 61]
  const ROLE_RESPONDER: seq<byte> := ROLE_PREFIX + [82, 69, 83, 80, 79, 78, 68, 69, 82]
  const ROLE_AUTHORIZER: seq<byte> := ROLE_PREFIX + [65, 85, 84, 72, 79, 82, 73, 90, 69, 82]
  const ROLE_FILTER: seq<byte> := ROLE_PREFIX + [70, 73, 76, 84, 69, 82]

  function RoleEntry(role: nat): Option<seq<byte>> {
    if role == RESPONDER then Some(ROLE_RESPONDER)
    else if role == AUTHORIZER then Some(ROLE_AUTHORIZER)
    else if role == FILTER then Some(ROLE_FILTER)
    else None
  }

  /** What a connection's input holds for Accept_r; stale is the request id left from
      an earlier request. */
  datatype Offer =
    | Rejected
    | Offered(body: BeginBody, params: seq<seq<byte>>, end: End, replies: seq<byte>)

  function Examine(stale: nat, input: seq<byte>): (r: Offer)
    ensures r.Offered? ==> RoleEntry(r.body.role).Some?
  {
    var first := ScanStream(Context(false, 0, stale, false, 0), START, input);
    if first.data != [] || !first.end.Begin? || RoleEntry(first.end.body.role) == None then Rejected
    else
      var c := Context(false, PARAMS, first.end.body.requestId, true, 0);
      var second := ScanStream(c, START, first.end.rest);
      var params := ReadPairs(second.data);
      if !params.ok then Rejected
      else Offered(first.end.body, [RoleEntry(first.end.body.role).value] + params.list,
                   second.end, first.replies + second.replies)
  }

  // The C code's behaviour is defined on the part of a connection's input that Accept_r
  // reads: no GET_VALUES overruns its reply buffer.
  predicate Defined(stale: nat, input: seq<byte>) {
    var first := ScanStream(Context(false, 0, stale, false, 0), START, input);
    && Yields(first, 1)
    && (first.data == [] && first.end.Begin? && RoleEntry(first.end.body.role).Some? ==>
          !ScanStream(Context(false, PARAMS, first.end.body.requestId, true, 0), START, first.end.rest).end.Undefined?)
  }

  // A connection tried: the request id left over, and its input.
  datatype Tried = Tried(stale: nat, input: seq<byte>)

  // next is the request id at the next connection, after t has been rejected: the one of
  // its request, when a request began.
  predicate Follows(t: Tried, next: nat) {
    var first := ScanStream(Context(false, 0, t.stale, false, 0), START, t.input);
    first.data == [] && first.end.Begin? ==> next == first.end.body.requestId
  }

  // The request ids left over, from the first connection tried to the next one.
  predicate Chained(first: nat, rejected: seq<Tried>, next: nat) {
    if rejected == [] then next == first
    else
      && rejected[0].stale == first
      && Follows(rejected[|rejected| - 1], next)
      && forall i :: 0 < i < |rejected| ==> Follows(rejected[i - 1], rejected[i].stale)
  }

  function Inputs(attempts: seq<Tried>): (r: seq<seq<byte>>)
    ensures |r| == |attempts|
  {
    seq(|attempts|, i requires 0 <= i < |attempts| => attempts[i].input)
  }

  function Owned(rs: seq<Record>): (log: seq<Sending>)
    ensures |log| == |rs|
  {
    seq(|rs|, i requires 0 <= i < |rs| => Own(rs[i]))
  }

  lemma OwnedRecords(rs: seq<Record>)
    ensures Records(Owned(rs)) == rs
  {
  }

  // What FCGX_Finish_r does with the output streams: the error stream is closed first.
  const CLOSING: seq<Call> := [Close(Err), Close(Out)]

  class FcgxRequest {
    const shared: Request
    var conn: Connection?
    var input: Reader?
    var out: Writer?
    var err: Writer?
    var params: Params?
    var backlog: seq<seq<byte>>   // what the connections still to be accepted will deliver

    ghost predicate Idle()
      reads this
    {
      input == null && out == null && err == null && params == null
    }

    ghost predicate Serving()
      reads this, conn, input, out, err, params, if params == null then {} else {params.vec}, shared
    {
      && conn != null && input != null && params != null && out != null && err != null
      && input.req == shared && input.conn == conn
      && input.buff != out.buff && input.buff != err.buff
      && input.Valid() && params.Valid() && Writing()
    }

    constructor (backlog: seq<seq<byte>>)
      ensures Idle() && conn == null && this.backlog == backlog && fresh(shared)
    {
      shared := new Request();
      conn, input, out, err, params := null, null, null, null, null;
      this.backlog := backlog;
    }

    // FCGX_Free
    method Free(close: bool)
      modifies this`conn, this`input, this`out, this`err, this`params
      ensures Idle() && conn == if close then null else old(conn)
    {
      input, out, err, params := null, null, null, null;
      if close {
        conn := null;
      }
    }

    // The request offered by e is being served; before had been sent when it was accepted.
    ghost predicate Accepted(e: Offer, before: seq<byte>)
      reads this, conn, input, out, err, params, if params == null then {} else {params.vec}, shared
      reads if out == null then {} else {out.buff}, if err == null then {} else {err.buff}
      reads if input == null then {} else {input.buff}
    {
      && e.Offered? && Serving()
      && params.List() == e.params
      && e.body == BeginBody(shared.requestId, shared.role, shared.keepConnection) && shared.isBeginProcessed
      && conn.sent == before + e.replies && conn.Logged()
      && input.rtype == STDIN && input.Where() == START && !input.eorStop
      && !input.isClosed && input.rdNext == input.stop
      && (if input.errno == 0 then e.end.Eof? && input.Unread(input.stop) == e.end.rest else e.end == Fail(input.errno))
      && Started() && Sized()
    }

    // The output side is in its initial state, so its invariant holds.
    ghost predicate Started()
      requires Writing()
      reads this, shared, out, err
      reads if out == null then {} else {out.buff}, if err == null then {} else {err.buff}
    {
      && OutputState() == Start(shared.requestId, out.buff.Length - HEADER_LEN, err.buff.Length - HEADER_LEN,
                                shared.appStatus)
      && Inv(OutputState())
    }

    // The buffers have the sizes asked for, less 8 bytes where malloc did not align them.
    ghost predicate Sized()
      reads this
    {
      && out != null && err != null
      && (out.buff.Length == 8192 || out.buff.Length == 8184)
      && (err.buff.Length == 512 || err.buff.Length == 504)
    }

    // FCGX_Accept_r, when no request is being served. The connections are tried in order;
    // rejected are those before the accepted one, each with the request id left over when
    // it was tried. Result 0 says that a request has been accepted, on a connection whose
    // input was offered and with stale as the old request id; -1 says that none was left.
    // On a new connection nothing has been sent but the replies.
    method Accept()
      returns (result: int, ghost stale: nat, ghost offered: seq<byte>, ghost before: seq<byte>,
               ghost rejected: seq<Tried>)
      requires Idle()
      requires forall s, q :: q in backlog ==> Defined(s, q)
      requires conn != null ==> Defined(shared.requestId, conn.input) && conn.Logged()
      modifies this, shared, conn
      ensures result == 0 || result == -1
      ensures forall a :: a in rejected ==> Examine(a.stale, a.input).Rejected?
      ensures result == -1 ==> Idle() && conn == null && backlog == [] && Inputs(rejected) == old(Queue())
      ensures result == 0 ==> Accepted(Examine(stale, offered), before)
      ensures result == 0 ==> conn != null && before == if conn == old(conn) then old(conn.sent) else []
      ensures Chained(old(shared.requestId), rejected, if result == 0 then stale else shared.requestId)
      ensures result == 0 ==> Inputs(rejected) + [offered] + backlog == old(Queue())
    {
      hide Examine, Defined, Accepted, Inputs, Follows;
      stale, offered, before, rejected := 0, [], [], [];
      NothingTried(Queue());
      while true
        invariant Idle()
        invariant forall q :: q in backlog ==> q in old(backlog)
        invariant conn != null ==> conn == old(conn) && unchanged(conn) && unchanged(shared)
        invariant Chained(old(shared.requestId), rejected, shared.requestId)
        invariant Inputs(rejected) + Queue() == old(Queue())
        invariant forall a :: a in rejected ==> Examine(a.stale, a.input).Rejected?
        decreases |backlog|, conn != null
      {
        if conn == null {
          if backlog == [] {
            return -1, stale, offered, before, rejected;
          }
          Connect();
        }
        TriedOne(rejected, Tried(shared.requestId, conn.input), backlog);
        stale, offered, before := shared.requestId, conn.input, conn.sent;
        var ok := TryConnection();
        if ok {
          return 0, stale, offered, before, rejected;
        }
        rejected := rejected + [Tried(stale, offered)];
      }
    }

    // OS_Accept
    method Connect()
      requires conn == null && backlog != []
      modifies this`conn, this`backlog
      ensures conn != null && fresh(conn) && conn.Logged()
      ensures conn.input == old(backlog)[0] && backlog == old(backlog)[1..] && Queue() == old(Queue())
      ensures conn.sent == []
    {
      conn := new Connection(backlog[0]);
      backlog := backlog[1..];
    }

    static lemma NothingTried(queue: seq<seq<byte>>)
      ensures Inputs([]) + queue == queue
    {
    }

    static lemma TriedOne(rejected: seq<Tried>, t: Tried, backlog: seq<seq<byte>>)
      ensures Inputs(rejected + [t]) + ([] + backlog) == Inputs(rejected) + ([t.input] + backlog)
      ensures Inputs(rejected) + [t.input] + backlog == Inputs(rejected) + ([t.input] + backlog)
    {
      assert Inputs(rejected + [t]) == Inputs(rejected) + [t.input];
    }

    // The inputs of the open connection, if there is one, and of those still to come.
    ghost function Queue(): seq<seq<byte>>
      reads this`conn, this`backlog, conn
    {
      (if conn == null then [] else [conn.input]) + backlog
    }

    // One round of Accept_r's loop on an open connection.
    method TryConnection() returns (ok: bool)
      requires Idle() && conn != null && Defined(shared.requestId, conn.input) && conn.Logged()
      modifies this`conn, this`input, this`out, this`err, this`params, shared, conn
      ensures ok <==> old(Examine(shared.requestId, conn.input)).Offered?
      ensures ok ==> Accepted(old(Examine(shared.requestId, conn.input)), old(conn.sent))
      ensures !ok ==> Idle() && conn == null && Follows(old(Tried(shared.requestId, conn.input)), shared.requestId)
      ensures ok ==> conn == old(conn)
    {
      hide Examine, Defined, Follows;
      ok := Attempt();
      if ok {
        Open();
      } else {
        Free(true);
      }
    }

    // The end of Accept_r: the client's streams.
    method Open()
      requires conn != null && input != null && params != null
      requires input.req == shared && input.conn == conn && input.Valid() && params.Valid()
      requires 0 < shared.requestId < 0x10000
      modifies this`out, this`err, input, shared`nWriters
      ensures Serving() && unchanged(conn)
      ensures input.rtype == STDIN && input.Where() == START && !input.eorStop
      ensures !input.isClosed && input.rdNext == input.stop
      ensures input.errno == old(input.errno) && input.Unread(input.stop) == old(input.Unread(input.rdNext))
      ensures Started() && Sized()
    {
      hide Params.Valid;
      input.SetType(STDIN);
      OpenWriters();
    }

    method OpenWriters()
      requires conn != null && 0 < shared.requestId < 0x10000
      modifies this`out, this`err, shared`nWriters
      ensures out != null && err != null && fresh(out) && fresh(out.buff) && fresh(err) && fresh(err.buff)
      ensures Writing()
      ensures Started() && Sized()
    {
      var misaligned: bool, misaligned': bool := *, *;
      out := new Writer(shared, conn, 8192, misaligned, STDOUT);
      err := new Writer(shared, conn, 512, misaligned', STDERR);
      shared.nWriters := 2;
      StartInv(shared.requestId, out.buff.Length - HEADER_LEN, err.buff.Length - HEADER_LEN, shared.appStatus);
    }

    // The two output streams of this request.
    ghost predicate Writing()
      reads this, shared`requestId, out, err
    {
      && conn != null && out != null && err != null && out != err && out.buff != err.buff
      && out.req == shared && err.req == shared && out.conn == conn && err.conn == conn
      && out.Valid() && err.Valid() && out.rtype == STDOUT && err.rtype == STDERR
      && shared.requestId > 0
    }

    // The output side of the request, with nothing sent yet.
    ghost function OutputState(): (m: Output)
      requires Writing()
      reads this, shared, out, err
      reads if out == null then {} else {out.buff}, if err == null then {} else {err.buff}
      ensures m.Ready() && m.log == []
    {
      Output(shared.requestId, [], out.State(), err.State(), shared.nWriters, shared.appStatus)
    }

    // Afterwards the streams are in state r, and the records of r.log have been sent.
    twostate predicate Performed(r: Output)
      reads this, shared, conn, out, err
      reads if out == null then {} else {out.buff}, if err == null then {} else {err.buff}
    {
      && Writing() && old(conn) == conn && OutputState() == r.(log := [])
      && conn.sent == old(conn.sent) + EncodeAll(r.log)
    }

    /** One client call on the output side does what the pure machine does, and the records
        it sends are the request's own ones. */
    method Perform(call: Call)
      requires Writing() && conn.Logged()
      modifies out, err, conn`sent, conn`log, shared`nWriters, shared`appStatus
      modifies out.buff, err.buff
      ensures Performed(Apply(old(OutputState()), call))
      ensures conn.Logged() && conn.log == old(conn.log) + Owned(Apply(old(OutputState()), call).log)
    {
      hide Apply, EncodeAll;
      PerformCall(call);
      OwnedRecords(Apply(old(OutputState()), call).log);
      conn.Enter(Owned(Apply(old(OutputState()), call).log));
    }

    method PerformCall(call: Call)
      requires Writing()
      modifies out, err, conn`sent, shared`nWriters, shared`appStatus
      modifies out.buff, err.buff
      ensures Performed(Apply(old(OutputState()), call))
    {
      hide Apply, EncodeAll;
      match call
      case Put(w, s) => PerformPut(w, s);
      case Flush(w) => PerformFlush(w);
      case Close(w) => PerformClose(w);
      case SetExitStatus(status) => PerformStatus(status);
    }

    method PerformPut(w: Which, s: seq<byte>)
      requires Writing()
      modifies out, err, conn`sent, shared`nWriters, out.buff, err.buff
      ensures Performed(Apply(old(OutputState()), Put(w, s)))
    {
      hide Framing.Put, EncodeAll;
      NothingSent();
      if w == Out {
        var _ := out.PutStr(s);
      } else {
        var _ := err.PutStr(s);
      }
    }

    method PerformFlush(w: Which)
      requires Writing()
      modifies out, err, conn`sent, shared`nWriters, out.buff, err.buff
      ensures Performed(Apply(old(OutputState()), Flush(w)))
    {
      hide Framing.Flush, EncodeAll;
      NothingSent();
      if w == Out {
        var _ := out.FFlush();
      } else {
        var _ := err.FFlush();
      }
    }

    method PerformClose(w: Which)
      requires Writing()
      modifies out, err, conn`sent, shared`nWriters, out.buff, err.buff
      ensures Performed(Apply(old(OutputState()), Close(w)))
    {
      hide Framing.CloseRecords, Framing.Flush, EncodeAll;
      NothingSent();
      if w == Out {
        var _ := out.FClose();
      } else {
        var _ := err.FClose();
      }
    }

    // FCGX_SetExitStatus
    method PerformStatus(status: int)
      requires Writing()
      modifies shared`appStatus
      ensures Performed(Apply(old(OutputState()), SetExitStatus(status)))
    {
      NothingSent();
      shared.appStatus := status;
    }

    lemma NothingSent()
      requires Writing()
      ensures conn.sent + EncodeAll([]) == conn.sent
      ensures forall rs: seq<Record> :: [] + rs == rs
    {
    }

    // FCGX_Finish_r: the connection is closed unless it is to be kept and reading went
    // without error.
    method Finish()
      requires (Idle() || Serving()) && (conn != null ==> conn.Logged())
      modifies this`conn, this`input, this`out, this`err, this`params, out, err, conn, shared`nWriters, shared`appStatus
      modifies if out == null then {} else {out.buff}, if err == null then {} else {err.buff}
      ensures Idle() && (conn != null ==> conn.Logged())
      ensures old(input) == null ==> conn == if shared.keepConnection then old(conn) else null
      ensures old(input) != null ==>
        && old(conn).sent == old(conn.sent) + EncodeAll(Run(old(OutputState()), CLOSING).log)
        && old(conn).log == old(conn.log) + Owned(Run(old(OutputState()), CLOSING).log)
        && old(conn).input == old(conn.input) && old(conn).Logged()
        && conn == if shared.keepConnection && old(input.errno) == 0 then old(conn) else null
    {
      var close := !shared.keepConnection;
      if input != null {
        CloseBoth();
        close := close || input.errno != 0;
      }
      Free(close);
    }

    method CloseBoth()
      requires Writing() && conn.Logged()
      modifies out, err, conn`sent, conn`log, shared`nWriters, shared`appStatus
      modifies out.buff, err.buff
      ensures conn.Logged()
      ensures conn.sent == old(conn.sent) + EncodeAll(Run(old(OutputState()), CLOSING).log)
      ensures conn.log == old(conn.log) + Owned(Run(old(OutputState()), CLOSING).log)
    {
      hide Apply, Run, EncodeAll, Owned;
      ghost var m, sent, log := OutputState(), conn.sent, conn.log;
      CloseRun(m);
      Perform(Close(Err));
      Perform(Close(Out));
      ghost var e := Apply(m, Close(Err));
      ghost var f := Apply(e.(log := []), Close(Out));
      ConcatAssociates(sent, EncodeAll(e.log), EncodeAll(f.log));
      ConcatAssociates(log, Owned(e.log), Owned(f.log));
    }

    static lemma CloseRun(m: Output)
      requires m.Ready()
      ensures var e := Apply(m, Close(Err));
              var f := Apply(e.(log := []), Close(Out));
              && EncodeAll(Run(m, CLOSING).log) == EncodeAll(e.log) + EncodeAll(f.log)
              && Owned(Run(m, CLOSING).log) == Owned(e.log) + Owned(f.log)
    {
      hide Apply, EncodeAll;
      var e := Apply(m, Close(Err));
      assert CLOSING[1..] == [Close(Out)] && [Close(Out)][1..] == [];
      assert Run(e, [Close(Out)]) == Apply(e, Close(Out));
      var f := Apply(e.(log := []), Close(Out)).log;
      EncodeAllConcat(e.log, f);
      ApplyBehind(e, Close(Out));
    }

    // Accept_r from the new reader to the end of the parameters.
    method Attempt() returns (ok: bool)
      requires Idle() && conn != null && Defined(shared.requestId, conn.input) && conn.Logged()
      modifies this`input, this`params, shared, conn
      ensures conn.Logged() && conn == old(conn) && out == null && err == null
      ensures ok <==> old(Examine(shared.requestId, conn.input)).Offered?
      ensures Follows(old(Tried(shared.requestId, conn.input)), shared.requestId)
      ensures ok ==>
        && var e := old(Examine(shared.requestId, conn.input));
        && input != null && fresh(input) && fresh(input.buff) && input.req == shared && input.conn == conn
        && input.Valid() && input.isClosed
        && params != null && fresh(params) && fresh(params.vec) && params.Valid() && params.List() == e.params
        && shared.isBeginProcessed && e.body == BeginBody(shared.requestId, shared.role, shared.keepConnection)
        && 0 < shared.requestId < 0x10000
        && conn.sent == old(conn.sent) + e.replies
        && (if input.errno == 0 then e.end.Eof? && input.Unread(input.rdNext) == e.end.rest
            else e.end == Fail(input.errno))
    {
      hide ScanStream, ReadPairs;
      ghost var stale, s := shared.requestId, conn.input;
      ok := Begin();
      if !ok {
        return;
      }
      ok := ReadEnvironment();
    }

    // Up to the BEGIN_REQUEST record.
    method Begin() returns (ok: bool)
      requires conn != null && Defined(shared.requestId, conn.input) && conn.Logged()
      modifies this`input, shared, conn
      ensures conn.Logged()
      ensures var first := ScanStream(Context(false, 0, old(shared.requestId), false, 0), START, old(conn.input));
              && ok == (first.data == [] && first.end.Begin?)
              && (ok ==>
                && input != null && fresh(input) && fresh(input.buff) && input.req == shared && input.conn == conn
                && input.Valid() && input.errno == 0 && (input.buff.Length == 8192 || input.buff.Length == 8184)
                && input.rdNext == input.stop && input.Unread(input.stop) == first.end.rest
                && shared.isBeginProcessed && 0 < shared.requestId < 0x10000
                && first.end.body == BeginBody(shared.requestId, shared.role, shared.keepConnection)
                && conn.sent == old(conn.sent) + first.replies)
    {
      hide ScanStream, Future;
      shared.isBeginProcessed := false;
      var misaligned: bool := *;
      input := new Reader(shared, conn, 8192, misaligned, 0);
      ghost var first := ScanStream(Context(false, 0, shared.requestId, false, 0), START, conn.input);
      FirstFuture(input, first);
      input.FillBuff();
      return shared.isBeginProcessed;
    }

    // The future of the parameters in unread input s.
    ghost function ParamsAhead(s: seq<byte>): Outcome
      reads shared`requestId
    {
      ScanStream(Context(false, PARAMS, shared.requestId, true, 0), START, s)
    }

    // From there to the end of the parameters.
    method ReadEnvironment() returns (ok: bool)
      requires conn != null && input != null && input.req == shared && input.conn == conn
      requires input.Valid() && input.errno == 0 && shared.isBeginProcessed && conn.Logged()
      requires RoleEntry(shared.role).Some? ==> !ParamsAhead(input.Unread(input.rdNext)).end.Undefined?
      modifies this`params, input, input.buff, shared, conn
      ensures unchanged(shared) && input.Valid() && conn.Logged()
      ensures var second := ParamsAhead(old(input.Unread(input.rdNext)));
              var pairs := ReadPairs(second.data);
              && ok == (RoleEntry(shared.role).Some? && pairs.ok)
              && (ok ==>
                && params != null && fresh(params) && fresh(params.vec) && params.Valid()
                && params.List() == [RoleEntry(shared.role).value] + pairs.list
                && input.isClosed && conn.sent == old(conn.sent) + second.replies
                && (if input.errno == 0 then second.end.Eof? && input.Unread(input.rdNext) == second.end.rest
                    else second.end == Fail(input.errno)))
    {
      hide ScanStream, Future, ReadPairs;
      var role := RoleEntry(shared.role);
      if role == None {
        return false;
      }
      StartParams(role.value);
      FirstFuture(input, ParamsAhead(input.Unread(input.stop)));
      var r := input.ReadParams(params);
      input.ClosedTotal();
      return r >= 0;
    }

    method StartParams(role: seq<byte>)
      requires input != null && input.Valid()
      modifies this`params, input
      ensures params != null && fresh(params) && fresh(params.vec) && params.Valid() && params.List() == [role]
      ensures input.Valid() && input.rtype == PARAMS && input.Where() == START
      ensures !input.eorStop && !input.isClosed && input.rdNext == input.stop && input.errno == old(input.errno)
      ensures input.Unread(input.stop) == old(input.Unread(input.rdNext))
    {
      params := new Params(30);
      params.Put(role);
      input.SetType(PARAMS);
    }

    // Future of a stream at a record boundary with nothing buffered for the client.
    static lemma FirstFuture(input: Reader, o: Outcome)
      requires input.Valid() && !input.isClosed && input.rdNext == input.stop && input.errno == 0
      requires !input.eorStop
      requires o == ScanStream(input.Ctx(), input.Where(), input.Unread(input.stop))
      ensures input.Total() == o.(replies := input.conn.sent + o.replies)
    {
      assert input.buff[input.rdNext..input.stop] == [];
    }

    // FCGX_StartFilterData
    method StartFilterData() returns (r: int)
      requires input != null && input.Valid()
      modifies input
      ensures input.Valid()
      ensures r == if shared.role == FILTER && old(input.isClosed) && old(input.rtype) == STDIN then 0 else -1
      ensures r == 0 ==>
        && input.rtype == DATA && input.Where() == START && !input.isClosed && input.rdNext == input.stop
        && input.errno == old(input.errno) && input.Unread(input.stop) == old(input.Unread(input.rdNext))
      ensures r == -1 ==>
        && input.isClosed && input.errno == (if old(input.errno) == 0 then CALL_SEQ_ERROR else old(input.errno))
        && input.rtype == old(input.rtype) && input.Unread(input.rdNext) == old(input.Unread(input.rdNext))
    {
      if shared.role != FILTER || !input.isClosed || input.rtype != STDIN {
        input.SetError(CALL_SEQ_ERROR);
        return -1;
      }
      input.SetType(DATA);
      return 0;
    }
  }

  // ---- What the offers of a connection are. ----

  function MakeBeginRequestBody(role: int, keepConnection: bool): (b: seq<byte>)
    requires 0 <= role < 0x10000
    ensures |b| == 8
  {
    [role / 256, LowByte(role), if keepConnection then 1 else 0, 0, 0, 0, 0, 0]
  }

  function BeginRecord(id: nat, role: nat, keepConnection: bool): Record
    requires 0 < id < 0x10000 && role < 0x10000
  {
    Record(BEGIN_REQUEST, id, MakeBeginRequestBody(role, keepConnection), [])
  }

  lemma BeginScanned(stale: nat, id: nat, role: nat, keepConnection: bool, t: seq<byte>)
    requires 0 < id < 0x10000 && role < 0x10000
    ensures ScanStream(Context(false, 0, stale, false, 0), START, Encode(BeginRecord(id, role, keepConnection)) + t)
         == Outcome([], [], Begin(BeginBody(id, role, keepConnection), 0, t))
  {
    hide ScanStream, Encode;
    var c, r := Context(false, 0, stale, false, 0), BeginRecord(id, role, keepConnection);
    AtRecord(c, r, t);
    var s := r.content + (r.padding + t);
    assert s[8..] == t && s[..8] == r.content;
    LowBytes(role);
  }

  /** Any body of eight bytes begins a request: the role is its first two bytes in network
      byte order, and the connection is to be kept when the lowest bit of the third is set. */
  lemma AnyBodyBegins(stale: nat, r: Record, t: seq<byte>)
    requires r.rtype == BEGIN_REQUEST && r.id != NULL_REQUEST_ID && |r.content| == 8
    ensures var b := r.content;
            ScanStream(Context(false, 0, stale, false, 0), START, Encode(r) + t)
            == Outcome([], [], Begin(BeginBody(r.id, (b[0] as int) * 256 + b[1] as int, b[2] % 2 == 1), |r.padding|,
                                     r.padding + t))
  {
    hide ScanStream, Encode;
    var c := Context(false, 0, stale, false, 0);
    AtRecord(c, r, t);
    var s := r.content + (r.padding + t);
    assert s[8..] == r.padding + t && s[..8] == r.content;
  }

  /** A request begun by a BEGIN_REQUEST record of a known role is accepted exactly when
      its parameters parse; its environment is the role and then the parameters. */
  lemma OfferedRequest(stale: nat, id: nat, role: nat, keepConnection: bool, t: seq<byte>)
    requires 0 < id < 0x10000 && RoleEntry(role).Some?
    ensures var o := ScanStream(Context(false, PARAMS, id, true, 0), START, t);
            var params := ReadPairs(o.data);
            Examine(stale, Encode(BeginRecord(id, role, keepConnection)) + t) ==
            if params.ok then
              Offered(BeginBody(id, role, keepConnection), [RoleEntry(role).value] + params.list, o.end, o.replies)
            else Rejected
  {
    hide ScanStream, Encode, ReadPairs;
    BeginScanned(stale, id, role, keepConnection, t);
    var o := ScanStream(Context(false, PARAMS, id, true, 0), START, t);
    assert [] + o.replies == o.replies;
  }

  /** A web server may first ask for values, or send what the library does not know: that
      is answered, and the request behind it is accepted as if it came first. */
  lemma ManagementFirst(stale: nat, r: Record, t: seq<byte>)
    requires (IsValuesQuery(r) && r.padding + t != []) || (IsOtherManagement(r) && r.content == [])
    ensures var e := Examine(stale, t);
            Examine(stale, Encode(r) + t) ==
            if e.Offered? then Offered(e.body, e.params, e.end, ReplyTo(r) + e.replies) else Rejected
  {
    hide ScanStream, Encode, ReadPairs, ReplyDefined, GetValuesReply, RoleEntry;
    var c := Context(false, 0, stale, false, 0);
    var first := ScanStream(c, START, t);
    BehindTwice(first, [], []);
    if IsValuesQuery(r) {
      ValuesQueryPasses(c, r, t);
    } else {
      OtherManagementPasses(c, r, t);
    }
    assert ScanStream(c, START, Encode(r) + t) == first.(replies := ReplyTo(r) + first.replies);
    if first.end.Begin? {
      var second := ScanStream(Context(false, PARAMS, first.end.body.requestId, true, 0), START, first.end.rest);
      ConcatAssociates(ReplyTo(r), first.replies, second.replies);
    }
  }

  /** A connection that breaks off in its BEGIN_REQUEST record offers nothing. */
  lemma CutBeginRejected(stale: nat, id: nat, role: nat, keepConnection: bool, k: nat)
    requires 0 < id < 0x10000 && role < 0x10000
    requires k < |Encode(BeginRecord(id, role, keepConnection))|
    ensures Examine(stale, Encode(BeginRecord(id, role, keepConnection))[..k]) == Rejected
  {
    hide Encode, ParseHeader, ReadPairs;
    var c, r := Context(false, 0, stale, false, 0), BeginRecord(id, role, keepConnection);
    var s := Encode(r)[..k];
    assert s[0..] == s;
    if k >= HEADER_LEN {
      EncodeParts(r, []);
      assert Encode(r) + [] == Encode(r);
      assert s[..HEADER_LEN] == Encode(r)[..HEADER_LEN];
    }
    assert ScanStream(c, START, s) == ScanHeader(c, false, s);
  }

  /** FCGX_GetParam of FCGI_ROLE in an accepted request gives the name of the role whose
      number BEGIN_REQUEST carried; there are no others. */
  lemma RoleOffered(stale: nat, input: seq<byte>)
    ensures var e := Examine(stale, input);
            e.Offered? ==>
              && 1 <= e.body.role <= 3
              && Find(e.params, Text("FCGI_ROLE")) == Some(Text(
                   if e.body.role == 1 then "RESPONDER" else if e.body.role == 2 then "AUTHORIZER" else "FILTER"))
  {
    hide ScanStream, ReadPairs, Find;
    var e := Examine(stale, input);
    if e.Offered? {
      var name := if e.body.role == 1 then "RESPONDER" else if e.body.role == 2 then "AUTHORIZER" else "FILTER";
      RoleTexts();
      assert e.params[0] == Text("FCGI_ROLE") + [EQUALS] + Text(name);
      FoundFirst(e.params, Text("FCGI_ROLE"), Text(name));
    }
  }

  lemma RoleTexts()
    ensures ROLE_PREFIX == Text("FCGI_ROLE") + [EQUALS]
    ensures ROLE_RESPONDER == ROLE_PREFIX + Text("RESPONDER")
    ensures ROLE_AUTHORIZER == ROLE_PREFIX + Text("AUTHORIZER")
    ensures ROLE_FILTER == ROLE_PREFIX + Text("FILTER")
  {
  }

  lemma FoundFirst(list: seq<seq<byte>>, name: seq<byte>, value: seq<byte>)
    requires list != [] && list[0] == name + [EQUALS] + value
    ensures Find(list, name) == Some(value)
  {
  }

  /** A request of any other role is rejected, whatever follows. */
  lemma UnknownRoleRejected(stale: nat, id: nat, role: nat, keepConnection: bool, t: seq<byte>)
    requires 0 < id < 0x10000 && role < 0x10000 && !(1 <= role <= 3)
    ensures Examine(stale, Encode(BeginRecord(id, role, keepConnection)) + t) == Rejected
  {
    hide ScanStream, Encode, ReadPairs;
    BeginScanned(stale, id, role, keepConnection, t);
  }

  /** Accept_r does not notice that the connection broke off between two parameters: the
      request is accepted although its parameters never ended. Only the stream's error
      code, which Accept_r does not look at, tells. */
  lemma BrokenOffAccepted(stale: nat, id: nat, keepConnection: bool)
    requires 0 < id < 0x10000
    ensures Examine(stale, Encode(BeginRecord(id, RESPONDER, keepConnection)) + []) ==
            Offered(BeginBody(id, RESPONDER, keepConnection), [ROLE_RESPONDER], Fail(PROTOCOL_ERROR), [])
  {
    hide Encode;
    OfferedRequest(stale, id, RESPONDER, keepConnection, []);
    assert [ROLE_RESPONDER] + [] == [ROLE_RESPONDER];
  }

  /** What the bridge sends before its event loop: BEGIN_REQUEST and the environment. */
  function BridgeOpening(w: Framing.Stream, envp: seq<seq<byte>>): seq<byte>
    requires w.Valid() && !w.closed
    requires forall e :: e in envp ==> Sendable(e)
  {
    Encode(BeginRecord(1, RESPONDER, false)) + EncodeAll(WrittenBy(w, 1, PutsOf(envp)))
  }

  /** From the bridge's environment to the application's: the same strings in the same
      order after the role, and the reader stands at the first byte that follows. */
  lemma BridgeToApplication(stale: nat, w: Framing.Stream, envp: seq<seq<byte>>, more: seq<byte>)
    requires w.Valid() && !w.closed && w.pending == [] && w.rtype == PARAMS
    requires forall e :: e in envp ==> Sendable(e)
    ensures Examine(stale, BridgeOpening(w, envp) + more) ==
            Offered(BeginBody(1, RESPONDER, false), [ROLE_RESPONDER] + envp, Eof(false, 0, more), [])
  {
    hide ScanStream, Encode, EncodeAll, WrittenBy, PutsOf, ReadPairs, Examine;
    var c := Context(false, PARAMS, 1, true, 0);
    var params := EncodeAll(WrittenBy(w, 1, PutsOf(envp)));
    ConcatAssociates(Encode(BeginRecord(1, RESPONDER, false)), params, more);
    OfferedRequest(stale, 1, RESPONDER, false, params + more);
    EnvironmentRoundTrip(c, w, envp, more);
  }
}
