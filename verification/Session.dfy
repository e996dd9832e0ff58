/** What a client does with an accepted request, in any order: reading its input and
    writing both outputs, and what the peer receives meanwhile. */
module Session {
  import opened Protocol
  import opened Pairs
  import opened Scan
  import opened Delivery
  import opened Replies
  import opened Connection
  import opened Output
  import opened Accept
  import opened Reader
  import Framing

  datatype ClientCall =
    | Write(call: Call)
    | ReadChar
    | ReadStr(n: int)

  // The calls on the output side.
  function WritesOf(calls: seq<ClientCall>): seq<Call> {
    if calls == [] then []
    else WritesOf(calls[..|calls| - 1]) + (if calls[|calls| - 1].Write? then [calls[|calls| - 1].call] else [])
  }

  // How many bytes a call asks for.
  function Wanted(call: ClientCall): nat {
    match call
    case Write(_) => 0
    case ReadChar => 1
    case ReadStr(n) => Max(0, n)
  }

  // The calls on the output side are all there, in order, and no others.

  lemma {:induction false} WritesOfConcat(a: seq<ClientCall>, b: seq<ClientCall>)
    ensures WritesOf(a + b) == WritesOf(a) + WritesOf(b)
    decreases |b|
  {
    if b == [] {
      assert a + b == a;
    } else {
      var rest := b[..|b| - 1];
      WritesOfConcat(a, rest);
      assert (a + b)[..|a + b| - 1] == a + rest;
    }
  }

  lemma WritesOfOne(call: Call, n: int)
    ensures WritesOf([Write(call)]) == [call] && WritesOf([ReadChar]) == WritesOf([ReadStr(n)]) == []
  {
    var c := [Write(call)];
    assert c[..0] == [] && [ReadChar][..0] == [] && [ReadStr(n)][..0] == [];
  }

  function WantedBy(calls: seq<ClientCall>): nat {
    if calls == [] then 0 else Wanted(calls[0]) + WantedBy(calls[1..])
  }

  // The records sent for the request's own streams, and those sent in reply.

  function OwnOf(log: seq<Sending>): seq<Record> {
    if log == [] then [] else (if log[0].Own? then [log[0].record] else []) + OwnOf(log[1..])
  }

  function RepliesOf(log: seq<Sending>): seq<Record> {
    if log == [] then [] else (if log[0].Reply? then [log[0].record] else []) + RepliesOf(log[1..])
  }

  lemma {:induction false} OwnOfConcat(a: seq<Sending>, b: seq<Sending>)
    ensures OwnOf(a + b) == OwnOf(a) + OwnOf(b)
  {
    if a == [] {
      assert a + b == b;
    } else {
      assert (a + b)[1..] == a[1..] + b;
      OwnOfConcat(a[1..], b);
      ConcatAssociates(if a[0].Own? then [a[0].record] else [], OwnOf(a[1..]), OwnOf(b));
    }
  }

  lemma {:induction false} RepliesOfConcat(a: seq<Sending>, b: seq<Sending>)
    ensures RepliesOf(a + b) == RepliesOf(a) + RepliesOf(b)
  {
    if a == [] {
      assert a + b == b;
    } else {
      assert (a + b)[1..] == a[1..] + b;
      RepliesOfConcat(a[1..], b);
      ConcatAssociates(if a[0].Reply? then [a[0].record] else [], RepliesOf(a[1..]), RepliesOf(b));
    }
  }

  lemma {:induction false} AllOwn(rs: seq<Record>)
    ensures OwnOf(Owned(rs)) == rs && RepliesOf(Owned(rs)) == []
  {
    if rs != [] {
      assert Owned(rs)[1..] == Owned(rs[1..]);
      AllOwn(rs[1..]);
    }
  }

  lemma {:induction false} AllReplies(log: seq<Sending>)
    requires forall i :: 0 <= i < |log| ==> log[i].Reply?
    ensures OwnOf(log) == [] && RepliesOf(log) == Records(log)
  {
    if log != [] {
      assert Records(log)[1..] == Records(log[1..]);
      AllReplies(log[1..]);
    }
  }

  lemma RunSnoc(m: Output, calls: seq<Call>, call: Call)
    requires m.Ready()
    ensures Run(m, calls + [call]) == Apply(Run(m, calls), call)
    decreases |calls|
  {
    hide Apply;
    if calls == [] {
      assert calls + [call] == [call] && [call][1..] == [];
    } else {
      assert (calls + [call])[1..] == calls[1..] + [call];
      RunSnoc(Apply(m, calls[0]), calls[1..], call);
    }
  }

  // The connection's log, the output side and the future of the input at some moment.
  datatype Moment = Moment(log: seq<Sending>, output: Output, input: Outcome)

  function Since(start: Moment, now: Moment): seq<Sending> {
    if |start.log| <= |now.log| then now.log[|start.log|..] else []
  }

  /** Of a stream whose future was v, the client has been given the bytes got; w is its
      future now, and no reply has been written that could still wait. */
  predicate Progress(v: Outcome, got: seq<byte>, w: Outcome) {
    && got + w.data == v.data && w.end == v.end && w.late == v.Without(|got|).late && Prompt(v, |got|, w)
  }

  lemma NoProgress(v: Outcome)
    ensures Progress(v, [], v)
  {
    assert [] + v.data == v.data && v.late[0..] == v.late;
  }

  lemma MoreProgress(v: Outcome, got: seq<byte>, w: Outcome, str: seq<byte>, x: Outcome)
    requires Progress(v, got, w) && Progress(w, str, x)
    ensures Progress(v, got + str, x)
  {
    ConcatAssociates(got, str, x.data);
    var n, m := |got|, |str|;
    assert n <= |v.late| ==> w.late == v.late[n..];
    assert n + m <= |v.late| ==> v.late[n..][m..] == v.late[n + m..];
    assert 0 < m && n + m <= |v.late| ==> v.late[n..][m - 1] == v.late[n + m - 1];
  }

  /** From start to now, after these calls on the output side and with got taken from the
      input: the log has grown by the records of the output machine's run and by replies;
      what the replies lack of the input's replies is still to come. */
  predicate Tally(start: Moment, now: Moment, writes: seq<Call>, got: seq<byte>)
    requires start.output.Ready()
  {
    && |start.log| <= |now.log| && now.log[..|start.log|] == start.log
    && OwnOf(Since(start, now)) == Run(start.output.(log := []), writes).log
    && now.output == Run(start.output.(log := []), writes).(log := [])
    && (forall e :: e in Since(start, now) && e.Reply? ==> IsReply(e.record))
    && Progress(start.input, got, now.input)
    && EncodeAll(RepliesOf(Since(start, now))) + now.input.replies == start.input.replies
  }

  lemma TallyStart(start: Moment)
    requires start.output.Ready() && start.output.log == []
    ensures Tally(start, start, [], [])
  {
    EncodeAllNone();
    assert Since(start, start) == [];
    NoProgress(start.input);
    assert [] + start.input.replies == start.input.replies;
  }

  lemma TallyWrite(start: Moment, now: Moment, writes: seq<Call>, got: seq<byte>, call: Call)
    requires start.output.Ready() && now.output.Ready() && Tally(start, now, writes, got)
    ensures var r := Apply(now.output, call);
            Tally(start, Moment(now.log + Owned(r.log), r.(log := []), now.input), writes + [call], got)
  {
    hide Run, Apply, OwnOf, RepliesOf, IsReply, EncodeAll, Progress;
    var m := Run(start.output.(log := []), writes);
    var r := Apply(now.output, call);
    var after := Moment(now.log + Owned(r.log), r.(log := []), now.input);
    RunSnoc(start.output.(log := []), writes, call);
    ApplyBehind(m, call);
    assert Since(start, after) == Since(start, now) + Owned(r.log);
    OwnOfConcat(Since(start, now), Owned(r.log));
    RepliesOfConcat(Since(start, now), Owned(r.log));
    AllOwn(r.log);
    var replies := RepliesOf(Since(start, now));
    assert replies + [] == replies;
  }

  lemma TallyRead(start: Moment, now: Moment, after: Moment, writes: seq<Call>, got: seq<byte>, str: seq<byte>)
    requires start.output.Ready() && Tally(start, now, writes, got)
    requires OnlyReplies(now.log, after.log) && after.output == now.output
    requires Progress(now.input, str, after.input)
    requires EncodeAll(Records(after.log)) + after.input.replies == EncodeAll(Records(now.log)) + now.input.replies
    ensures Tally(start, after, writes, got + str)
  {
    hide Run, OwnOf, RepliesOf, IsReply, EncodeAll, OnlyReplies, Since, Progress;
    var more := Since(now, after);
    SinceGrown(start, now, after);
    OwnOfConcat(Since(start, now), more);
    RepliesOfConcat(Since(start, now), more);
    AllReplies(more);
    assert OwnOf(Since(start, now)) + [] == OwnOf(Since(start, now));
    MoreProgress(start.input, got, now.input, str, after.input);
    RepliesTaken(now, after, more);
    var before := RepliesOf(Since(start, now));
    EncodeAllConcat(before, Records(more));
    ConcatAssociates(EncodeAll(before), EncodeAll(Records(more)), after.input.replies);
    AllAreReplies(Since(start, now), more);
  }

  lemma SinceGrown(start: Moment, now: Moment, after: Moment)
    requires |start.log| <= |now.log| && now.log[..|start.log|] == start.log && OnlyReplies(now.log, after.log)
    ensures |start.log| <= |after.log| && after.log[..|start.log|] == start.log
    ensures after.log == now.log + Since(now, after) && Since(start, after) == Since(start, now) + Since(now, after)
    ensures var more := Since(now, after); forall i :: 0 <= i < |more| ==> more[i].Reply? && IsReply(more[i].record)
  {
    hide IsReply;
    var more := Since(now, after);
    assert forall i :: 0 <= i < |more| ==> more[i] == after.log[|now.log| + i];
    assert after.log[..|now.log|][..|start.log|] == after.log[..|start.log|];
  }

  lemma AllAreReplies(a: seq<Sending>, b: seq<Sending>)
    requires forall e :: e in a && e.Reply? ==> IsReply(e.record)
    requires forall i :: 0 <= i < |b| ==> b[i].Reply? && IsReply(b[i].record)
    ensures forall e :: e in a + b && e.Reply? ==> IsReply(e.record)
  {
  }

  lemma RepliesTaken(now: Moment, after: Moment, more: seq<Sending>)
    requires after.log == now.log + more
    requires EncodeAll(Records(after.log)) + after.input.replies == EncodeAll(Records(now.log)) + now.input.replies
    ensures EncodeAll(Records(more)) + after.input.replies == now.input.replies
  {
    hide EncodeAll;
    RecordsConcat(now.log, more);
    EncodeAllConcat(Records(now.log), Records(more));
    var a, b, c := EncodeAll(Records(now.log)), EncodeAll(Records(more)), after.input.replies;
    ConcatAssociates(a, b, c);
    assert (a + (b + c))[|a|..] == b + c;
    assert (a + now.input.replies)[|a|..] == now.input.replies;
  }

  // A request that is being served.
  ghost predicate Served(r: FcgxRequest)
    reads r, r.conn, r.input, r.out, r.err, r.params, if r.params == null then {} else {r.params.vec}, r.shared
    reads if r.input == null then {} else {r.input.buff}
  {
    r.Serving() && r.conn.Logged() && r.shared.isBeginProcessed
  }

  ghost function Now(r: FcgxRequest): Moment
    requires r.Serving()
    reads r, r.conn, r.input, r.out, r.err, r.params, if r.params == null then {} else {r.params.vec}, r.shared
    reads if r.input == null then {} else {r.input.buff}
    reads if r.out == null then {} else {r.out.buff}, if r.err == null then {} else {r.err.buff}
  {
    Moment(r.conn.log, r.OutputState(), r.input.View())
  }

  method WriteStep(r: FcgxRequest, call: Call, ghost start: Moment, ghost writes: seq<Call>, ghost got: seq<byte>)
    requires Served(r) && start.output.Ready() && Tally(start, Now(r), writes, got)
    modifies r.out, r.err, r.out.buff, r.err.buff, r.conn`sent, r.conn`log, r.shared`nWriters, r.shared`appStatus
    ensures Served(r) && Tally(start, Now(r), writes + [call], got) && r.input.View() == old(r.input.View())
  {
    hide Tally, Apply, Reader.View;
    TallyWrite(start, Now(r), writes, got, call);
    r.Perform(call);
  }

  method ReadStep(r: FcgxRequest, call: ClientCall, ghost start: Moment, ghost writes: seq<Call>, ghost got: seq<byte>)
    returns (str: seq<byte>)
    requires Served(r) && !call.Write? && start.output.Ready() && Tally(start, Now(r), writes, got)
    requires Yields(r.input.View(), Wanted(call))
    modifies r.input, r.input.buff, r.conn, r.shared
    ensures Served(r) && Tally(start, Now(r), writes, got + str)
    ensures var v, w := old(r.input.View()), r.input.View();
            str == v.data[..Min(Wanted(call), |v.data|)] && Progress(v, str, w)
  {
    hide Tally, Reader.View, OnlyReplies, Progress;
    ghost var was := Now(r);
    str := Fetch(r, call);
    TallyRead(start, was, Now(r), writes, got, str);
  }

  method Fetch(r: FcgxRequest, call: ClientCall) returns (str: seq<byte>)
    requires Served(r) && !call.Write? && Yields(r.input.View(), Wanted(call))
    modifies r.input, r.input.buff, r.conn, r.shared
    ensures Served(r) && r.OutputState() == old(r.OutputState()) && OnlyReplies(old(r.conn.log), r.conn.log)
    ensures var v, w := old(r.input.View()), r.input.View();
            && str == v.data[..Min(Wanted(call), |v.data|)] && Progress(v, str, w)
            && r.conn.sent + w.replies == old(r.conn.sent) + v.replies
  {
    hide Reader.View, OnlyReplies, Progress;
    str := Take(r.input, call);
  }

  // The call on the stream itself.
  method Take(input: Reader, call: ClientCall) returns (str: seq<byte>)
    requires input.Valid() && input.req.isBeginProcessed && input.conn.Logged()
    requires !call.Write? && Yields(input.View(), Wanted(call))
    modifies input, input.buff, input.conn, input.req
    ensures input.Valid() && unchanged(input.req) && input.conn.Logged()
    ensures OnlyReplies(old(input.conn.log), input.conn.log)
    ensures var v, w := old(input.View()), input.View();
            && str == v.data[..Min(Wanted(call), |v.data|)] && Progress(v, str, w)
            && input.conn.sent + w.replies == old(input.conn.sent) + v.replies
  {
    hide Reader.View, OnlyReplies, Progress;
    if call.ReadChar? {
      str := TakeChar(input);
    } else {
      str := TakeStr(input, call.n);
    }
  }

  method TakeChar(input: Reader) returns (str: seq<byte>)
    requires input.Valid() && input.req.isBeginProcessed && input.conn.Logged() && Yields(input.View(), 1)
    modifies input, input.buff, input.conn, input.req
    ensures input.Valid() && unchanged(input.req) && input.conn.Logged()
    ensures OnlyReplies(old(input.conn.log), input.conn.log)
    ensures var v, w := old(input.View()), input.View();
            && str == v.data[..Min(1, |v.data|)] && Progress(v, str, w)
            && input.conn.sent + w.replies == old(input.conn.sent) + v.replies
  {
    hide Reader.View, OnlyReplies, EncodeAll, Entered, Prompt;
    ghost var v, sent := input.View(), input.conn.sent;
    var c := input.GetChar();
    str := if c == -1 then [] else [c];
    assert input.Total() == input.View().(replies := input.conn.sent + input.View().replies);
    Taken(v, str, input.View(), sent, input.conn.sent);
  }

  method TakeStr(input: Reader, n: int) returns (str: seq<byte>)
    requires input.Valid() && input.req.isBeginProcessed && input.conn.Logged() && Yields(input.View(), n)
    modifies input, input.buff, input.conn, input.req
    ensures input.Valid() && unchanged(input.req) && input.conn.Logged()
    ensures OnlyReplies(old(input.conn.log), input.conn.log)
    ensures var v, w := old(input.View()), input.View();
            && str == v.data[..Max(0, Min(n, |v.data|))] && Progress(v, str, w)
            && input.conn.sent + w.replies == old(input.conn.sent) + v.replies
  {
    hide Reader.View, OnlyReplies, EncodeAll, Entered, Prompt;
    ghost var v, sent := input.View(), input.conn.sent;
    str := input.GetStr(n);
    assert input.Total() == input.View().(replies := input.conn.sent + input.View().replies);
    Taken(v, str, input.View(), sent, input.conn.sent);
  }

  lemma Taken(v: Outcome, str: seq<byte>, w: Outcome, sent: seq<byte>, sent': seq<byte>)
    requires |str| <= |v.data| && str == v.data[..|str|] && Prompt(v, |str|, w)
    requires var o := v.(replies := sent + v.replies);
             w.(replies := sent' + w.replies) == if str == [] then o else o.Without(|str|)
    ensures Progress(v, str, w) && sent' + w.replies == sent + v.replies
  {
    hide Prompt;
    assert v.data[..|str|] + v.data[|str|..] == v.data;
    assert v.late[0..] == v.late;
  }

  /** Any calls of a client in any order. What has been sent stays whole records: the
      request's own ones are those of a run of the output machine, and those in between
      are replies; bytes read, and replies sent, are the first ones of the input's. The
      input may overrun the library's reply buffer behind the bytes asked for. */
  method Serve(r: FcgxRequest, calls: seq<ClientCall>) returns (got: seq<byte>)
    requires Served(r) && Yields(r.input.View(), WantedBy(calls))
    modifies r.out, r.err, r.out.buff, r.err.buff, r.input, r.input.buff, r.conn, r.shared
    ensures Served(r) && Tally(old(Now(r)), Now(r), WritesOf(calls), got)
    ensures |got| == Min(WantedBy(calls), |old(r.input.View()).data|)
    ensures DecodeAll(r.conn.sent) == Some(Records(r.conn.log))
    ensures r.conn.sent == old(r.conn.sent) + EncodeAll(Records(Since(old(Now(r)), Now(r))))
  {
    hide Tally, Reader.View, EncodeAll, WritesOf;
    ghost var start := Now(r);
    TallyStart(start);
    assert calls[..0] == [] && WritesOf([]) == [] by {
      NoWrites();
    }
    assert calls[0..] == calls;
    got := [];
    for i := 0 to |calls|
      invariant Served(r) && Tally(start, Now(r), WritesOf(calls[..i]), got)
      invariant Yields(r.input.View(), WantedBy(calls[i..]))
      invariant |got| + Min(WantedBy(calls[i..]), |r.input.View().data|)
             == Min(WantedBy(calls), |start.input.data|)
    {
      WritesOfMore(calls, i);
      assert calls[i..][1..] == calls[i + 1..];
      if calls[i].Write? {
        WriteStep(r, calls[i].call, start, WritesOf(calls[..i]), got);
      } else {
        var str := ReadStep(r, calls[i], start, WritesOf(calls[..i]), got);
        got := got + str;
      }
    }
    assert calls[..|calls|] == calls;
    DecodeEncode(Records(r.conn.log));
    LogGrown(start, Now(r), WritesOf(calls), got);
  }

  lemma NoWrites()
    ensures WritesOf([]) == []
  {
  }

  lemma WritesOfMore(calls: seq<ClientCall>, i: nat)
    requires i < |calls|
    ensures WritesOf(calls[..i + 1]) ==
            if calls[i].Write? then WritesOf(calls[..i]) + [calls[i].call] else WritesOf(calls[..i])
  {
    assert calls[..i + 1][..i] == calls[..i];
  }

  lemma LogGrown(start: Moment, now: Moment, writes: seq<Call>, got: seq<byte>)
    requires start.output.Ready() && Tally(start, now, writes, got)
    ensures EncodeAll(Records(now.log)) == EncodeAll(Records(start.log)) + EncodeAll(Records(Since(start, now)))
  {
    hide EncodeAll;
    assert now.log == start.log + Since(start, now);
    RecordsConcat(start.log, Since(start, now));
    EncodeAllConcat(Records(start.log), Records(Since(start, now)));
  }

  // ---- What the session of an accepted request comes to. ----

  /** A session can begin as soon as the request is accepted: the input is what the flat
      scanner makes of the bytes behind the parameters. */
  lemma AcceptedServed(r: FcgxRequest, e: Offer, before: seq<byte>)
    requires r.Accepted(e, before)
    ensures Served(r) && Now(r).output.log == [] && Inv(Now(r).output)
    ensures r.input.errno == 0 ==>
              e.end.Eof?
              && Now(r).input == ScanStream(Context(false, STDIN, e.body.requestId, true, 0), START, e.end.rest)
  {
    hide ScanStream, Inv;
    var input := r.input;
    assert input.buff[input.rdNext..input.stop] == [];
    var o := Future(input.Ctx(), input.Where(), input.Unread(input.stop));
    assert [] + o.data == o.data;
  }

  /** The records sent for the request's own streams have the shape of Output: data, then
      at most one EOF record for each stream, and END_REQUEST last of all. */
  lemma OwnShape(start: Moment, now: Moment, writes: seq<Call>, got: seq<byte>)
    requires start.output.Ready() && start.output.log == [] && Inv(start.output)
    requires Tally(start, now, writes, got)
    ensures var m := Run(start.output, writes);
            Inv(m) && OwnOf(Since(start, now)) == m.log && now.output == m.(log := [])
  {
    hide Inv, Run;
    RunInv(start.output, writes);
  }

  // ---- The whole request, up to FCGX_Finish_r. ----

  /** All that a request sends on its own streams, from the client's calls: each stream's
      contents are the bytes put on it before the client closed it; an error stream on which
      nothing was put has no record, not even of its end; END_REQUEST is there once, last,
      with the exit status set before the second stream was closed, and directly behind the
      end of the output stream when FCGX_Finish_r closes that. */
  predicate WholeOutput(id: nat, status: int, writes: seq<Call>, own: seq<Record>) {
    var end := FinalStatus(true, true, status, writes + CLOSING);
    && 0 < id < 0x10000 && OfRequest(own, id)
    && Contents(own, STDOUT, id) == Accepted(Out, writes)
    && Contents(own, STDERR, id) == Accepted(Err, writes)
    && end.Some? && own != [] && own[|own| - 1] == Framing.EndRecord(id, end.value)
    && OfType(own, END_REQUEST) == [own[|own| - 1]]
    && (Accepted(Err, writes) == [] ==> OfType(own, STDERR) == [])
    && (Close(Out) !in writes ==> |own| > 1 && own[|own| - 2] == Record(STDOUT, id, [], []))
  }

  lemma ClosingRun(m: Output, writes: seq<Call>)
    requires m.Ready()
    ensures var r := Run(m, writes + CLOSING); r.out.closed && r.err.closed
  {
    hide Run, Framing.Flush;
    RunSnoc(m, writes, Close(Err));
    RunSnoc(m, writes + [Close(Err)], Close(Out));
    assert writes + [Close(Err)] + [Close(Out)] == writes + CLOSING;
  }

  lemma {:induction false} AcceptedBefore(w: Which, writes: seq<Call>)
    ensures Accepted(w, writes + CLOSING) == Accepted(w, writes)
  {
    if writes == [] {
      assert writes + CLOSING == CLOSING && CLOSING[1..] == [Close(Out)] && [Close(Out)][1..] == [];
    } else {
      assert (writes + CLOSING)[1..] == writes[1..] + CLOSING;
      AcceptedBefore(w, writes[1..]);
    }
  }

  /** What closing both streams makes of any run from the beginning. */
  lemma RunWhole(start: Output, writes: seq<Call>)
    requires Inv(start) && start.log == [] && start.nWriters == 2 && start.out.pending == start.err.pending == []
    ensures WholeOutput(start.id, start.appStatus, writes, Run(start, writes + CLOSING).log)
  {
    hide Run, OfType, StreamLog, FinalStatus, Framing.EndRecord, OfRequest;
    var calls := writes + CLOSING;
    RunInv(start, calls);
    ClosingRun(start, writes);
    RunEnds(start, calls);
    forall w: Which ensures Contents(Run(start, calls).log, TypeOf(w), start.id) == Accepted(w, writes) {
      RunConserves(start, calls, w);
      AcceptedBefore(w, writes);
      ContentsNone(TypeOf(w), start.id);
      var contents := Contents(Run(start, calls).log, TypeOf(w), start.id);
      assert Bytes(start, w) == [] && [] + Accepted(w, writes) == Accepted(w, writes);
      assert Run(start, calls).Of(w).pending == [] && contents + [] == contents;
    }
    assert TypeOf(Out) == STDOUT && TypeOf(Err) == STDERR;
    AcceptedBefore(Err, writes);
    StreamEnds(start, calls, Err);
    assert calls == writes + [Close(Err)] + [Close(Out)] && Close(Err) in calls;
    if Close(Out) !in writes {
      RunSnoc(start, writes + [Close(Err)], Close(Out));
      OutputLast(start, writes + [Close(Err)]);
    }
  }

  // The closing of the output stream, when the error stream is closed already.
  lemma OutputLast(start: Output, calls: seq<Call>)
    requires Inv(start) && start.nWriters == 2 && Close(Err) in calls && Close(Out) !in calls
    ensures var own := Apply(Run(start, calls), Close(Out)).log;
            |own| > 1 && own[|own| - 2] == Record(STDOUT, start.id, [], [])
  {
    hide Run, OfType, StreamLog, OfRequest, Framing.EndRecord;
    RunInv(start, calls);
    RunCloses(start, calls, Out);
    RunCloses(start, calls, Err);
  }

  lemma TallyClosing(start: Moment, now: Moment, writes: seq<Call>, got: seq<byte>)
    requires start.output.Ready() && now.output.Ready() && Tally(start, now, writes, got)
    ensures var m := Run(start.output.(log := []), writes + CLOSING);
            Tally(start, Moment(now.log + Owned(Run(now.output, CLOSING).log), m.(log := []), now.input),
                  writes + CLOSING, got)
  {
    hide Tally, Apply, Owned;
    var e := Apply(now.output, Close(Err));
    var f := Apply(e.(log := []), Close(Out));
    var between := Moment(now.log + Owned(e.log), e.(log := []), now.input);
    TallyWrite(start, now, writes, got, Close(Err));
    TallyWrite(start, between, writes + [Close(Err)], got, Close(Out));
    assert writes + [Close(Err)] + [Close(Out)] == writes + CLOSING;
    FcgxRequest.CloseRun(now.output);
    ConcatAssociates(now.log, Owned(e.log), Owned(f.log));
    TallyOutput(start, Moment(between.log + Owned(f.log), f.(log := []), now.input), writes + CLOSING, got);
  }

  lemma TallyOutput(start: Moment, now: Moment, writes: seq<Call>, got: seq<byte>)
    requires start.output.Ready() && Tally(start, now, writes, got)
    ensures now.output == Run(start.output.(log := []), writes).(log := [])
    ensures OwnOf(Since(start, now)) == Run(start.output.(log := []), writes).log
  {
  }

  /** An accepted request from the client's first call to FCGX_Finish_r. */
  method Handle(r: FcgxRequest, calls: seq<ClientCall>, ghost e: Offer, ghost before: seq<byte>)
    returns (got: seq<byte>, ghost end: Moment)
    requires r.Accepted(e, before) && Yields(r.input.View(), WantedBy(calls))
    modifies r, r.out, r.err, r.out.buff, r.err.buff, r.input, r.input.buff, r.conn, r.shared
    ensures r.Idle() && old(r.conn).Logged() && end.log == old(r.conn).log
    ensures Tally(old(Now(r)), end, WritesOf(calls) + CLOSING, got)
    ensures |got| == Min(WantedBy(calls), |old(r.input.View()).data|)
    ensures WholeOutput(e.body.requestId, old(r.shared.appStatus), WritesOf(calls), OwnOf(Since(old(Now(r)), end)))
    ensures old(r.conn).sent == before + e.replies + EncodeAll(Records(Since(old(Now(r)), end)))
  {
    hide Tally, Reader.View, EncodeAll, WritesOf, WholeOutput, OwnOf, Run, Inv;
    AcceptedServed(r, e, before);
    ghost var start := Now(r);
    got := Serve(r, calls);
    ghost var now := Now(r);
    TallyClosing(start, now, WritesOf(calls), got);
    end := Moment(now.log + Owned(Run(now.output, CLOSING).log),
                  Run(start.output, WritesOf(calls) + CLOSING).(log := []), now.input);
    r.Finish();
    RunWhole(start.output, WritesOf(calls));
    TallyOutput(start, end, WritesOf(calls) + CLOSING, got);
    LogGrown(start, end, WritesOf(calls) + CLOSING, got);
  }

  // The reply to a routine record, as records.
  function ReplyRecords(c: Context, rs: seq<Record>): seq<Record>
    requires Serving(c) && forall r :: r in rs ==> Routine(c, r)
  {
    if rs == [] then [] else assert Routine(c, rs[0]); ReplyRecord(rs[0]) + ReplyRecords(c, rs[1..])
  }

  function ReplyRecord(r: Record): seq<Record>
    requires IsValuesQuery(r) || r.rtype != GET_VALUES || r.id != NULL_REQUEST_ID
  {
    if r.rtype == BEGIN_REQUEST then [Record(END_REQUEST, r.id, MakeEndRequestBody(0, CANT_MPX_CONN), [])]
    else if r.id != NULL_REQUEST_ID then []
    else if r.rtype == GET_VALUES then
      var body := ValueReplies(ReadPairs(r.content).list);
      [Record(GET_VALUES_RESULT, NULL_REQUEST_ID, body, Zeros(AlignInt8(|body|) - |body|))]
    else [Record(UNKNOWN_TYPE, NULL_REQUEST_ID, MakeUnknownTypeBody(r.rtype), [])]
  }

  lemma ReplyRecordBytes(r: Record)
    requires IsValuesQuery(r) || r.rtype != GET_VALUES || r.id != NULL_REQUEST_ID
    ensures EncodeAll(ReplyRecord(r)) == ReplyTo(r)
  {
    hide ReadPairs, ValueReplies;
    EncodeAllNone();
    if ReplyRecord(r) != [] {
      EncodeAllOne(ReplyRecord(r)[0]);
    }
  }

  lemma {:induction false} ReplyRecordsBytes(c: Context, rs: seq<Record>)
    requires Serving(c) && forall r :: r in rs ==> Routine(c, r)
    ensures EncodeAll(ReplyRecords(c, rs)) == RepliesTo(c, rs)
  {
    hide ReplyRecord, ReplyTo, Encode;
    if rs == [] {
      EncodeAllNone();
    } else {
      assert Routine(c, rs[0]);
      ReplyRecordBytes(rs[0]);
      ReplyRecordsBytes(c, rs[1..]);
      EncodeAllConcat(ReplyRecord(rs[0]), ReplyRecords(c, rs[1..]));
    }
  }

  lemma {:induction false} ReplyRecordsConcat(c: Context, a: seq<Record>, b: seq<Record>)
    requires Serving(c) && (forall r :: r in a ==> Routine(c, r)) && (forall r :: r in b ==> Routine(c, r))
    ensures ReplyRecords(c, a + b) == ReplyRecords(c, a) + ReplyRecords(c, b)
  {
    hide ReplyRecord;
    if a == [] {
      assert a + b == b;
    } else {
      assert (a + b)[1..] == a[1..] + b;
      ReplyRecordsConcat(c, a[1..], b);
      assert Routine(c, a[0]);
      ConcatAssociates(ReplyRecord(a[0]), ReplyRecords(c, a[1..]), ReplyRecords(c, b));
    }
  }

  // Records are cut off the front of a byte string in only one way.
  lemma {:induction false} FirstRecords(a: seq<Record>, rest: seq<byte>, all: seq<Record>)
    requires EncodeAll(a) + rest == EncodeAll(all)
    ensures a <= all && rest == EncodeAll(all[|a|..])
  {
    hide Encode, ParseHeader;
    if a == [] {
      assert EncodeAll(a) + rest == rest;
    } else {
      var r, t := a[0], EncodeAll(a[1..]) + rest;
      ConcatAssociates(Encode(r), EncodeAll(a[1..]), rest);
      assert all != [];
      EncodeParts(r, t);
      EncodeParts(all[0], EncodeAll(all[1..]));
      assert r == all[0];
      FirstRecords(a[1..], rest, all[1..]);
      assert a == [r] + a[1..] && all == [r] + all[1..];
    }
  }

  /** When the reader stands before the record k of a stream of routine records, the replies
      sent are exactly those to the records before it. */
  lemma RepliesAtRecord(c: Context, rs: seq<Record>, last: Record, more: seq<byte>, k: nat,
                        start: Moment, now: Moment, writes: seq<Call>, got: seq<byte>)
    requires Serving(c) && k <= |rs| && forall r :: r in rs ==> Routine(c, r)
    requires last.rtype == c.rtype && last.id == c.requestId && last.content == []
    requires start.output.Ready() && Tally(start, now, writes, got)
    requires start.input == ScanStream(c, START, EncodeAll(rs) + (Encode(last) + more))
    ensures RepliesOf(Since(start, now)) <= ReplyRecords(c, rs) && got <= Contents(rs, c.rtype, c.requestId)
    ensures now.input == ScanStream(c, START, EncodeAll(rs[k..]) + (Encode(last) + more)) ==>
            RepliesOf(Since(start, now)) == ReplyRecords(c, rs[..k])
            && got == Contents(rs[..k], c.rtype, c.requestId)
  {
    hide ScanStream, Run, OwnOf, RepliesOf, Encode, EncodeAll, Routine, ReplyRecords, Contents;
    var sent := RepliesOf(Since(start, now));
    StreamDelivered(c, rs, last, more);
    ReplyRecordsBytes(c, rs);
    FirstRecords(sent, now.input.replies, ReplyRecords(c, rs));
    assert got == start.input.data[..|got|];
    if now.input == ScanStream(c, START, EncodeAll(rs[k..]) + (Encode(last) + more)) {
      StreamDelivered(c, rs[k..], last, more);
      ReplyRecordsBytes(c, rs[k..]);
      assert rs == rs[..k] + rs[k..];
      ReplyRecordsConcat(c, rs[..k], rs[k..]);
      ContentsConcat(rs[..k], rs[k..], c.rtype, c.requestId);
      SameFront(got, Contents(rs[..k], c.rtype, c.requestId), now.input.data);
      var a, b := ReplyRecords(c, rs[..k]), ReplyRecords(c, rs[k..]);
      EncodeAllConcat(a, b);
      SameFront(EncodeAll(sent), EncodeAll(a), now.input.replies);
      DecodeEncode(sent);
      DecodeEncode(a);
    }
  }

  // The record that holds the byte n - 1 of what the client gets.
  lemma {:induction false} HeldBy(c: Context, rs: seq<Record>, n: nat) returns (j: nat)
    requires Serving(c) && (forall r :: r in rs ==> Routine(c, r)) && 0 < n <= |LateReplies(c, rs)|
    ensures j < |rs| && LateReplies(c, rs)[n - 1] == |RepliesTo(c, rs[j + 1..])|
    ensures |Contents(rs[..j], c.rtype, c.requestId)| < n <= |Contents(rs[..j + 1], c.rtype, c.requestId)|
  {
    hide RepliesTo, Routine;
    var m := |Payload(c, rs[0])|;
    ContentsNone(c.rtype, c.requestId);
    if n <= m {
      j := 0;
      assert rs[..1] == [rs[0]] + [] && rs[..0] == [];
      ContentsCons(rs[0], [], c.rtype, c.requestId);
    } else {
      var i := HeldBy(c, rs[1..], n - m);
      j := i + 1;
      assert rs[1..][i + 1..] == rs[j + 1..];
      assert rs[..j] == [rs[0]] + rs[1..][..i] && rs[..j + 1] == [rs[0]] + rs[1..][..i + 1];
      ContentsCons(rs[0], rs[1..][..i], c.rtype, c.requestId);
      ContentsCons(rs[0], rs[1..][..i + 1], c.rtype, c.requestId);
    }
  }

  // The replies that have been sent, when those to rs[k..] are still to come.
  lemma SentBefore(c: Context, rs: seq<Record>, k: nat, sent: seq<Record>, rest: seq<byte>)
    requires Serving(c) && k <= |rs| && forall r :: r in rs ==> Routine(c, r)
    requires EncodeAll(sent) + rest == RepliesTo(c, rs) && |rest| == |RepliesTo(c, rs[k..])|
    ensures sent == ReplyRecords(c, rs[..k])
  {
    hide EncodeAll, ReplyRecords, RepliesTo, Routine;
    assert rs == rs[..k] + rs[k..];
    var a, b := ReplyRecords(c, rs[..k]), ReplyRecords(c, rs[k..]);
    ReplyRecordsConcat(c, rs[..k], rs[k..]);
    ReplyRecordsBytes(c, rs);
    ReplyRecordsBytes(c, rs[k..]);
    EncodeAllConcat(a, b);
    assert EncodeAll(sent) == (EncodeAll(sent) + rest)[..|EncodeAll(sent)|];
    assert EncodeAll(a) == (EncodeAll(a) + EncodeAll(b))[..|EncodeAll(a)|];
    DecodeEncode(sent);
    DecodeEncode(a);
  }

  // A record with something for the client is not answered.
  lemma DataUnanswered(c: Context, rs: seq<Record>, j: nat)
    requires Serving(c) && j < |rs| && (forall r :: r in rs ==> Routine(c, r)) && Payload(c, rs[j]) != []
    ensures ReplyRecords(c, rs[..j + 1]) == ReplyRecords(c, rs[..j])
  {
    hide Routine;
    assert rs[..j + 1] == rs[..j] + [rs[j]] && [rs[j]][1..] == [];
    ReplyRecordsConcat(c, rs[..j], [rs[j]]);
    assert ReplyRecord(rs[j]) == [] && ReplyRecords(c, [rs[j]]) == [] + ReplyRecords(c, []);
  }

  // What the client has been given ends in the record k.
  lemma HeldContents(c: Context, rs: seq<Record>, got: seq<byte>, k: nat)
    requires k < |rs| && got <= Contents(rs, c.rtype, c.requestId)
    requires |Contents(rs[..k], c.rtype, c.requestId)| < |got| <= |Contents(rs[..k + 1], c.rtype, c.requestId)|
    ensures Contents(rs[..k], c.rtype, c.requestId) <= got <= Contents(rs[..k + 1], c.rtype, c.requestId)
    ensures Payload(c, rs[k]) != []
  {
    hide Contents;
    var t, id := c.rtype, c.requestId;
    assert rs == rs[..k] + rs[k..] == rs[..k + 1] + rs[k + 1..] && rs[..k + 1] == rs[..k] + ([rs[k]] + []);
    ContentsConcat(rs[..k], rs[k..], t, id);
    ContentsConcat(rs[..k + 1], rs[k + 1..], t, id);
    ContentsConcat(rs[..k], [rs[k]] + [], t, id);
    ContentsCons(rs[k], [], t, id);
    ContentsNone(t, id);
  }

  /** A session on a stream of routine records, at any moment of it: replies have been sent
      exactly to the first k records, and the client has been given the contents of those and
      perhaps a part of the next one's. */
  lemma RepliesInOrder(c: Context, rs: seq<Record>, last: Record, more: seq<byte>,
                       start: Moment, now: Moment, writes: seq<Call>, got: seq<byte>) returns (k: nat)
    requires Serving(c) && forall r :: r in rs ==> Routine(c, r)
    requires last.rtype == c.rtype && last.id == c.requestId && last.content == []
    requires start.output.Ready() && Tally(start, now, writes, got)
    requires start.input == ScanStream(c, START, EncodeAll(rs) + (Encode(last) + more))
    ensures k <= |rs| && RepliesOf(Since(start, now)) == ReplyRecords(c, rs[..k])
    ensures Contents(rs[..k], c.rtype, c.requestId) <= got
            <= Contents(rs[..if k < |rs| then k + 1 else k], c.rtype, c.requestId)
  {
    hide ScanStream, Run, OwnOf, RepliesOf, Encode, EncodeAll, Routine, ReplyRecords, Contents, RepliesTo, LateReplies;
    var sent := RepliesOf(Since(start, now));
    StreamDelivered(c, rs, last, more);
    ContentsNone(c.rtype, c.requestId);
    if now.input.data == now.input.replies == [] {
      k := |rs|;
      assert got + [] == got && rs[..k] == rs && rs[k..] == [];
      assert RepliesTo(c, rs[k..]) == [] by {
        NoReplies(c);
      }
      SentBefore(c, rs, k, sent, now.input.replies);
    } else if got == [] {
      k := 0;
      assert rs[0..] == rs && rs[..0] == [];
      SentBefore(c, rs, k, sent, now.input.replies);
    } else {
      k := HeldBy(c, rs, |got|);
      HeldContents(c, rs, got, k);
      SentBefore(c, rs, k + 1, sent, now.input.replies);
      DataUnanswered(c, rs, k);
    }
  }

  lemma NoReplies(c: Context)
    requires Serving(c)
    ensures RepliesTo(c, []) == []
  {
  }

  lemma SameFront(a: seq<byte>, b: seq<byte>, t: seq<byte>)
    requires a + t == b + t
    ensures a == b
  {
    assert |a| == |b| && (a + t)[..|a|] == a && (b + t)[..|b|] == b;
  }
}
