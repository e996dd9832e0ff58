/** Everything a request can do with its two output streams, in any order: what the
    peer receives over whole runs. */
module Output {
  import opened Protocol
  import opened Framing

  datatype Which = Out | Err

  function TypeOf(w: Which): byte {
    if w.Out? then STDOUT else STDERR
  }

  /** The output side of a request: the records sent so far and both streams. */
  datatype Output = Output(id: nat, log: seq<Record>, out: Stream, err: Stream, nWriters: int, appStatus: int) {
    function Of(w: Which): Stream {
      if w.Out? then out else err
    }

    function With(w: Which, stream: Stream): Output {
      if w.Out? then this.(out := stream) else this.(err := stream)
    }

    predicate Ready() {
      && 0 < id < 0x10000
      && out.Valid() && out.rtype == STDOUT
      && err.Valid() && err.rtype == STDERR
    }
  }

  /** A client call. PutChar is a Put of one byte. */
  datatype Call =
    | Put(w: Which, s: seq<byte>)
    | Flush(w: Which)
    | Close(w: Which)
    | SetExitStatus(status: int)

  function Start(id: nat, outCapacity: nat, errCapacity: nat, appStatus: int): Output {
    Output(id, [],
           Stream(STDOUT, outCapacity, [], false, false), Stream(STDERR, errCapacity, [], false, false),
           2, appStatus)
  }

  function Apply(m: Output, call: Call): (r: Output)
    requires m.Ready()
    ensures r.Ready() && r.id == m.id
  {
    match call
    case Put(w, s) =>
      if m.Of(w).closed then m
      else
        var f := Framing.Put(m.Of(w), m.id, s);
        m.With(w, f.stream).(log := m.log + f.records)
    case Flush(w) =>
      var f := Framing.Flush(m.Of(w), m.id);
      m.With(w, f.stream).(log := m.log + f.records)
    case Close(w) =>
      if m.Of(w).closed then m
      else
        var f := Framing.Close(m.Of(w), m.id, m.nWriters, m.appStatus);
        m.With(w, f.stream).(log := m.log + f.records, nWriters := m.nWriters - 1)
    case SetExitStatus(status) => m.(appStatus := status)
  }

  function Run(m: Output, calls: seq<Call>): (r: Output)
    requires m.Ready()
    ensures r.Ready() && r.id == m.id
    decreases |calls|
  {
    if calls == [] then m else Run(Apply(m, calls[0]), calls[1..])
  }

  // A call does the same whatever has been sent before.
  lemma ApplyBehind(m: Output, call: Call)
    requires m.Ready()
    ensures var r := Apply(m.(log := []), call);
            Apply(m, call) == r.(log := m.log + r.log)
  {
    hide Framing.Put, Framing.Flush, Framing.Close;
    assert m.log + [] == m.log;
    forall rs: seq<Record> ensures [] + rs == rs {
    }
  }

  // ---- Bytes are conserved. ----

  // Data records of one stream: not empty, and padded to the next multiple of eight bytes.
  predicate DataOf(rs: seq<Record>, rtype: byte, id: nat) {
    forall r :: r in rs ==>
      r.rtype == rtype && r.id == id && r.content != [] && |Encode(r)| % 8 == 0 && |r.padding| < 8
  }

  // A put sends full records only, and only when there is more.
  lemma {:induction false} PutSendsData(w: Stream, id: nat, s: seq<byte>)
    requires w.Valid() && !w.closed && id < 0x10000
    ensures var r := Framing.Put(w, id, s);
            && DataOf(r.records, w.rtype, id) && r.stream.written == (w.written || r.records != [])
            && (forall q :: q in r.records ==> |q.content| == w.capacity)
            && (s != [] ==> r.stream.pending != [])
    decreases |s|, |w.pending|
  {
    hide Encode;
    var room := w.capacity - |w.pending|;
    if |s| > room {
      PutSendsData(w.(pending := [], written := true), id, s[room..]);
    }
  }

  lemma {:induction false} PutConserves(w: Stream, id: nat, s: seq<byte>)
    requires w.Valid() && !w.closed && id < 0x10000
    ensures var r := Framing.Put(w, id, s);
            Contents(r.records, w.rtype, id) + r.stream.pending == w.pending + s
    decreases |s|, |w.pending|
  {
    hide Encode, Contents;
    var room := w.capacity - |w.pending|;
    if |s| > room {
      var w', first := w.(pending := [], written := true), DataRecord(w.rtype, id, w.pending + s[..room]);
      var rest := Framing.Put(w', id, s[room..]);
      PutConserves(w', id, s[room..]);
      ContentsCons(first, rest.records, w.rtype, id);
      ConcatAssociates(first.content, Contents(rest.records, w.rtype, id), rest.stream.pending);
      assert w.pending + s == first.content + s[room..];
    } else {
      ContentsNone(w.rtype, id);
    }
  }

  // Records of other types do not touch a stream's contents.
  lemma {:induction false} NotOfType(rs: seq<Record>, rtype: byte, id: nat)
    requires forall r :: r in rs ==> r.rtype != rtype || r.content == []
    ensures Contents(rs, rtype, id) == []
  {
    if rs != [] {
      assert rs[0] in rs;
      NotOfType(rs[1..], rtype, id);
    }
  }

  // Bytes the calls put on a stream that is open before them.
  function Accepted(w: Which, calls: seq<Call>): seq<byte> {
    if calls == [] || calls[0] == Close(w) then []
    else (if calls[0].Put? && calls[0].w == w then calls[0].s else []) + Accepted(w, calls[1..])
  }

  // A stream's bytes so far: in records, then pending.
  function Bytes(m: Output, w: Which): seq<byte> {
    Contents(m.log, TypeOf(w), m.id) + m.Of(w).pending
  }

  lemma ApplyConserves(m: Output, call: Call, w: Which)
    requires m.Ready()
    ensures Bytes(Apply(m, call), w) ==
            Bytes(m, w) + (if call.Put? && call.w == w && !m.Of(w).closed then call.s else [])
    ensures Apply(m, call).Of(w).closed == (m.Of(w).closed || call == Close(w))
  {
    hide Contents, StepOf;
    if call.SetExitStatus? || m.Of(call.w).closed {
      assert m.log + [] == m.log;
      assert Bytes(m, w) + [] == Bytes(m, w);
      return;
    }
    var t, s, f := TypeOf(w), m.Of(call.w), StepOf(m, call);
    AppliedStep(m, call);
    ContentsConcat(m.log, f.records, t, m.id);
    StepContents(m, call, t);
    var had := Contents(m.log, t, m.id);
    if call.w == w {
      ConcatAssociates(had, Contents(f.records, t, m.id), f.stream.pending);
      ConcatAssociates(had, s.pending, if call.Put? then call.s else []);
    } else {
      assert had + [] == had && Bytes(m, w) + [] == Bytes(m, w);
    }
  }

  // What a call on an open stream does to it and sends.
  function StepOf(m: Output, call: Call): Framing.Step
    requires m.Ready() && !call.SetExitStatus? && !m.Of(call.w).closed
  {
    match call
    case Put(w, s) => Framing.Put(m.Of(w), m.id, s)
    case Flush(w) => Framing.Flush(m.Of(w), m.id)
    case Close(w) => Framing.Close(m.Of(w), m.id, m.nWriters, m.appStatus)
  }

  lemma AppliedStep(m: Output, call: Call)
    requires m.Ready() && !call.SetExitStatus? && !m.Of(call.w).closed
    ensures var f, r := StepOf(m, call), Apply(m, call);
            && r.log == m.log + f.records && r.Of(call.w) == f.stream && f.stream.closed == call.Close?
            && (forall w :: w != call.w ==> r.Of(w) == m.Of(w))
  {
  }

  lemma StepContents(m: Output, call: Call, t: byte)
    requires m.Ready() && !call.SetExitStatus? && !m.Of(call.w).closed && t != END_REQUEST
    ensures var f, s := StepOf(m, call), m.Of(call.w);
            if t == TypeOf(call.w) then
              Contents(f.records, t, m.id) + f.stream.pending == s.pending + (if call.Put? then call.s else [])
            else Contents(f.records, t, m.id) == []
  {
    hide Contents, Encode, Framing.Put, Framing.Flush;
    var s := m.Of(call.w);
    if call.Put? {
      PutSendsData(s, m.id, call.s);
      PutConserves(s, m.id, call.s);
      if t != TypeOf(call.w) {
        NotOfType(Framing.Put(s, m.id, call.s).records, t, m.id);
      }
    } else {
      FlushContents(s, m.id);
      FlushSends(s, m.id);
      var flushed := Framing.Flush(s, m.id).records;
      if t != TypeOf(call.w) {
        NotOfType(flushed, t, m.id);
      }
      var c := CloseRecords(s, m.id, m.nWriters, m.appStatus);
      ContentsConcat(flushed, c, t, m.id);
      ClosingContents(s, m.id, m.nWriters, m.appStatus, t);
      assert s.pending + [] == s.pending;
    }
  }

  lemma FlushSends(w: Stream, id: nat)
    requires w.Valid() && id < 0x10000
    ensures forall r :: r in Framing.Flush(w, id).records ==> r.rtype == w.rtype
    ensures Framing.Flush(w, id).stream.pending == []
  {
  }

  lemma ClosingContents(w: Stream, id: nat, nWriters: int, appStatus: int, t: byte)
    requires w.Valid() && id < 0x10000 && t != END_REQUEST
    ensures Contents(CloseRecords(w, id, nWriters, appStatus), t, id) == []
  {
    hide Contents, Encode;
    NotOfType(CloseRecords(w, id, nWriters, appStatus), t, id);
  }

  lemma FlushContents(w: Stream, id: nat)
    requires w.Valid() && id < 0x10000
    ensures Contents(Framing.Flush(w, id).records, w.rtype, id) == w.pending
  {
    hide Encode;
    ContentsNone(w.rtype, id);
    if w.pending != [] {
      ContentsCons(DataRecord(w.rtype, id, w.pending), [], w.rtype, id);
    }
  }

  /** Over any run: the contents of a stream's records, followed by what is still
      buffered, are the bytes put on it before it was closed. */
  lemma {:induction false} RunConserves(m: Output, calls: seq<Call>, w: Which)
    requires m.Ready()
    ensures Bytes(Run(m, calls), w) == Bytes(m, w) + (if m.Of(w).closed then [] else Accepted(w, calls))
    decreases |calls|
  {
    hide Apply, Bytes;
    if calls != [] {
      ApplyConserves(m, calls[0], w);
      RunConserves(Apply(m, calls[0]), calls[1..], w);
    }
  }

  // ---- The shape of the output. ----

  function OfType(rs: seq<Record>, rtype: byte): seq<Record> {
    if rs == [] then []
    else (if rs[0].rtype == rtype then [rs[0]] else []) + OfType(rs[1..], rtype)
  }

  lemma {:induction false} OfTypeConcat(a: seq<Record>, b: seq<Record>, rtype: byte)
    ensures OfType(a + b, rtype) == OfType(a, rtype) + OfType(b, rtype)
  {
    if a == [] {
      assert a + b == b;
    } else {
      OfTypeConcat(a[1..], b, rtype);
      assert (a + b)[1..] == a[1..] + b;
      var first := if a[0].rtype == rtype then [a[0]] else [];
      ConcatAssociates(first, OfType(a[1..], rtype), OfType(b, rtype));
    }
  }

  lemma {:induction false} OfTypeAll(rs: seq<Record>, rtype: byte, t: byte)
    requires forall r :: r in rs ==> r.rtype == rtype
    ensures OfType(rs, t) == if t == rtype then rs else []
  {
    if rs != [] {
      assert rs[0] in rs;
      OfTypeAll(rs[1..], rtype, t);
      assert rs == [rs[0]] + rs[1..];
    }
  }

  // The records of one stream: data only while it is open; once closed, data and one
  // empty record. An error stream has the empty record only behind data.
  predicate StreamLog(rs: seq<Record>, w: Stream, id: nat)
    requires id < 0x10000
  {
    if !w.closed then DataOf(rs, w.rtype, id) && (w.written <==> rs != [])
    else if rs == [] then w.rtype == STDERR
    else
      && rs[|rs| - 1] == EofRecord(w.rtype, id) && DataOf(rs[..|rs| - 1], w.rtype, id)
      && (w.rtype == STDERR ==> |rs| > 1)
  }

  // Records of the request, of the three types it sends.
  predicate OfRequest(log: seq<Record>, id: nat) {
    forall r :: r in log ==> r.id == id && (r.rtype == STDOUT || r.rtype == STDERR || r.rtype == END_REQUEST)
  }

  /** The shape every reachable output has. */
  predicate Inv(m: Output)
  {
    && m.Ready()
    && m.nWriters == (if m.out.closed then 0 else 1) + (if m.err.closed then 0 else 1)
    && StreamLog(OfType(m.log, STDOUT), m.out, m.id)
    && StreamLog(OfType(m.log, STDERR), m.err, m.id)
    && OfRequest(m.log, m.id)
    && (if m.nWriters > 0 then OfType(m.log, END_REQUEST) == []
        else m.log != [] && OfType(m.log, END_REQUEST) == [m.log[|m.log| - 1]])
  }

  lemma StartInv(id: nat, outCapacity: nat, errCapacity: nat, appStatus: int)
    requires Start(id, outCapacity, errCapacity, appStatus).Ready()
    ensures Inv(Start(id, outCapacity, errCapacity, appStatus))
  {
  }

  // Sending data records of an open stream keeps the shape.
  lemma SendData(m: Output, w: Which, stream: Stream, rs: seq<Record>)
    requires Inv(m) && !m.Of(w).closed && !stream.closed && DataOf(rs, TypeOf(w), m.id)
    requires stream.Valid() && stream.rtype == TypeOf(w)
    requires stream.written == (m.Of(w).written || rs != [])
    ensures Inv(m.With(w, stream).(log := m.log + rs))
  {
    hide Encode, OfType;
    forall t: byte ensures OfType(m.log + rs, t) == if t == TypeOf(w) then OfType(m.log, t) + rs else OfType(m.log, t) {
      OfTypeConcat(m.log, rs, t);
      OfTypeAll(rs, TypeOf(w), t);
      assert OfType(m.log, t) + [] == OfType(m.log, t);
    }
  }

  // The closing records of a stream whose buffer is empty.
  lemma SendClosing(m: Output, w: Which)
    requires Inv(m) && !m.Of(w).closed && m.Of(w).pending == []
    ensures Inv(m.With(w, m.Of(w).(written := true, closed := true))
                 .(log := m.log + CloseRecords(m.Of(w), m.id, m.nWriters, m.appStatus), nWriters := m.nWriters - 1))
  {
    hide Encode, OfType, StreamLog, EofRecord, EndRecord, OfRequest;
    var t := TypeOf(w);
    var eof := if t == STDERR && !m.Of(w).written then [] else [EofRecord(t, m.id)];
    var end := if m.nWriters == 1 then [EndRecord(m.id, m.appStatus)] else [];
    ClosingParts(m.log, t, m.Of(w).written, m.id, m.nWriters, m.appStatus);
    ClosedLog(OfType(m.log, t), eof, m.Of(w), m.id);
    assert CloseRecords(m.Of(w), m.id, m.nWriters, m.appStatus) == eof + end;
    ClosedRest(m, w, eof, end);
  }

  // What the closing records do to the records of each type.
  lemma ClosingParts(log: seq<Record>, t: byte, written: bool, id: nat, nWriters: int, appStatus: int)
    requires (t == STDOUT || t == STDERR) && id < 0x10000 && OfRequest(log, id)
    ensures var eof := if t == STDERR && !written then [] else [EofRecord(t, id)];
            var end := if nWriters == 1 then [EndRecord(id, appStatus)] else [];
            var all := log + (eof + end);
            && OfRequest(all, id)
            && OfType(all, STDOUT) == (if t == STDOUT then OfType(log, STDOUT) + eof else OfType(log, STDOUT))
            && OfType(all, STDERR) == (if t == STDERR then OfType(log, STDERR) + eof else OfType(log, STDERR))
            && OfType(all, END_REQUEST) == OfType(log, END_REQUEST) + end
  {
    hide Encode, OfType, EofRecord, EndRecord;
    var eof := if t == STDERR && !written then [] else [EofRecord(t, id)];
    var end := if nWriters == 1 then [EndRecord(id, appStatus)] else [];
    ClosingTypes(t, id, appStatus);
    ClosingOfType(log, eof, end, t, STDOUT);
    ClosingOfType(log, eof, end, t, STDERR);
    ClosingOfType(log, eof, end, t, END_REQUEST);
  }

  // The other stream and the end of the request, when w is closed.
  lemma ClosedRest(m: Output, w: Which, eof: seq<Record>, end: seq<Record>)
    requires Inv(m) && !m.Of(w).closed
    requires (m.nWriters == 1 ==> |end| == 1) && (m.nWriters != 1 ==> end == [])
    ensures m.nWriters == 1 || m.nWriters == 2
    ensures m.nWriters == 1 ==> m.Of(if w.Out? then Err else Out).closed && OfType(m.log, END_REQUEST) == []
    ensures m.nWriters == 1 ==> (m.log + (eof + end))[|m.log + (eof + end)| - 1] == end[0]
  {
    hide OfType, StreamLog, OfRequest;
  }

  lemma ClosingTypes(t: byte, id: nat, appStatus: int)
    requires id < 0x10000
    ensures EofRecord(t, id).rtype == t && EofRecord(t, id).id == id
    ensures EndRecord(id, appStatus).rtype == END_REQUEST && EndRecord(id, appStatus).id == id
  {
  }

  lemma ClosingOfType(log: seq<Record>, eof: seq<Record>, end: seq<Record>, t: byte, u: byte)
    requires forall r :: r in eof ==> r.rtype == t
    requires forall r :: r in end ==> r.rtype == END_REQUEST
    requires t != END_REQUEST
    ensures OfType(log + (eof + end), u) ==
            if u == t then OfType(log, u) + eof else if u == END_REQUEST then OfType(log, u) + end else OfType(log, u)
  {
    hide OfType;
    OfTypeConcat(log, eof + end, u);
    OfTypeConcat(eof, end, u);
    OfTypeAll(eof, t, u);
    OfTypeAll(end, END_REQUEST, u);
    assert OfType(log, u) + [] == OfType(log, u) && OfType(eof, u) + [] == OfType(eof, u)
           && [] + OfType(end, u) == OfType(end, u);
  }

  lemma ClosedLog(rs: seq<Record>, eof: seq<Record>, w: Stream, id: nat)
    requires id < 0x10000 && !w.closed && StreamLog(rs, w, id)
    requires eof == if w.rtype == STDERR && !w.written then [] else [EofRecord(w.rtype, id)]
    ensures StreamLog(rs + eof, w.(written := true, closed := true), id)
  {
    hide Encode;
    if eof != [] {
      assert (rs + eof)[..|rs + eof| - 1] == rs;
    }
  }

  lemma ApplyInv(m: Output, call: Call)
    requires Inv(m)
    ensures Inv(Apply(m, call))
  {
    hide Encode, OfType, StreamLog, Framing.Put;
    if call.SetExitStatus? {
      return;
    }
    var w := m.Of(call.w);
    if w.closed {
      assert m.log + [] == m.log;
    } else if call.Put? {
      PutSendsData(w, m.id, call.s);
      var f := Framing.Put(w, m.id, call.s);
      SendData(m, call.w, f.stream, f.records);
    } else {
      var f := Framing.Flush(w, m.id);
      SendData(m, call.w, f.stream, f.records);
      if call.Close? {
        var m' := m.With(call.w, f.stream).(log := m.log + f.records);
        SendClosing(m', call.w);
        ConcatAssociates(m.log, f.records, CloseRecords(w, m.id, m.nWriters, m.appStatus));
      }
    }
  }

  /** The shape holds after every run: data records only, until the stream's one EOF
      record; one END_REQUEST, after everything else, once both streams are closed. */
  lemma {:induction false} RunInv(m: Output, calls: seq<Call>)
    requires Inv(m)
    ensures Inv(Run(m, calls))
    decreases |calls|
  {
    hide Apply, OfType, StreamLog;
    if calls != [] {
      ApplyInv(m, calls[0]);
      RunInv(Apply(m, calls[0]), calls[1..]);
    }
  }

  // A stream is closed by its Close and stays so.
  lemma {:induction false} RunCloses(m: Output, calls: seq<Call>, w: Which)
    requires m.Ready()
    ensures Run(m, calls).Of(w).closed <==> m.Of(w).closed || Close(w) in calls
    decreases |calls|
  {
    hide Framing.Put, Framing.Flush, Framing.CloseRecords;
    if calls != [] {
      RunCloses(Apply(m, calls[0]), calls[1..], w);
      assert calls == [calls[0]] + calls[1..];
    }
  }

  // The contents of a stream are those of its own records.
  lemma {:induction false} ContentsOfType(rs: seq<Record>, t: byte, id: nat)
    ensures Contents(OfType(rs, t), t, id) == Contents(rs, t, id)
  {
    if rs != [] {
      ContentsOfType(rs[1..], t, id);
      if rs[0].rtype == t {
        ContentsCons(rs[0], OfType(rs[1..], t), t, id);
      } else {
        assert OfType(rs, t) == OfType(rs[1..], t);
      }
    }
  }

  // Data records have contents.
  lemma DataHasContents(rs: seq<Record>, t: byte, id: nat)
    requires rs != [] && rs[0].rtype == t && rs[0].id == id && rs[0].content != []
    ensures Contents(rs, t, id) != []
  {
  }

  // The end of a stream whose records are rs and on which got has been put.
  lemma StreamEnd(rs: seq<Record>, w: Stream, id: nat, got: seq<byte>)
    requires id < 0x10000 && w.Valid() && StreamLog(rs, w, id) && Contents(rs, w.rtype, id) + w.pending == got
    ensures var data := if w.closed && rs != [] then rs[..|rs| - 1] else rs;
            (forall r :: r in data ==> r.content != []) && (got == [] ==> data == [])
    ensures w.closed ==>
              if w.rtype == STDERR && got == [] then rs == []
              else rs != [] && rs[|rs| - 1] == Record(w.rtype, id, [], [])
  {
    hide Encode, Contents;
    var data := if w.closed && rs != [] then rs[..|rs| - 1] else rs;
    ContentsNone(w.rtype, id);
    if data != [] {
      assert rs[0] == data[0] && data[0] in data;
      DataHasContents(rs, w.rtype, id);
    }
  }

  /** The end of each stream, from the calls alone: a stream that its client has not closed
      has no empty record; one that has been closed ends with its only empty record, unless
      it is the error stream and nothing was put on it, of which there is no record at all. */
  lemma StreamEnds(m: Output, calls: seq<Call>, w: Which)
    requires Inv(m) && m.log == [] && !m.Of(w).closed && m.Of(w).pending == []
    ensures var rs := OfType(Run(m, calls).log, if w.Out? then 6 else 7);
            var data := if Close(w) in calls && rs != [] then rs[..|rs| - 1] else rs;
            && (forall r :: r in data ==> r.content != [])
            && (Accepted(w, calls) == [] ==> data == [])
            && (Close(w) in calls ==>
                  if w.Err? && Accepted(w, calls) == [] then rs == []
                  else rs != [] && rs[|rs| - 1] == Record(if w.Out? then 6 else 7, m.id, [], []))
  {
    hide Run, OfType, Accepted, OfRequest, Encode, StreamLog, Contents;
    var r, t := Run(m, calls), TypeOf(w);
    var rs := OfType(r.log, t);
    RunInv(m, calls);
    RunCloses(m, calls, w);
    RunConserves(m, calls, w);
    ContentsNone(t, m.id);
    ContentsOfType(r.log, t, m.id);
    assert Bytes(m, w) == [] && [] + Accepted(w, calls) == Accepted(w, calls);
    StreamEnd(rs, r.Of(w), m.id, Accepted(w, calls));
  }

  /** The exit status when the last open stream is closed; None if that does not happen. */
  function FinalStatus(outOpen: bool, errOpen: bool, status: int, calls: seq<Call>): Option<int>
    decreases |calls|
  {
    if calls == [] then None
    else match calls[0]
      case SetExitStatus(n) => FinalStatus(outOpen, errOpen, n, calls[1..])
      case Close(Out) => if outOpen && !errOpen then Some(status) else FinalStatus(false, errOpen, status, calls[1..])
      case Close(Err) => if errOpen && !outOpen then Some(status) else FinalStatus(outOpen, false, status, calls[1..])
      case _ => FinalStatus(outOpen, errOpen, status, calls[1..])
  }

  lemma {:induction false} RunAfterEnd(m: Output, calls: seq<Call>)
    requires m.Ready() && m.out.closed && m.err.closed
    ensures Run(m, calls).log == m.log && Run(m, calls).out.closed && Run(m, calls).err.closed
    decreases |calls|
  {
    if calls != [] {
      assert m.log + [] == m.log;
      RunAfterEnd(Apply(m, calls[0]), calls[1..]);
    }
  }

  // What one call does to the flags that decide about the end of the request.
  lemma ApplyEnds(m: Output, call: Call)
    requires Inv(m) && m.nWriters > 0
    ensures var r := Apply(m, call);
            && r.out.closed == (m.out.closed || call == Close(Out))
            && r.err.closed == (m.err.closed || call == Close(Err))
            && r.appStatus == (if call.SetExitStatus? then call.status else m.appStatus)
            && (r.out.closed && r.err.closed ==> r.log != [] && r.log[|r.log| - 1] == EndRecord(m.id, m.appStatus))
  {
    hide OfType, StreamLog, Encode, Framing.Put, Framing.Flush;
  }

  /** The request ends when both streams have been closed, in either order and however
      often; its END_REQUEST record, the last of the output, carries the exit status set
      last before that. */
  lemma {:induction false} RunEnds(m: Output, calls: seq<Call>)
    requires Inv(m) && m.nWriters > 0
    ensures var end := FinalStatus(!m.out.closed, !m.err.closed, m.appStatus, calls);
            var r := Run(m, calls);
            && (end.Some? <==> r.out.closed && r.err.closed)
            && (end.Some? ==> r.log != [] && r.log[|r.log| - 1] == EndRecord(m.id, end.value))
    decreases |calls|
  {
    hide OfType, StreamLog, Encode, Apply;
    if calls != [] {
      var m' := Apply(m, calls[0]);
      ApplyInv(m, calls[0]);
      ApplyEnds(m, calls[0]);
      if m'.nWriters > 0 {
        RunEnds(m', calls[1..]);
      } else {
        RunAfterEnd(m', calls[1..]);
      }
    }
  }
}
