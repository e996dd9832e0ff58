/** A stream written by a Writer and read by a Reader: the bytes come back, with EOF
    after them, for every buffer size and every cutting of the connection. */
module RoundTrip {
  import opened Protocol
  import opened Scan
  import opened Delivery
  import opened Framing
  import opened Output

  /** A run of PutStr calls. */
  function PutAll(w: Stream, id: nat, puts: seq<seq<byte>>): (r: Framing.Step)
    requires w.Valid() && !w.closed && id < 0x10000
    ensures r.stream.Valid() && !r.stream.closed && r.stream.rtype == w.rtype
    decreases |puts|
  {
    if puts == [] then Step(w, [])
    else
      var f := Framing.Put(w, id, puts[0]);
      var r := PutAll(f.stream, id, puts[1..]);
      Step(r.stream, f.records + r.records)
  }

  /** The records of such a run and the FClose after it, when other writers stay open. */
  function WrittenBy(w: Stream, id: nat, puts: seq<seq<byte>>): seq<Record>
    requires w.Valid() && !w.closed && id < 0x10000
  {
    var r := PutAll(w, id, puts);
    r.records + Framing.Close(r.stream, id, 2, 0).records
  }

  lemma {:induction false} PutAllConserves(w: Stream, id: nat, puts: seq<seq<byte>>)
    requires w.Valid() && !w.closed && id < 0x10000
    ensures var r := PutAll(w, id, puts);
            && DataOf(r.records, w.rtype, id)
            && r.stream.written == (w.written || r.records != [])
            && Contents(r.records, w.rtype, id) + r.stream.pending == w.pending + Flatten(puts)
    decreases |puts|
  {
    hide Framing.Put, Contents, Encode;
    if puts == [] {
      ContentsNone(w.rtype, id);
      assert w.pending + [] == w.pending;
    } else {
      var f := Framing.Put(w, id, puts[0]);
      PutSendsData(w, id, puts[0]);
      PutConserves(w, id, puts[0]);
      PutAllConserves(f.stream, id, puts[1..]);
      var r := PutAll(f.stream, id, puts[1..]);
      ContentsConcat(f.records, r.records, w.rtype, id);
      var a, b := Contents(f.records, w.rtype, id), Contents(r.records, w.rtype, id);
      ConcatAssociates(a, b, r.stream.pending);
      ConcatAssociates(a, f.stream.pending, Flatten(puts[1..]));
      ConcatAssociates(w.pending, puts[0], Flatten(puts[1..]));
    }
  }

  /** Whatever is put on a stream in pieces of any sizes and then closed is exactly what
      its reader gets, followed by EOF, with nothing of what comes later consumed. Only an
      error stream to which nothing was ever written has no EOF. */
  lemma StreamRoundTrip(c: Context, w: Stream, puts: seq<seq<byte>>, more: seq<byte>)
    requires Serving(c) && w.Valid() && !w.closed && w.pending == []
    requires w.rtype == c.rtype && (c.rtype == STDERR ==> w.written || Flatten(puts) != [])
    ensures ScanStream(c, START, EncodeAll(WrittenBy(w, c.requestId, puts)) + more)
         == Outcome([], [], Eof(false, 0, more)).Behind(Flatten(puts))
  {
    hide ScanStream, Encode, Contents, PutAll, Routine, RepliesTo, LateReplies, Flatten;
    var id := c.requestId;
    var r := PutAll(w, id, puts);
    PutAllConserves(w, id, puts);
    var flushed := Framing.Flush(r.stream, id).records;
    FlushContents(r.stream, id);
    var rs, last := r.records + flushed, EofRecord(c.rtype, id);
    ContentsConcat(r.records, flushed, c.rtype, id);
    assert [] + Flatten(puts) == Flatten(puts);
    assert WrittenBy(w, id, puts) == rs + [last];
    EncodeAllSnoc(rs, last);
    ConcatAssociates(EncodeAll(rs), Encode(last), more);
    assert DataOf(rs, c.rtype, id);
    DataRoutine(c, rs);
    StreamDelivered(c, rs, last, more);
    assert [] + more == more && Flatten(puts) + [] == Flatten(puts);
    assert Same(|Flatten(puts)|, 0) + [] == Same(|Flatten(puts)|, 0);
  }
}
