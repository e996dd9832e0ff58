/** Output streams on values: how the bytes put on a writer become records. The Writer
    class is proved to compute these functions; module Output proves what they are for. */
module Framing {
  import opened Protocol

  /** An output stream between calls: capacity is the content a full buffer holds, and
      written says that some record has been sent (it is true once the stream is closed). */
  datatype Stream = Stream(rtype: byte, capacity: nat, pending: seq<byte>, written: bool, closed: bool) {
    predicate Valid() {
      && 16 <= capacity <= MAX_LENGTH && capacity % 8 == 0
      && |pending| <= capacity
      && (closed ==> pending == [] && written)
    }
  }

  // The data record of a buffer's content, padded to a multiple of 8 bytes.
  function DataRecord(rtype: byte, id: nat, content: seq<byte>): (r: Record)
    requires id < 0x10000 && |content| <= MAX_LENGTH
    ensures |Encode(r)| % 8 == 0
  {
    Record(rtype, id, content, Zeros(AlignInt8(|content|) - |content|))
  }

  function EofRecord(rtype: byte, id: nat): Record
    requires id < 0x10000
  {
    Record(rtype, id, [], [])
  }

  function EndRecord(id: nat, appStatus: int): Record
    requires id < 0x10000
  {
    Record(END_REQUEST, id, MakeEndRequestBody(appStatus, REQUEST_COMPLETE), [])
  }

  /** Result of an operation: the new state and the records sent. */
  datatype Step = Step(stream: Stream, records: seq<Record>)

  function Put(w: Stream, id: nat, s: seq<byte>): (r: Step)
    requires w.Valid() && !w.closed && id < 0x10000
    ensures r.stream.Valid() && !r.stream.closed
    ensures r.stream.rtype == w.rtype && r.stream.capacity == w.capacity
    decreases |s|, |w.pending|
  {
    var room := w.capacity - |w.pending|;
    if |s| <= room then Step(w.(pending := w.pending + s), [])
    else
      var rest := Put(w.(pending := [], written := true), id, s[room..]);
      Step(rest.stream, [DataRecord(w.rtype, id, w.pending + s[..room])] + rest.records)
  }

  function Flush(w: Stream, id: nat): (r: Step)
    requires w.Valid() && id < 0x10000
    ensures r.stream.Valid() && r.stream.rtype == w.rtype && r.stream.closed == w.closed
  {
    if w.pending == [] then Step(w, [])
    else Step(w.(pending := [], written := true), [DataRecord(w.rtype, id, w.pending)])
  }

  // The records that close a stream: its EOF, unless it is an untouched error stream,
  // and the end of the request when it is the last stream open.
  function CloseRecords(w: Stream, id: nat, nWriters: int, appStatus: int): seq<Record>
    requires w.Valid() && id < 0x10000
  {
    (if w.rtype == STDERR && w.pending == [] && !w.written then [] else [EofRecord(w.rtype, id)])
    + (if nWriters == 1 then [EndRecord(id, appStatus)] else [])
  }

  function Close(w: Stream, id: nat, nWriters: int, appStatus: int): (r: Step)
    requires w.Valid() && id < 0x10000
    ensures r.stream.Valid() && r.stream.closed && r.stream.rtype == w.rtype
  {
    if w.closed then Step(w, [])
    else
      var records := Flush(w, id).records + CloseRecords(w, id, nWriters, appStatus);
      Step(Stream(w.rtype, w.capacity, [], true, true), records)
  }

  // Putting s in two steps: what fits goes to the buffer, a full buffer is sent.

  lemma PutAbsorbs(w: Stream, id: nat, s: seq<byte>, m: nat)
    requires w.Valid() && !w.closed && id < 0x10000
    requires m <= |s| && m <= w.capacity - |w.pending|
    ensures Put(w, id, s) == Put(w.(pending := w.pending + s[..m]), id, s[m..])
  {
    hide DataRecord;
    var room := w.capacity - |w.pending|;
    assert w.pending + s[..m] + s[m..] == w.pending + s;
    if |s| > room {
      assert s[m..][room - m..] == s[room..];
      assert s[..m] + s[m..][..room - m] == s[..room];
      assert w.pending + s[..m] + s[m..][..room - m] == w.pending + s[..room];
    }
  }

  lemma PutSends(w: Stream, id: nat, s: seq<byte>)
    requires w.Valid() && !w.closed && id < 0x10000
    requires |w.pending| == w.capacity && s != []
    ensures var f := Flush(w, id);
            var r := Put(f.stream, id, s);
            Put(w, id, s) == Step(r.stream, f.records + r.records)
  {
    hide DataRecord;
    assert s[0..] == s && w.pending + s[..0] == w.pending;
  }
}
