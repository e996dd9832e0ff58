/** What the CGI bridge makes of the application's output, on one flat byte string, and
    the proof that it separates the two streams of every run. */
module Demux {
  import opened Protocol
  import opened Framing
  import opened Output
  import Scan

  /** How the bridge's reading ends: by the program's exit, or with the exit status of an
      END_REQUEST record and the bytes after that record. */
  datatype End = Exit(code: int) | Ended(status: int, rest: seq<byte>)

  datatype Outcome = Outcome(stdout: seq<byte>, stderr: seq<byte>, end: End)

  /** Unread part of the record being read; the type matters only while there is some. */
  datatype Position = Position(rtype: byte, content: nat, padding: nat)

  const HANGUP := Outcome([], [], Exit(Scan.PROTOCOL_ERROR))

  function StatusOf(body: seq<byte>): int
    requires |body| == 8
  {
    (body[0] as int) * 0x1000000 + (body[1] as int) * 0x10000 + (body[2] as int) * 0x100 + body[3] as int
  }

  function Prepend(rtype: byte, s: seq<byte>, o: Outcome): Outcome {
    if rtype == STDOUT then o.(stdout := s + o.stdout) else o.(stderr := s + o.stderr)
  }

  // At the body of an END_REQUEST record whose header named contentLength and padding. The
  // padding need not arrive.
  function AtEnd(contentLength: nat, padding: nat, s: seq<byte>): Outcome {
    if contentLength != 8 || |s| < 8 || s[4] != REQUEST_COMPLETE then HANGUP
    else Outcome([], [], Ended(StatusOf(s[..8]), s[Min(8 + padding, |s|)..]))
  }

  /** Everything the bridge will write to its standard output and error for the bytes s
      of request id, and how it ends; the connection is closed after s. */
  function Demand(id: nat, p: Position, s: seq<byte>): Outcome
    decreases |s|, 1
  {
    var at := p.content + p.padding;
    if |s| < at then
      Prepend(p.rtype, s[..Min(p.content, |s|)], HANGUP)
    else
      Prepend(p.rtype, s[..p.content], AtBoundary(id, s[at..]))
  }

  function AtBoundary(id: nat, s: seq<byte>): Outcome
    decreases |s|, 0
  {
    if |s| < HEADER_LEN then HANGUP
    else AfterHeader(id, ParseHeader(s[..HEADER_LEN]), s[HEADER_LEN..])
  }

  function AfterHeader(id: nat, h: Header, t: seq<byte>): Outcome
    decreases |t|, 2
  {
    if h.version != VERSION_1 then Outcome([], [], Exit(Scan.UNSUPPORTED_VERSION))
    else if h.requestId != id then HANGUP
    else if h.rtype == STDOUT || h.rtype == STDERR then
      Demand(id, Position(h.rtype, h.contentLength, h.paddingLength), t)
    else if h.rtype == END_REQUEST then AtEnd(h.contentLength, h.paddingLength, t)
    else HANGUP
  }

  // Content, padding and the end of a record, as far as they have arrived.

  lemma PrependTwice(rtype: byte, a: seq<byte>, b: seq<byte>, o: Outcome)
    ensures Prepend(rtype, a, Prepend(rtype, b, o)) == Prepend(rtype, a + b, o)
  {
    ConcatAssociates(a, b, o.stdout);
    ConcatAssociates(a, b, o.stderr);
  }

  lemma ContentDemanded(id: nat, p: Position, s: seq<byte>, k: nat)
    requires k <= |s| && k <= p.content
    ensures Demand(id, p, s) == Prepend(p.rtype, s[..k], Demand(id, p.(content := p.content - k), s[k..]))
  {
    hide AtBoundary, Prepend;
    var at := p.content + p.padding;
    var m := Min(p.content, |s|);
    assert s[k..][..m - k] == s[k..m] && s[..k] + s[k..m] == s[..m];
    if |s| >= at {
      assert s[k..][at - k..] == s[at..];
      PrependTwice(p.rtype, s[..k], s[k..m], AtBoundary(id, s[at..]));
    } else {
      PrependTwice(p.rtype, s[..k], s[k..m], HANGUP);
    }
  }

  lemma PaddingDemanded(id: nat, p: Position, s: seq<byte>, k: nat)
    requires p.content == 0 && k <= |s| && k <= p.padding
    ensures Demand(id, p, s) == Demand(id, p.(padding := p.padding - k), s[k..])
  {
    hide AtBoundary;
    if |s| >= p.padding {
      assert s[k..][p.padding - k..] == s[p.padding..];
    }
    assert s[..0] == [] && s[k..][..0] == [];
  }

  lemma RecordDone(id: nat, p: Position, s: seq<byte>)
    requires p.content == 0 && p.padding == 0
    ensures Demand(id, p, s) == AtBoundary(id, s)
  {
    hide AtBoundary;
    assert s[0..] == s && s[..0] == [];
    var o := AtBoundary(id, s);
    assert [] + o.stdout == o.stdout && [] + o.stderr == o.stderr;
  }

  lemma RecordDemanded(id: nat, r: Record, t: seq<byte>)
    requires r.id == id && (r.rtype == STDOUT || r.rtype == STDERR)
    ensures AtBoundary(id, Encode(r) + t) == Prepend(r.rtype, r.content, AtBoundary(id, t))
  {
    hide Encode, ParseHeader;
    var s := Encode(r) + t;
    EncodeParts(r, t);
    var u := r.content + r.padding + t;
    assert u[..|r.content|] == r.content && u[|r.content| + |r.padding|..] == t;
    var h := Header(VERSION_1, r.rtype, r.id, |r.content|, |r.padding|);
    assert AtBoundary(id, s) == AfterHeader(id, h, u);
    assert AfterHeader(id, h, u) == Demand(id, Position(r.rtype, |r.content|, |r.padding|), u);
  }

  lemma EndDemanded(id: nat, appStatus: int)
    requires id < 0x10000
    ensures AtBoundary(id, Encode(EndRecord(id, appStatus))) == Outcome([], [], Ended(appStatus % 0x100000000, []))
  {
    hide Encode, ParseHeader;
    var r := EndRecord(id, appStatus);
    EncodeParts(r, []);
    assert Encode(r) + [] == Encode(r);
    var t := r.content + r.padding + [];
    assert t == r.content && t[..8] == r.content && t[8..] == [];
    StatusBytes(appStatus);
  }

  lemma StatusBytes(n: int)
    ensures StatusOf(MakeEndRequestBody(n, REQUEST_COMPLETE)) == n % 0x100000000
  {
    var n1, n2, n3 := n / 0x100, n / 0x10000, n / 0x1000000;
    assert n == n1 * 0x100 + n % 0x100;
    assert n2 == n1 / 0x100 && n1 == n2 * 0x100 + n1 % 0x100;
    assert n3 == n2 / 0x100 && n2 == n3 * 0x100 + n2 % 0x100;
    var n4 := n3 / 0x100;
    assert n3 == n4 * 0x100 + n3 % 0x100;
    var v := n3 % 0x100 * 0x1000000 + n2 % 0x100 * 0x10000 + n1 % 0x100 * 0x100 + n % 0x100;
    assert n == n4 * 0x100000000 + v;
  }

  /** Stream records in any order and then END_REQUEST: each stream's contents come out
      in order on its own descriptor. */
  lemma {:induction false} RecordsDemanded(id: nat, rs: seq<Record>, appStatus: int)
    requires id < 0x10000
    requires forall r :: r in rs ==> r.id == id && (r.rtype == STDOUT || r.rtype == STDERR)
    ensures AtBoundary(id, EncodeAll(rs + [EndRecord(id, appStatus)])) ==
            Outcome(Contents(rs, STDOUT, id), Contents(rs, STDERR, id), Ended(appStatus % 0x100000000, []))
  {
    hide AtBoundary, Encode, EndRecord;
    var last := [EndRecord(id, appStatus)];
    if rs == [] {
      assert rs + last == last;
      EncodeAllOne(last[0]);
      EndDemanded(id, appStatus);
    } else {
      assert (rs + last)[1..] == rs[1..] + last;
      RecordDemanded(id, rs[0], EncodeAll(rs[1..] + last));
      RecordsDemanded(id, rs[1..], appStatus);
    }
  }

  // ---- Output that goes wrong. ----

  /** Whatever follows whole stream records: their contents come out first. */
  lemma {:induction false} BehindRecords(id: nat, rs: seq<Record>, s: seq<byte>)
    requires forall r :: r in rs ==> r.id == id && (r.rtype == STDOUT || r.rtype == STDERR)
    ensures var o := AtBoundary(id, s);
            AtBoundary(id, EncodeAll(rs) + s)
            == Outcome(Contents(rs, STDOUT, id) + o.stdout, Contents(rs, STDERR, id) + o.stderr, o.end)
  {
    hide AtBoundary, Encode;
    var o := AtBoundary(id, s);
    if rs == [] {
      assert EncodeAll(rs) + s == s && [] + o.stdout == o.stdout && [] + o.stderr == o.stderr;
    } else {
      ConcatAssociates(Encode(rs[0]), EncodeAll(rs[1..]), s);
      RecordDemanded(id, rs[0], EncodeAll(rs[1..]) + s);
      BehindRecords(id, rs[1..], s);
      ConcatAssociates(rs[0].content, Contents(rs[1..], STDOUT, id), o.stdout);
      ConcatAssociates(rs[0].content, Contents(rs[1..], STDERR, id), o.stderr);
    }
  }

  /** A header of another version. */
  lemma OtherVersionExits(id: nat, s: seq<byte>)
    requires |s| >= HEADER_LEN && s[0] != 1
    ensures AtBoundary(id, s) == Outcome([], [], Exit(-2))
  {
  }

  /** A record of another request, of a type that is not for the bridge, or an END_REQUEST
      whose body is not of eight bytes or does not say that the request is complete. */
  lemma BadRecordExits(id: nat, r: Record, t: seq<byte>)
    requires r.id != id || (r.rtype != STDOUT && r.rtype != STDERR)
    requires r.id == id && r.rtype == END_REQUEST ==> |r.content| != 8 || r.content[4] != REQUEST_COMPLETE
    ensures AtBoundary(id, Encode(r) + t) == Outcome([], [], Exit(-3))
  {
    hide Encode, ParseHeader;
    EncodeParts(r, t);
    var u := r.content + r.padding + t;
    assert |r.content| == 8 ==> u[4] == r.content[4];
    var h := Header(VERSION_1, r.rtype, r.id, |r.content|, |r.padding|);
    assert AtBoundary(id, Encode(r) + t) == AfterHeader(id, h, u);
  }

  /** A connection that breaks off in a stream record, after k bytes of it: the content as
      far as it has arrived. */
  lemma BrokenOffExits(id: nat, r: Record, k: nat)
    requires r.id == id && (r.rtype == STDOUT || r.rtype == STDERR) && k < |Encode(r)|
    ensures var got := if k <= HEADER_LEN then [] else r.content[..Min(k - HEADER_LEN, |r.content|)];
            AtBoundary(id, Encode(r)[..k])
            == Outcome(if r.rtype == STDOUT then got else [], if r.rtype == STDERR then got else [], Exit(-3))
  {
    hide Encode, ParseHeader;
    if k >= HEADER_LEN {
      EncodeParts(r, []);
      assert Encode(r) + [] == Encode(r);
      var s, u := Encode(r)[..k], (r.content + r.padding)[..k - HEADER_LEN];
      assert s[..HEADER_LEN] == Encode(r)[..HEADER_LEN];
      assert r.content + r.padding + [] == r.content + r.padding;
      assert s[HEADER_LEN..] == Encode(r)[HEADER_LEN..][..k - HEADER_LEN] == u;
      assert u[..Min(|r.content|, |u|)] == r.content[..Min(k - HEADER_LEN, |r.content|)];
      assert AtBoundary(id, s) == Demand(id, Position(r.rtype, |r.content|, |r.padding|), u);
      assert forall x: seq<byte> :: x + [] == x;
    }
  }

  /** For every run of both writers that closes them: the bridge writes exactly the bytes
      put on the output stream to fd 1, those put on the error stream to fd 2, and ends
      with the exit status set last before the request's end, modulo 2^32. */
  lemma RunDemanded(m: Output, calls: seq<Call>)
    requires Inv(m) && m.log == [] && m.out.pending == [] && m.err.pending == []
    requires !m.out.closed && !m.err.closed
    requires FinalStatus(true, true, m.appStatus, calls).Some?
    ensures AtBoundary(m.id, EncodeAll(Run(m, calls).log)) ==
            Outcome(Accepted(Out, calls), Accepted(Err, calls),
                    Ended(FinalStatus(true, true, m.appStatus, calls).value % 0x100000000, []))
  {
    hide AtBoundary, Encode, StreamLog, Apply, Accepted, FinalStatus, OfType, Contents, MakeEndRequestBody;
    var r := Run(m, calls);
    var status := FinalStatus(true, true, m.appStatus, calls).value;
    RunInv(m, calls);
    RunEnds(m, calls);
    RunConserves(m, calls, Out);
    RunConserves(m, calls, Err);
    ContentsNone(STDOUT, m.id);
    ContentsNone(STDERR, m.id);
    var rs := r.log[..|r.log| - 1];
    assert r.log == rs + [EndRecord(m.id, status)];
    OnlyStreams(m, r, rs);
    RecordsDemanded(m.id, rs, status);
    assert [] + Accepted(Out, calls) == Accepted(Out, calls) && [] + Accepted(Err, calls) == Accepted(Err, calls);
    assert Contents(r.log, STDOUT, m.id) + [] == Contents(r.log, STDOUT, m.id);
    assert Contents(r.log, STDERR, m.id) + [] == Contents(r.log, STDERR, m.id);
    ContentsOfStreams(rs, m.id, status, STDOUT);
    ContentsOfStreams(rs, m.id, status, STDERR);
  }

  lemma ContentsOfStreams(rs: seq<Record>, id: nat, status: int, t: byte)
    requires id < 0x10000 && t != END_REQUEST
    ensures Contents(rs + [EndRecord(id, status)], t, id) == Contents(rs, t, id)
  {
    hide Contents;
    ContentsConcat(rs, [EndRecord(id, status)], t, id);
    ContentsNone(t, id);
    ContentsCons(EndRecord(id, status), [], t, id);
    assert [EndRecord(id, status)] + [] == [EndRecord(id, status)];
  }

  // Before its last record, the output of an ended request holds no END_REQUEST.
  lemma OnlyStreams(m: Output, r: Output, rs: seq<Record>)
    requires Inv(r) && r.nWriters == 0 && r.log == rs + [r.log[|r.log| - 1]]
    requires r.log[|r.log| - 1].rtype == END_REQUEST
    ensures forall q :: q in rs ==> q.id == r.id && (q.rtype == STDOUT || q.rtype == STDERR)
  {
    hide StreamLog, OfType;
    var last := r.log[|r.log| - 1];
    OfTypeConcat(rs, [last], END_REQUEST);
    OfTypeAll([last], END_REQUEST, END_REQUEST);
    assert |OfType(rs, END_REQUEST)| == 0;
    NoneOfType(rs, END_REQUEST);
    forall q | q in rs ensures q.id == r.id && (q.rtype == STDOUT || q.rtype == STDERR) {
      assert q in r.log;
    }
  }

  lemma {:induction false} NoneOfType(rs: seq<Record>, t: byte)
    requires OfType(rs, t) == []
    ensures forall q :: q in rs ==> q.rtype != t
  {
    if rs != [] {
      NoneOfType(rs[1..], t);
      assert rs == [rs[0]] + rs[1..];
    }
  }
}
