/** Streams that break off or go wrong before their end record, and what FCGX_Accept_r
    makes of a request to which that happens among its parameters. */
module CutOff {
  import opened Protocol
  import opened Pairs
  import opened Scan
  import opened Delivery
  import opened Accept

  // A record of which the content or padding has not arrived in full.
  lemma ShortRecord(c: Context, p: Position, s: seq<byte>)
    requires |s| < p.content + p.padding
    ensures ScanStream(c, p, s) ==
            Outcome([], [], Fail(PROTOCOL_ERROR)).Behind(if p.skip then [] else s[..Min(p.content, |s|)])
  {
    if s != [] && p.content > 0 && !p.skip {
      var k := Min(p.content, |s|);
      assert ScanStream(c, p.(content := p.content - k), s[k..]) == Outcome([], [], Fail(PROTOCOL_ERROR));
    } else {
      assert s[..0] == [];
      BehindTwice(Outcome([], [], Fail(PROTOCOL_ERROR)), [], []);
    }
  }

  // The same for the nested scan of a management record.
  lemma ShortQuery(p: Position, s: seq<byte>)
    requires |s| < p.content + p.padding
    ensures ScanRecord(p, s).end == Fail(PROTOCOL_ERROR)
  {
    if s != [] && p.content > 0 && !p.skip {
      var k := Min(p.content, |s|);
      assert ScanRecord(p.(content := p.content - k), s[k..]).end == Fail(PROTOCOL_ERROR);
    }
  }

  /** What the client has got of a record that is cut off after k bytes. */
  function Arrived(c: Context, r: Record, k: nat): seq<byte> {
    if r.rtype == c.rtype && r.id == c.requestId && k > HEADER_LEN then
      r.content[..Min(k - HEADER_LEN, |r.content|)]
    else []
  }

  // The head of a record that is cut off.
  lemma AtCutRecord(c: Context, r: Record, k: nat)
    requires HEADER_LEN <= k <= |Encode(r)|
    ensures ScanStream(c, START, Encode(r)[..k]) ==
            Continue(c, React(c, Header(VERSION_1, r.rtype, r.id, |r.content|, |r.padding|), false,
                              (r.content + r.padding)[..k - HEADER_LEN]))
  {
    hide React, ParseHeader, Encode;
    EncodeParts(r, []);
    assert Encode(r) + [] == Encode(r);
    var s := Encode(r)[..k];
    assert s[..HEADER_LEN] == Encode(r)[..HEADER_LEN];
    assert s[HEADER_LEN..] == Encode(r)[HEADER_LEN..][..k - HEADER_LEN];
    assert r.content + r.padding + [] == r.content + r.padding;
    assert s[0..] == s;
    assert ScanStream(c, START, s) == ScanHeader(c, false, s);
  }

  lemma CutHeader(c: Context, s: seq<byte>)
    requires |s| < HEADER_LEN
    ensures ScanStream(c, START, s) == Outcome([], [], Fail(PROTOCOL_ERROR))
  {
    assert s[0..] == s;
  }

  // One routine record, cut off anywhere.
  lemma CutRecord(c: Context, r: Record, k: nat)
    requires Serving(c) && k < |Encode(r)| && (Routine(c, r) || k < HEADER_LEN)
    ensures var o := ScanStream(c, START, Encode(r)[..k]);
            o.data == Arrived(c, r, k) && o.end == Fail(PROTOCOL_ERROR)
  {
    hide ScanStream, ScanRecord, ReadPairs, ReplyDefined, Encode;
    if k < HEADER_LEN {
      CutHeader(c, Encode(r)[..k]);
    } else {
      AtCutRecord(c, r, k);
      var s := (r.content + r.padding)[..k - HEADER_LEN];
      var p := Position(|r.content|, |r.padding|, false);
      ShortRecord(c, p, s);
      ShortRecord(c, p.(skip := true), s);
      ShortQuery(p, s);
      assert s[..Min(|r.content|, |s|)] == r.content[..Min(k - HEADER_LEN, |r.content|)];
    }
  }

  // A routine record that is the last thing to arrive.
  lemma LastRecord(c: Context, r: Record)
    requires Serving(c) && Routine(c, r)
    ensures var o := ScanStream(c, START, Encode(r)); o.data == Payload(c, r) && o.end == Fail(PROTOCOL_ERROR)
  {
    hide ScanStream, Encode, ReadPairs, ReplyDefined, GetValuesReply;
    CutHeader(c, []);
    assert Encode(r) + [] == Encode(r);
    if IsStreamData(c, r) {
      StreamDataPasses(c, r, []);
      assert r.content + [] == r.content;
    } else if IsForeign(c, r) {
      ForeignScan(c, r, []);
    } else if IsExtraBegin(r) {
      ExtraBeginPasses(c, r, []);
    } else if IsValuesQuery(r) {
      ValuesQueryPasses(c, r, []);
    } else {
      OtherManagementPasses(c, r, []);
    }
  }

  /** The law of a broken stream: the client gets the contents of its own records as far
      as they have arrived, and then a protocol error. */
  lemma {:induction false} StreamCutOff(c: Context, rs: seq<Record>, r: Record, k: nat)
    requires Serving(c) && forall q :: q in rs ==> Routine(c, q)
    requires k < |Encode(r)| && (Routine(c, r) || k < HEADER_LEN)
    ensures var o := ScanStream(c, START, EncodeAll(rs) + Encode(r)[..k]);
            o.data == Contents(rs, c.rtype, c.requestId) + Arrived(c, r, k) && o.end == Fail(PROTOCOL_ERROR)
  {
    hide ScanStream, Encode, ReplyTo, Routine;
    var part := Encode(r)[..k];
    if rs == [] {
      CutRecord(c, r, k);
      assert EncodeAll(rs) + part == part && [] + Arrived(c, r, k) == Arrived(c, r, k);
    } else {
      var q, s := rs[0], EncodeAll(rs[1..]) + part;
      ConcatAssociates(Encode(q), EncodeAll(rs[1..]), part);
      ConcatAssociates(Payload(c, q), Contents(rs[1..], c.rtype, c.requestId), Arrived(c, r, k));
      StreamCutOff(c, rs[1..], r, k);
      if s == [] {
        LastRecord(c, q);
        CutHeader(c, []);
        assert Encode(q) + s == Encode(q);
        assert Payload(c, q) + [] == Payload(c, q);
      } else {
        RoutinePasses(c, q, s);
      }
    }
  }

  /** A request whose connection breaks off among its parameters is accepted all the same
      exactly when the content that has arrived parses; the parameters are then those that
      have arrived. */
  lemma CutOffAccepted(stale: nat, id: nat, role: nat, keepConnection: bool, rs: seq<Record>, r: Record, k: nat)
    requires 0 < id < 0x10000 && RoleEntry(role).Some?
    requires var c := Context(false, PARAMS, id, true, 0);
             && (forall q :: q in rs ==> Routine(c, q))
             && k < |Encode(r)| && (Routine(c, r) || k < HEADER_LEN)
    ensures var c := Context(false, PARAMS, id, true, 0);
            var params := ReadPairs(Contents(rs, PARAMS, id) + Arrived(c, r, k));
            var e := Examine(stale, Encode(BeginRecord(id, role, keepConnection)) + (EncodeAll(rs) + Encode(r)[..k]));
            if params.ok then
              && e.Offered? && e.end == Fail(PROTOCOL_ERROR)
              && e.body == BeginBody(id, role, keepConnection) && e.params == [RoleEntry(role).value] + params.list
            else e == Rejected
  {
    hide ScanStream, Encode, EncodeAll, ReadPairs, Routine, Contents, Examine;
    var c := Context(false, PARAMS, id, true, 0);
    StreamCutOff(c, rs, r, k);
    OfferedRequest(stale, id, role, keepConnection, EncodeAll(rs) + Encode(r)[..k]);
  }

  /** Of a request whose parameters are the pairs ps: it is wrongly accepted, with the first
      few of them, exactly when the connection breaks off between two pairs. */
  lemma CutOffBetweenPairs(stale: nat, id: nat, role: nat, keepConnection: bool, rs: seq<Record>, r: Record, k: nat,
                           ps: seq<Pair>, n: nat)
    requires 0 < id < 0x10000 && RoleEntry(role).Some?
    requires var c := Context(false, PARAMS, id, true, 0);
             && (forall q :: q in rs ==> Routine(c, q))
             && k < |Encode(r)| && (Routine(c, r) || k < HEADER_LEN)
             && (forall p :: p in ps ==> Encodable(p)) && n <= |EncodePairs(ps)|
             && Contents(rs, PARAMS, id) + Arrived(c, r, k) == EncodePairs(ps)[..n]
    ensures var e := Examine(stale, Encode(BeginRecord(id, role, keepConnection)) + (EncodeAll(rs) + Encode(r)[..k]));
            && (e.Offered? <==> EndsBetween(ps, n))
            && (e.Offered? ==> e.end == Fail(PROTOCOL_ERROR) && e.params <= [RoleEntry(role).value] + Entries(ps))
  {
    hide Encode, EncodeAll, ReadPairs, Routine, Contents, Examine, EncodePairs, EndsBetween, Arrived;
    CutOffAccepted(stale, id, role, keepConnection, rs, r, k);
    PartParses(ps, n);
  }

  // ---- Parameters that end in another way than with their end record. ----

  // The stream of a request's parameters.
  function ParamsOf(id: nat): Context {
    Context(false, PARAMS, id, true, 0)
  }

  /** Of all connections that begin a request of a known role, with whatever bytes t behind:
      the request is accepted although its parameters have not ended if and only if their
      stream fails, for any reason, and the content before the failure parses. */
  lemma UnendedAccepted(stale: nat, id: nat, role: nat, keepConnection: bool, t: seq<byte>)
    requires 0 < id < 0x10000 && RoleEntry(role).Some?
    ensures var o := ScanStream(ParamsOf(id), START, t);
            var e := Examine(stale, Encode(BeginRecord(id, role, keepConnection)) + t);
            && (e.Offered? && e.end.Fail? <==> o.end.Fail? && ReadPairs(o.data).ok)
            && (e.Offered? ==> e.end == o.end)
  {
    hide ScanStream, Encode, ReadPairs, Examine;
    OfferedRequest(stale, id, role, keepConnection, t);
  }

  // The stream goes wrong at s, after nothing more for the client.
  predicate GoesWrong(c: Context, s: seq<byte>, error: int) {
    s != [] && ScanStream(c, START, s).data == [] && ScanStream(c, START, s).end == Fail(error)
  }

  lemma {:induction false} StreamGoesWrong(c: Context, rs: seq<Record>, s: seq<byte>, error: int)
    requires Serving(c) && (forall r :: r in rs ==> Routine(c, r)) && GoesWrong(c, s, error)
    ensures var o := ScanStream(c, START, EncodeAll(rs) + s);
            o.data == Contents(rs, c.rtype, c.requestId) && o.end == Fail(error)
  {
    hide ScanStream, Encode, ReplyTo, Routine;
    if rs == [] {
      assert EncodeAll(rs) + s == s;
    } else {
      ConcatAssociates(Encode(rs[0]), EncodeAll(rs[1..]), s);
      StreamGoesWrong(c, rs[1..], s, error);
      RoutinePasses(c, rs[0], EncodeAll(rs[1..]) + s);
    }
  }

  /** A record of the request that is of another stream. */
  lemma OtherTypeFails(c: Context, r: Record, more: seq<byte>)
    requires Serving(c) && r.id == c.requestId && r.rtype != c.rtype && r.rtype != BEGIN_REQUEST
    ensures GoesWrong(c, Encode(r) + more, PROTOCOL_ERROR)
  {
    hide ScanStream, Encode;
    AtRecord(c, r, more);
  }

  /** A BEGIN_REQUEST record without an id or of the wrong length. */
  lemma BadBeginFails(c: Context, r: Record, more: seq<byte>)
    requires Serving(c) && r.rtype == BEGIN_REQUEST && (r.id == NULL_REQUEST_ID || |r.content| != 8)
    ensures GoesWrong(c, Encode(r) + more, PROTOCOL_ERROR)
  {
    hide ScanStream, Encode;
    AtRecord(c, r, more);
  }

  /** A GET_VALUES record whose content is not whole pairs. */
  lemma BadQueryFails(c: Context, r: Record, more: seq<byte>)
    requires Serving(c) && r.rtype == GET_VALUES && r.id == NULL_REQUEST_ID && !ReadPairs(r.content).ok
    requires r.padding + more != []
    ensures GoesWrong(c, Encode(r) + more, PARAMS_ERROR)
  {
    hide ScanStream, ScanRecord, ReadPairs, Encode;
    AtRecord(c, r, more);
    WholeRecord(r.content, r.padding, more);
  }

  /** A header of another version of the protocol. */
  lemma OtherVersionFails(c: Context, s: seq<byte>)
    requires Serving(c) && |s| >= HEADER_LEN && s[0] != VERSION_1
    ensures GoesWrong(c, s, UNSUPPORTED_VERSION)
  {
    assert s[0..] == s;
    assert ScanStream(c, START, s) == ScanHeader(c, false, s);
  }

  /** A request whose parameters go wrong behind any routine records is accepted exactly
      when the parameters before that parse. */
  lemma GoneWrongAccepted(stale: nat, id: nat, role: nat, keepConnection: bool, rs: seq<Record>, s: seq<byte>,
                          error: int)
    requires 0 < id < 0x10000 && RoleEntry(role).Some?
    requires (forall r :: r in rs ==> Routine(ParamsOf(id), r)) && GoesWrong(ParamsOf(id), s, error)
    ensures var params := ReadPairs(Contents(rs, PARAMS, id));
            var e := Examine(stale, Encode(BeginRecord(id, role, keepConnection)) + (EncodeAll(rs) + s));
            if params.ok then
              && e.Offered? && e.end == Fail(error)
              && e.body == BeginBody(id, role, keepConnection) && e.params == [RoleEntry(role).value] + params.list
            else e == Rejected
  {
    hide ScanStream, Encode, EncodeAll, ReadPairs, Routine, Contents, Examine, GoesWrong;
    StreamGoesWrong(ParamsOf(id), rs, s, error);
    OfferedRequest(stale, id, role, keepConnection, EncodeAll(rs) + s);
  }

  /** At an input: STDIN data in place of the parameters' end record. */
  lemma StdinEndsParameters(stale: nat, id: nat, data: seq<byte>, more: seq<byte>)
    requires 0 < id < 0x10000 && |data| <= MAX_LENGTH
    ensures Examine(stale, Encode(BeginRecord(id, RESPONDER, false)) + (Encode(Record(STDIN, id, data, [])) + more)) ==
            Offered(BeginBody(id, RESPONDER, false), [ROLE_RESPONDER], Fail(PROTOCOL_ERROR), [])
  {
    hide ScanStream, Encode, Examine;
    var r: Record := Record(STDIN, id, data, []);
    AtRecord(ParamsOf(id), r, more);
    OfferedRequest(stale, id, RESPONDER, false, Encode(r) + more);
    assert [ROLE_RESPONDER] + [] == [ROLE_RESPONDER];
  }
}
