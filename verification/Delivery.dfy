/** What the flat scanner makes of whole records: which ones reach the client, which
    are answered, and which are invisible. */
module Delivery {
  import opened Protocol
  import opened Pairs
  import opened Scan

  /** A stream of an accepted request, without errors so far. */
  predicate Serving(c: Context) {
    c.begun && !c.eorStop && c.errno == 0 && 0 < c.requestId < 0x10000 && c.rtype != BEGIN_REQUEST
  }

  // The scan after a reaction to a header.
  function Continue(c: Context, r: Reaction): Outcome {
    match r
    case Stop(end) => Outcome([], [], end)
    case Go(reply, p, rest) => var o := ScanStream(c, p, rest); o.(replies := reply + o.replies)
  }

  // A record's scan starts with the reaction to its header.
  lemma AtRecord(c: Context, r: Record, t: seq<byte>)
    ensures ScanStream(c, START, Encode(r) + t) ==
            Continue(c, React(c, Header(VERSION_1, r.rtype, r.id, |r.content|, |r.padding|), false,
                              r.content + (r.padding + t)))
  {
    hide React, ParseHeader, Encode;
    var s := Encode(r) + t;
    EncodeParts(r, t);
    ConcatAssociates(r.content, r.padding, t);
    assert s[0..] == s;
    assert ScanStream(c, START, s) == ScanHeader(c, false, s);
  }

  // From inside a record to its end.

  lemma PastPadding(c: Context, padding: seq<byte>, t: seq<byte>)
    ensures ScanStream(c, Position(0, |padding|, false), padding + t) == ScanStream(c, START, t)
  {
    assert (padding + t)[|padding|..] == t;
    DropStream(c, Position(0, |padding|, false), padding + t, |padding|);
  }

  lemma PastContent(c: Context, content: seq<byte>, padding: seq<byte>, t: seq<byte>)
    ensures ScanStream(c, Position(|content|, |padding|, false), content + (padding + t)) ==
            ScanStream(c, START, t).Behind(content)
  {
    hide ScanStream;
    PastPadding(c, padding, t);
    var s := content + (padding + t);
    if content == [] {
      assert s == padding + t;
      BehindTwice(ScanStream(c, START, t), [], []);
    } else {
      DeliverStream(c, Position(|content|, |padding|, false), s, |content|);
      assert s[..|content|] == content && s[|content|..] == padding + t;
    }
  }

  lemma PastSkipped(c: Context, content: seq<byte>, padding: seq<byte>, t: seq<byte>)
    ensures ScanStream(c, Position(|content|, |padding|, true), content + (padding + t))
         == ScanStream(c, Position(0, 0, content == []), t)
  {
    hide ScanStream;
    var s := content + (padding + t);
    assert s[|content| + |padding|..] == t;
    DropStream(c, Position(|content|, |padding|, true), s, |content| + |padding|);
  }

  // The scan of t after a record that gives data to the client and reply to the peer.
  function After(c: Context, data: seq<byte>, reply: seq<byte>, t: seq<byte>): Outcome {
    var o := ScanStream(c, START, t).Behind(data);
    o.(replies := reply + o.replies)
  }

  // The kinds of record a server meets in the middle of a request's stream.

  predicate IsStreamData(c: Context, r: Record) {
    r.rtype == c.rtype && r.id == c.requestId && r.content != []
  }

  predicate IsForeign(c: Context, r: Record) {
    r.id != NULL_REQUEST_ID && r.id != c.requestId && r.rtype != BEGIN_REQUEST
  }

  predicate IsExtraBegin(r: Record) {
    r.rtype == BEGIN_REQUEST && r.id != NULL_REQUEST_ID && |r.content| == 8
  }

  predicate IsValuesQuery(r: Record) {
    && r.rtype == GET_VALUES && r.id == NULL_REQUEST_ID
    && var asked := ReadPairs(r.content); asked.ok && ReplyDefined(asked.list)
  }

  predicate IsOtherManagement(r: Record) {
    r.id == NULL_REQUEST_ID && r.rtype != GET_VALUES && r.rtype != BEGIN_REQUEST
  }

  lemma StreamDataPasses(c: Context, r: Record, t: seq<byte>)
    requires Serving(c) && IsStreamData(c, r)
    ensures ScanStream(c, START, Encode(r) + t) == After(c, r.content, [], t)
  {
    hide ScanStream;
    AtRecord(c, r, t);
    PastContent(c, r.content, r.padding, t);
    assert [] + ScanStream(c, START, t).replies == ScanStream(c, START, t).replies;
  }

  lemma ExtraBeginPasses(c: Context, r: Record, t: seq<byte>)
    requires Serving(c) && IsExtraBegin(r)
    ensures ScanStream(c, START, Encode(r) + t) == After(c, [], CantMultiplexReply(r.id), t)
  {
    hide ScanStream;
    AtRecord(c, r, t);
    PastSkipped(c, r.content, r.padding, t);
    BehindTwice(ScanStream(c, START, t), [], []);
  }

  lemma ForeignScan(c: Context, r: Record, t: seq<byte>)
    requires Serving(c) && IsForeign(c, r)
    ensures ScanStream(c, START, Encode(r) + t) == ScanStream(c, Position(0, 0, r.content == []), t)
  {
    hide ScanStream;
    AtRecord(c, r, t);
    PastSkipped(c, r.content, r.padding, t);
    var o := ScanStream(c, Position(0, 0, r.content == []), t);
    assert [] + o.replies == o.replies;
  }

  /** A record of another request is invisible exactly when it is not empty: the skip
      flag set for an empty one is cleared by the next record's content. */
  lemma ForeignInvisible(c: Context, r: Record)
    requires Serving(c) && IsForeign(c, r)
    ensures (forall t :: ScanStream(c, START, Encode(r) + t) == ScanStream(c, START, t)) <==> r.content != []
  {
    hide ScanStream, Encode, React;
    forall t ensures ScanStream(c, START, Encode(r) + t) == ScanStream(c, Position(0, 0, r.content == []), t) {
      ForeignScan(c, r, t);
    }
    if r.content == [] {
      SwallowedByte(c, 65);
      var t := Encode(Record(c.rtype, c.requestId, [65], []));
      assert ScanStream(c, START, Encode(r) + t) != ScanStream(c, START, t);
    }
  }

  // With the skip flag left over, a byte of the client's own stream is lost.
  lemma SwallowedByte(c: Context, b: byte)
    requires Serving(c)
    ensures var s := Encode(Record(c.rtype, c.requestId, [b], []));
            ScanStream(c, START, s).data == [b] && ScanStream(c, Position(0, 0, true), s).data == []
  {
    var r: Record := Record(c.rtype, c.requestId, [b], []);
    var s := Encode(r);
    assert s + [] == s;
    StreamDataPasses(c, r, []);
    assert ScanStream(c, START, []).data == [];
    EncodeParts(r, []);
    assert s[0..] == s;
    assert ScanStream(c, Position(0, 0, true), s) == ScanHeader(c, true, s);
    assert ScanStream(c, Position(1, 0, true), [b]).data == [];
  }

  /** Any management record but GET_VALUES is answered with UNKNOWN_TYPE, and its
      content is delivered to the client as if it were stream data. */
  lemma OtherManagementPasses(c: Context, r: Record, t: seq<byte>)
    requires !c.eorStop && IsOtherManagement(r)
    ensures ScanStream(c, START, Encode(r) + t) == After(c, r.content, UnknownTypeReply(r.rtype), t)
  {
    hide ScanStream;
    AtRecord(c, r, t);
    PastContent(c, r.content, r.padding, t);
  }

  lemma WholeRecord(content: seq<byte>, padding: seq<byte>, t: seq<byte>)
    ensures ScanRecord(Position(|content|, |padding|, false), content + (padding + t)) ==
            Outcome([], [], if padding + t == [] then Fail(PROTOCOL_ERROR) else Eof(false, 0, t)).Behind(content)
    ensures ScanRecord(Position(|content|, |padding|, false), content + (padding + t)).data == content
  {
    assert content + [] == content;
    var s := content + (padding + t);
    var o := Outcome([], [], if padding + t == [] then Fail(PROTOCOL_ERROR) else Eof(false, 0, t));
    assert ScanRecord(Position(0, |padding|, false), padding + t) == o by {
      assert (padding + t)[|padding|..] == t;
    }
    hide ScanRecord;
    if content != [] {
      DeliverRecord(Position(|content|, |padding|, false), s, |content|);
      assert s[..|content|] == content && s[|content|..] == padding + t;
    } else {
      assert s == padding + t;
      BehindTwice(o, [], []);
    }
  }

  /** GET_VALUES is answered exactly when at least one byte follows its content: the end
      of the record is only noticed with a further byte in the buffer. */
  lemma ValuesQueryPasses(c: Context, r: Record, t: seq<byte>)
    requires !c.eorStop && c.errno == 0 && IsValuesQuery(r)
    ensures ScanStream(c, START, Encode(r) + t) ==
            if r.padding + t == [] then Outcome([], [], Fail(PROTOCOL_ERROR))
            else After(c, [], GetValuesReply(ReadPairs(r.content).list), t)
  {
    hide ScanStream, ScanRecord, ReadPairs, ReplyDefined, GetValuesReply;
    AtRecord(c, r, t);
    WholeRecord(r.content, r.padding, t);
    BehindTwice(ScanStream(c, START, t), [], []);
  }

  /** Once an error has been recorded, a GET_VALUES record is not answered: it ends the stream. */
  lemma QueryAfterError(c: Context, r: Record, t: seq<byte>)
    requires !c.eorStop && c.errno != 0 && r.rtype == GET_VALUES && r.id == NULL_REQUEST_ID
    ensures var o := ScanStream(c, START, Encode(r) + t); o.data == o.replies == [] && o.end.Fail?
  {
    hide ScanStream, ScanRecord, ReadPairs, Encode;
    AtRecord(c, r, t);
    WholeRecord(r.content, r.padding, t);
  }

  /** Records that do not end the client's stream. */
  predicate Routine(c: Context, r: Record) {
    || IsStreamData(c, r)
    || (IsForeign(c, r) && r.content != [])
    || IsExtraBegin(r)
    || IsValuesQuery(r)
    || (IsOtherManagement(r) && r.content == [])
  }

  function ReplyTo(r: Record): seq<byte>
    requires IsValuesQuery(r) || r.rtype != GET_VALUES || r.id != NULL_REQUEST_ID
  {
    if r.rtype == BEGIN_REQUEST then CantMultiplexReply(r.id)
    else if r.id != NULL_REQUEST_ID then []
    else if r.rtype == GET_VALUES then GetValuesReply(ReadPairs(r.content).list)
    else UnknownTypeReply(r.rtype)
  }

  function RepliesTo(c: Context, rs: seq<Record>): seq<byte>
    requires c.requestId != NULL_REQUEST_ID
    requires forall r :: r in rs ==> Routine(c, r)
  {
    if rs == [] then [] else
      assert Routine(c, rs[0]);
      ReplyTo(rs[0]) + RepliesTo(c, rs[1..])
  }

  // What a routine record gives to the client.
  function Payload(c: Context, r: Record): seq<byte> {
    if r.rtype == c.rtype && r.id == c.requestId then r.content else []
  }

  lemma RoutinePasses(c: Context, r: Record, t: seq<byte>)
    requires Serving(c) && Routine(c, r) && t != []
    ensures ScanStream(c, START, Encode(r) + t) == After(c, Payload(c, r), ReplyTo(r), t)
  {
    hide ScanStream, Encode, ReadPairs, ReplyDefined, GetValuesReply;
    var o := ScanStream(c, START, t);
    BehindTwice(o, [], []);
    assert [] + o.replies == o.replies;
    if IsStreamData(c, r) {
      StreamDataPasses(c, r, t);
    } else if IsForeign(c, r) {
      ForeignScan(c, r, t);
    } else if IsExtraBegin(r) {
      ExtraBeginPasses(c, r, t);
    } else if IsValuesQuery(r) {
      ValuesQueryPasses(c, r, t);
    } else {
      OtherManagementPasses(c, r, t);
    }
  }

  // For each byte that the client gets of rs, how many bytes of the replies are written
  // only after it: those to the records behind the byte's own.
  function LateReplies(c: Context, rs: seq<Record>): seq<nat>
    requires c.requestId != NULL_REQUEST_ID
    requires forall r :: r in rs ==> Routine(c, r)
  {
    if rs == [] then [] else Same(|Payload(c, rs[0])|, |RepliesTo(c, rs[1..])|) + LateReplies(c, rs[1..])
  }

  // Records of the stream itself are routine for its reader, and are not answered.
  lemma {:induction false} DataRoutine(c: Context, rs: seq<Record>)
    requires Serving(c) && forall r :: r in rs ==> r.rtype == c.rtype && r.id == c.requestId && r.content != []
    ensures forall r :: r in rs ==> Routine(c, r)
    ensures RepliesTo(c, rs) == [] && LateReplies(c, rs) == Same(|Contents(rs, c.rtype, c.requestId)|, 0)
  {
    forall r | r in rs ensures IsStreamData(c, r) {
    }
    if rs != [] {
      assert rs[0] in rs;
      DataRoutine(c, rs[1..]);
    }
  }

  /** The stream law: from a record boundary, the client gets the concatenated contents
      of its own records and then EOF at their empty record, whatever routine records
      stand between them; the replies go out in the order of the records they answer. */
  lemma {:induction false} StreamDelivered(c: Context, rs: seq<Record>, last: Record, more: seq<byte>)
    requires Serving(c)
    requires forall r :: r in rs ==> Routine(c, r)
    requires last.rtype == c.rtype && last.id == c.requestId && last.content == []
    ensures ScanStream(c, START, EncodeAll(rs) + (Encode(last) + more)) ==
            Outcome(Contents(rs, c.rtype, c.requestId), RepliesTo(c, rs),
                    Eof(false, |last.padding|, last.padding + more), LateReplies(c, rs))
  {
    hide ScanStream, Encode, ReplyTo, Routine;
    var t := Encode(last) + more;
    if rs == [] {
      AtRecord(c, last, more);
      assert EncodeAll(rs) + t == t;
      assert [] + (last.padding + more) == last.padding + more;
    } else {
      var r, s := rs[0], EncodeAll(rs[1..]) + t;
      ConcatAssociates(Encode(r), EncodeAll(rs[1..]), t);
      StreamDelivered(c, rs[1..], last, more);
      RoutinePasses(c, r, s);
    }
  }

  // How often a variable is asked for.
  function Asked(names: seq<seq<byte>>, name: seq<byte>): nat {
    if names == [] then 0 else (if NameOf(names[0]) == name then 1 else 0) + Asked(names[1..], name)
  }

  /** The length of a GET_VALUES reply body, in terms of what was asked. */
  lemma {:induction false} ValueRepliesLength(names: seq<seq<byte>>)
    ensures |ValueReplies(names)|
         == 17 * Asked(names, MAX_CONNS) + 16 * Asked(names, MAX_REQS) + 18 * Asked(names, MPXS_CONNS)
  {
    if names != [] {
      ValueRepliesLength(names[1..]);
      assert |MAX_CONNS| == 14 && |MAX_REQS| == 13 && |MPXS_CONNS| == 15;
    }
  }

  // How often known variables are asked for.
  function Known(names: seq<seq<byte>>): nat {
    Asked(names, MAX_CONNS) + Asked(names, MAX_REQS) + Asked(names, MPXS_CONNS)
  }

  /** The 64-byte reply buffer is enough exactly when at most three known variables are
      asked for, counting repetitions; a NUL before the '=' is outside what the code can
      handle at all. */
  lemma ReplyFits(names: seq<seq<byte>>)
    ensures ReplyDefined(names) <==> Known(names) <= 3 && forall n :: n in names ==> 0 !in NameOf(n)
    ensures ReplyDefined(names) ==> |GetValuesReply(names)| <= 64
  {
    hide ValueReplies, Asked, NameOf;
    ValueRepliesLength(names);
  }

  /** Asking for each known variable at most once always fits. */
  lemma OnceEachFits(names: seq<seq<byte>>)
    requires Asked(names, MAX_CONNS) <= 1 && Asked(names, MAX_REQS) <= 1 && Asked(names, MPXS_CONNS) <= 1
    requires forall n :: n in names ==> 0 !in NameOf(n)
    ensures ReplyDefined(names) && |GetValuesReply(names)| <= 64
  {
    hide ReplyDefined, GetValuesReply, Asked, NameOf;
    ReplyFits(names);
  }

  /** A whole GET_VALUES record is answered exactly when its reply fits; otherwise the
      library writes past its buffer, and nothing is defined from there on. */
  lemma QueryAnsweredIff(c: Context, r: Record, t: seq<byte>)
    requires Serving(c) && r.rtype == GET_VALUES && r.id == NULL_REQUEST_ID && r.padding + t != []
    requires ReadPairs(r.content).ok && forall n :: n in ReadPairs(r.content).list ==> 0 !in NameOf(n)
    ensures var names := ReadPairs(r.content).list;
            ScanStream(c, START, Encode(r) + t) ==
            if Known(names) <= 3 then
              assert ReplyDefined(names) by { ReplyFits(names); }
              After(c, [], GetValuesReply(names), t)
            else Outcome([], [], Undefined)
  {
    hide ScanStream, ScanRecord, ReadPairs, ReplyDefined, GetValuesReply, Known, NameOf;
    ReplyFits(ReadPairs(r.content).list);
    AtRecord(c, r, t);
    WholeRecord(r.content, r.padding, t);
    BehindTwice(ScanStream(c, START, t), [], []);
  }

  // ---- What the reply to GET_VALUES says. ----

  // The answers, as name=value strings: one connection, one request, no multiplexing.
  function AnswersTo(names: seq<seq<byte>>): seq<seq<byte>> {
    if names == [] then [] else AnswerTo(NameOf(names[0])) + AnswersTo(names[1..])
  }

  function AnswerTo(name: seq<byte>): seq<seq<byte>> {
    if name == Text("FCGI_MAX_CONNS") then [Text("FCGI_MAX_CONNS=1")]
    else if name == Text("FCGI_MAX_REQS") then [Text("FCGI_MAX_REQS=1")]
    else if name == Text("FCGI_MPXS_CONNS") then [Text("FCGI_MPXS_CONNS=0")]
    else []
  }

  lemma KnownTexts()
    ensures MAX_CONNS == Text("FCGI_MAX_CONNS") && MAX_CONNS + [EQUALS] + [49] == Text("FCGI_MAX_CONNS=1")
    ensures MAX_REQS == Text("FCGI_MAX_REQS") && MAX_REQS + [EQUALS] + [49] == Text("FCGI_MAX_REQS=1")
    ensures MPXS_CONNS == Text("FCGI_MPXS_CONNS") && MPXS_CONNS + [EQUALS] + [48] == Text("FCGI_MPXS_CONNS=0")
  {
  }

  lemma OneAnswer(name: seq<byte>, t: seq<byte>)
    ensures var r := ValueReply(name);
            if r == [] then AnswerTo(name) == []
            else exists e :: ReadPair(r + t) == Some((e, t)) && AnswerTo(name) == [e]
  {
    hide ReadPair;
    KnownTexts();
    if ValueReply(name) != [] {
      var value: byte := if name == MPXS_CONNS then 48 else 49;
      var p := Pair(name, [value]);
      ReadOnePair(p, t);
      assert EncodePair(p) == ValueReply(name);
      assert Entry(p) == name + [EQUALS] + [value];
    }
  }

  /** Read as name-value pairs, the body of a GET_VALUES reply holds the value of every known
      variable asked for, as often and in the order in which they were asked for, and nothing
      else. */
  lemma {:induction false} ReplyReads(names: seq<seq<byte>>)
    ensures ReadPairs(ValueReplies(names)) == ParamList(AnswersTo(names), true)
  {
    hide ReadPair, ValueReply, AnswerTo, NameOf;
    if names != [] {
      var name, t := NameOf(names[0]), ValueReplies(names[1..]);
      ReplyReads(names[1..]);
      OneAnswer(name, t);
      if ValueReply(name) == [] {
        assert [] + t == t && [] + AnswersTo(names[1..]) == AnswersTo(names[1..]);
      }
    }
  }

  /** What the peer gets for a whole GET_VALUES record of at most three known names: one
      GET_VALUES_RESULT record without a request id, from which it reads these answers. */
  lemma QueryAnswers(c: Context, r: Record, t: seq<byte>) returns (body: seq<byte>, padding: seq<byte>)
    requires Serving(c) && r.rtype == GET_VALUES && r.id == NULL_REQUEST_ID && r.padding + t != []
    requires ReadPairs(r.content).ok && forall n :: n in ReadPairs(r.content).list ==> 0 !in NameOf(n)
    requires Known(ReadPairs(r.content).list) <= 3
    ensures |body| <= MAX_LENGTH && |padding| < 8
    ensures ScanStream(c, START, Encode(r) + t) == After(c, [], Encode(Record(10, 0, body, padding)), t)
    ensures ReadPairs(body) == ParamList(AnswersTo(ReadPairs(r.content).list), true)
  {
    hide ScanStream, ReadPairs, ReplyDefined, Known, NameOf, ValueReplies, AnswersTo;
    var names := ReadPairs(r.content).list;
    ReplyFits(names);
    QueryAnsweredIff(c, r, t);
    ReplyReads(names);
    body := ValueReplies(names);
    padding := Zeros(AlignInt8(|body|) - |body|);
    assert Encode(Record(10, 0, body, padding)) == GetValuesReply(names);
  }

  lemma NameOfEntry(p: Pair)
    requires EQUALS !in p.name
    ensures NameOf(Entry(p)) == p.name
  {
    var e := Entry(p);
    var i := IndexOf(e, EQUALS);
    assert e[|p.name|] == EQUALS && e[..|p.name|] == p.name;
    assert i == |p.name| by {
      assert forall j :: 0 <= j < |p.name| ==> e[j] == p.name[j] && e[j] != EQUALS;
      assert forall j :: 0 <= j < i ==> e[..i][j] == e[j] && e[j] != EQUALS;
    }
  }

  lemma FourTimes(p: Pair, name: seq<byte>)
    requires Encodable(p) && NameOf(Entry(p)) == name
    ensures |EncodePairs([p, p, p, p])| == 4 * |EncodePair(p)|
    ensures Entries([p, p, p, p]) == [Entry(p), Entry(p), Entry(p), Entry(p)]
    ensures Asked(Entries([p, p, p, p]), name) == 4
  {
    hide EncodePair, Entry, NameOf;
    var none: seq<Pair> := [];
    var e := Entry(p);
    assert [p][1..] == none && [p, p][1..] == [p] && [p, p, p][1..] == [p, p] && [p, p, p, p][1..] == [p, p, p];
    OneMoreTime(p, [], name);
    OneMoreTime(p, [p], name);
    OneMoreTime(p, [p, p], name);
    OneMoreTime(p, [p, p, p], name);
    assert [p] + none == [p] && [p] + [p] == [p, p] && [p] + [p, p] == [p, p, p] && [p] + [p, p, p] == [p, p, p, p];
  }

  lemma OneMoreTime(p: Pair, ps: seq<Pair>, name: seq<byte>)
    requires Encodable(p) && (forall q :: q in ps ==> Encodable(q)) && NameOf(Entry(p)) == name
    ensures |EncodePairs([p] + ps)| == |EncodePair(p)| + |EncodePairs(ps)|
    ensures Entries([p] + ps) == [Entry(p)] + Entries(ps)
    ensures Asked(Entries([p] + ps), name) == 1 + Asked(Entries(ps), name)
  {
    assert ([p] + ps)[1..] == ps;
    assert ([Entry(p)] + Entries(ps))[1..] == Entries(ps);
  }

  lemma KnownName(name: seq<byte>)
    requires name == MAX_CONNS || name == MAX_REQS || name == MPXS_CONNS
    ensures EQUALS !in name && 0 !in name && |EncodePair(Pair(name, []))| <= 17
  {
  }

  /** The overrun, at an input: one known name asked for four times. */
  lemma FourTimesOverruns(c: Context, name: seq<byte>, t: seq<byte>)
    requires Serving(c) && t != []
    requires name == MAX_CONNS || name == MAX_REQS || name == MPXS_CONNS
    ensures var p := Pair(name, []);
            |EncodePairs([p, p, p, p])| < 0x10000
            && ScanStream(c, START, Encode(Record(GET_VALUES, NULL_REQUEST_ID, EncodePairs([p, p, p, p]), [])) + t)
               == Outcome([], [], Undefined)
  {
    hide ScanStream, Encode, ReadPairs, NameOf, Entry, ReplyDefined, EncodePairs, Asked;
    hide EncodePair;
    var p := Pair(name, []);
    KnownName(name);
    NameOfEntry(p);
    FourTimes(p, name);
    PairsRoundTrip([p, p, p, p]);
    QueryAnsweredIff(c, Record(GET_VALUES, NULL_REQUEST_ID, EncodePairs([p, p, p, p]), []), t);
  }
}
