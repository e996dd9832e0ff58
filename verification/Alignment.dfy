/** Where the next stream of a request starts. SetReaderType forgets padding that is still
    unread, so the padding of an end-of-stream record is read as if it were records. */
module Alignment {
  import opened Protocol
  import opened Scan
  import opened Delivery

  /** The bytes p are passed over without a trace: they are whole records, each of another
      request or swallowed behind an empty one of another request, and the skip flag is
      clear at the end. skip is the flag before them. */
  predicate Silent(c: Context, skip: bool, p: seq<byte>)
    decreases |p|
  {
    if p == [] then !skip
    else
      |p| >= HEADER_LEN
      && var h := ParseHeader(p[..HEADER_LEN]);
         var end := HEADER_LEN + h.contentLength + h.paddingLength;
         PassedOver(c, skip, h) && end <= |p| && Silent(c, h.contentLength == 0, p[end..])
  }

  // A record with this header gives nothing to the client and is not answered.
  predicate PassedOver(c: Context, skip: bool, h: Header) {
    && h.version == VERSION_1 && h.rtype != BEGIN_REQUEST && h.requestId != NULL_REQUEST_ID
    && (h.requestId != c.requestId || (skip && h.rtype == c.rtype && h.contentLength > 0))
  }

  // A record boundary with the skip flag.
  function Boundary(skip: bool): Position {
    Position(0, 0, skip)
  }

  lemma AtHeader(c: Context, skip: bool, s: seq<byte>)
    requires |s| >= HEADER_LEN
    ensures ScanStream(c, Boundary(skip), s)
         == Continue(c, React(c, ParseHeader(s[..HEADER_LEN]), skip, s[HEADER_LEN..]))
  {
    hide React, ParseHeader;
    assert s[0..] == s;
    assert ScanStream(c, Boundary(skip), s) == ScanHeader(c, skip, s);
  }

  // A stream ends only behind what is left of a record and a further header.
  lemma {:induction false} EndBehind(c: Context, p: Position, s: seq<byte>)
    ensures var o := ScanStream(c, p, s);
            o.end.Eof? && o.data == [] ==> |s| >= p.content + p.padding + HEADER_LEN + |o.end.rest|
    decreases |s|, 1
  {
    hide React, ParseHeader;
    if s != [] && !(p.content > 0 && !p.skip) && |s| >= p.content + p.padding {
      EndBehindHeader(c, p.skip && p.content == 0, s[p.content + p.padding..]);
    }
  }

  lemma {:induction false} EndBehindHeader(c: Context, skip: bool, s: seq<byte>)
    ensures var o := ScanHeader(c, skip, s);
            o.end.Eof? && o.data == [] ==> |s| >= HEADER_LEN + |o.end.rest|
    decreases |s|, 0
  {
    hide React, ParseHeader;
    if |s| >= HEADER_LEN {
      var r := React(c, ParseHeader(s[..HEADER_LEN]), skip, s[HEADER_LEN..]);
      ReactionEnd(c, ParseHeader(s[..HEADER_LEN]), skip, s[HEADER_LEN..]);
      if r.Go? {
        EndBehind(c, r.position, r.rest);
      }
    }
  }

  lemma ReactionEnd(c: Context, h: Header, skip: bool, s: seq<byte>)
    ensures var r := React(c, h, skip, s);
            && (r.Go? ==> |r.rest| <= |s|)
            && (r.Stop? && r.end.Eof? ==> r.end.rest == s)
  {
    hide ScanRecord, Pairs.ReadPairs;
  }

  // One record that is passed over.
  lemma PassOne(c: Context, skip: bool, p: seq<byte>, more: seq<byte>)
    requires Serving(c) && |p| >= HEADER_LEN
    requires var h := ParseHeader(p[..HEADER_LEN]);
             PassedOver(c, skip, h) && HEADER_LEN + h.contentLength + h.paddingLength <= |p|
    ensures var h := ParseHeader(p[..HEADER_LEN]);
            ScanStream(c, Boundary(skip), p + more)
            == ScanStream(c, Boundary(h.contentLength == 0), p[HEADER_LEN + h.contentLength + h.paddingLength..] + more)
  {
    hide ScanStream, ParseHeader;
    var h := ParseHeader(p[..HEADER_LEN]);
    var k := h.contentLength + h.paddingLength;
    var s := (p + more)[HEADER_LEN..];
    assert (p + more)[..HEADER_LEN] == p[..HEADER_LEN] && s == p[HEADER_LEN..] + more;
    AtHeader(c, skip, p + more);
    assert React(c, h, skip, s) == Go([], Position(h.contentLength, h.paddingLength, true), s);
    DropStream(c, Position(h.contentLength, h.paddingLength, true), s, k);
    assert s[k..] == p[HEADER_LEN + k..] + more;
    var o := ScanStream(c, Position(0, 0, h.contentLength == 0), s[k..]);
    assert [] + o.replies == o.replies;
  }

  lemma {:induction false} SilentPasses(c: Context, skip: bool, p: seq<byte>, more: seq<byte>)
    requires Serving(c) && Silent(c, skip, p)
    ensures ScanStream(c, Boundary(skip), p + more) == ScanStream(c, START, more)
    decreases |p|
  {
    hide ScanStream, ParseHeader, PassedOver;
    if p == [] {
      assert p + more == more;
    } else {
      var h := ParseHeader(p[..HEADER_LEN]);
      PassOne(c, skip, p, more);
      SilentPasses(c, h.contentLength == 0, p[HEADER_LEN + h.contentLength + h.paddingLength..], more);
    }
  }

  // The empty record that ends the stream of c.
  function Ending(c: Context): seq<byte>
    requires Serving(c)
  {
    Encode(Record(c.rtype, c.requestId, [], []))
  }

  lemma EndingScanned(c: Context)
    requires Serving(c)
    ensures |Ending(c)| == HEADER_LEN && ScanStream(c, START, Ending(c)) == Outcome([], [], Eof(false, 0, []))
  {
    hide ScanStream, Encode;
    var last: Record := Record(c.rtype, c.requestId, [], []);
    AtRecord(c, last, []);
    assert Encode(last) + [] == Encode(last);
  }

  // Bytes whose first record is not passed over spoil the ending behind them.
  lemma NotPassed(c: Context, skip: bool, p: seq<byte>)
    requires Serving(c) && p != []
    requires |p| >= HEADER_LEN ==>
               var h := ParseHeader(p[..HEADER_LEN]);
               !PassedOver(c, skip, h) || HEADER_LEN + h.contentLength + h.paddingLength > |p|
    ensures ScanStream(c, Boundary(skip), p + Ending(c)) != Outcome([], [], Eof(false, 0, []))
  {
    hide ScanStream, ParseHeader, Ending;
    EndingScanned(c);
    var s := p + Ending(c);
    var h := ParseHeader(s[..HEADER_LEN]);
    assert |p| >= HEADER_LEN ==> s[..HEADER_LEN] == p[..HEADER_LEN];
    AtHeader(c, skip, s);
    SpoiledReaction(c, h, skip, s[HEADER_LEN..], |p|);
  }

  lemma SpoiledReaction(c: Context, h: Header, skip: bool, s: seq<byte>, n: nat)
    requires Serving(c) && n > 0 && |s| == n && h.requestId < 0x10000
    requires n >= HEADER_LEN ==> !PassedOver(c, skip, h) || HEADER_LEN + h.contentLength + h.paddingLength > n
    ensures Continue(c, React(c, h, skip, s)) != Outcome([], [], Eof(false, 0, []))
  {
    hide ScanStream;
    var r := React(c, h, skip, s);
    ReactionEnd(c, h, skip, s);
    if r.Go? {
      EndBehind(c, r.position, r.rest);
      if r.position.content > 0 && !r.position.skip && r.rest != [] {
        FirstContent(c, r.position, r.rest);
      }
    }
  }

  lemma FirstContent(c: Context, p: Position, s: seq<byte>)
    requires s != [] && p.content > 0 && !p.skip
    ensures ScanStream(c, p, s).data != []
  {
  }

  lemma {:induction false} SpoiledUnlessSilent(c: Context, skip: bool, p: seq<byte>) returns (more: seq<byte>)
    requires Serving(c) && !Silent(c, skip, p)
    ensures ScanStream(c, Boundary(skip), p + more) != ScanStream(c, START, more)
    decreases |p|
  {
    hide ScanStream, ParseHeader, PassedOver, Ending;
    if p == [] {
      SwallowedByte(c, 65);
      more := Encode(Record(c.rtype, c.requestId, [65], []));
      assert p + more == more;
    } else {
      var h := ParseHeader(if |p| >= HEADER_LEN then p[..HEADER_LEN] else Zeros(HEADER_LEN));
      var end := HEADER_LEN + h.contentLength + h.paddingLength;
      if |p| >= HEADER_LEN && PassedOver(c, skip, h) && end <= |p| {
        more := SpoiledUnlessSilent(c, h.contentLength == 0, p[end..]);
        PassOne(c, skip, p, more);
      } else {
        more := Ending(c);
        EndingScanned(c);
        NotPassed(c, skip, p);
      }
    }
  }

  /** The next stream, of context c, starts at its first record whatever that is, exactly
      when the padding p of the stream before it is silent. */
  lemma NextStreamAligned(c: Context, p: seq<byte>)
    requires Serving(c)
    ensures (forall more :: ScanStream(c, START, p + more) == ScanStream(c, START, more)) <==> Silent(c, false, p)
  {
    hide ScanStream, Silent;
    if Silent(c, false, p) {
      forall more ensures ScanStream(c, START, p + more) == ScanStream(c, START, more) {
        SilentPasses(c, false, p, more);
      }
    } else {
      var more := SpoiledUnlessSilent(c, false, p);
      assert ScanStream(c, START, p + more) != ScanStream(c, START, more);
    }
  }

  /** Padding that is shorter than a header, as every writer to a multiple of 8 makes it,
      or that does not begin like a record, is silent only when there is none. */
  lemma PaddingMisaligns(c: Context, p: seq<byte>)
    requires |p| < HEADER_LEN || p[0] != VERSION_1
    ensures Silent(c, false, p) <==> p == []
  {
  }

  // Longer padding can be silent: a record of another request is.
  lemma ForeignIsSilent(c: Context, r: Record)
    requires Serving(c) && IsForeign(c, r) && r.content != []
    ensures Silent(c, false, Encode(r))
  {
    hide Encode, ParseHeader;
    EncodeParts(r, []);
    assert Encode(r) + [] == Encode(r);
  }

  /** From the end of one stream of a request to the next: after SetReaderType, the reader
      of the next stream finds its records at once exactly when the padding of the end
      record was silent. */
  lemma NextStreamAfter(c: Context, rs: seq<Record>, last: Record, next: Context)
    requires Serving(c) && forall r :: r in rs ==> Routine(c, r)
    requires last.rtype == c.rtype && last.id == c.requestId && last.content == []
    requires Serving(next) && next.requestId == c.requestId
    ensures (forall more :: var end := ScanStream(c, START, EncodeAll(rs) + (Encode(last) + more)).end;
                            end.Eof? && ScanStream(next, START, end.rest) == ScanStream(next, START, more))
            <==> Silent(next, false, last.padding)
  {
    hide ScanStream, Silent, Encode, EncodeAll, Routine;
    NextStreamAligned(next, last.padding);
    forall more
      ensures ScanStream(c, START, EncodeAll(rs) + (Encode(last) + more)).end
           == Eof(false, |last.padding|, last.padding + more)
    {
      StreamDelivered(c, rs, last, more);
    }
    if !Silent(next, false, last.padding) {
      var more :| ScanStream(next, START, last.padding + more) != ScanStream(next, START, more);
      assert ScanStream(c, START, EncodeAll(rs) + (Encode(last) + more)).end.rest == last.padding + more;
    }
  }
}
