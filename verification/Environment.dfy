/** The CGI bridge's way of sending its environment, and the proof that the
    application gets the same strings back. */
module Environment {
  import opened Protocol
  import opened Pairs
  import opened Scan
  import opened Delivery
  import opened Framing
  import opened RoundTrip
  import opened Writer

  // FCGIUtil_BuildNameValueHeader
  method BuildNameValueHeader(nameLen: nat, valueLen: nat, headerBuff: array<byte>) returns (headerLen: nat)
    requires nameLen < 0x80000000 && valueLen < 0x80000000 && headerBuff.Length == 8
    modifies headerBuff
    ensures headerLen <= 8 && headerBuff[..headerLen] == EncodeLength(nameLen) + EncodeLength(valueLen)
  {
    headerLen := BuildLength(nameLen, headerBuff, 0);
    ghost var name := headerBuff[..headerLen];
    headerLen := BuildLength(valueLen, headerBuff, headerLen);
  }

  // One of its two length fields.
  method BuildLength(len: nat, headerBuff: array<byte>, at: nat) returns (end: nat)
    requires len < 0x80000000 && at + 4 <= headerBuff.Length
    modifies headerBuff
    ensures end <= at + 4 && headerBuff[..end] == old(headerBuff[..at]) + EncodeLength(len)
  {
    if len < 0x80 {
      headerBuff[at] := len;
      end := at + 1;
    } else {
      headerBuff[at] := len / 0x1000000 + 0x80;
      headerBuff[at + 1] := LowByte(len / 0x10000);
      headerBuff[at + 2] := LowByte(len / 0x100);
      headerBuff[at + 3] := LowByte(len);
      end := at + 4;
    }
  }

  /** A NAME=value string that can be sent; the name ends at the first '='. */
  predicate Sendable(e: seq<byte>) {
    && EQUALS in e
    && IndexOf(e, EQUALS) < 0x80000000 && |e| - IndexOf(e, EQUALS) - 1 < 0x80000000
  }

  lemma EqualsFound(e: seq<byte>)
    ensures EQUALS in e <==> IndexOf(e, EQUALS) < |e|
  {
    assert e[..|e|] == e;
  }

  function PairOf(e: seq<byte>): (p: Pair)
    requires Sendable(e)
    ensures Encodable(p) && EQUALS !in p.name && e == p.name + [EQUALS] + p.value
  {
    EqualsFound(e);
    var i := IndexOf(e, EQUALS);
    Pair(e[..i], e[i + 1..])
  }

  function PairsOf(envp: seq<seq<byte>>): (ps: seq<Pair>)
    requires forall e :: e in envp ==> Sendable(e)
    ensures |ps| == |envp| && forall p :: p in ps ==> Encodable(p)
  {
    if envp == [] then [] else assert Sendable(envp[0]); [PairOf(envp[0])] + PairsOf(envp[1..])
  }

  // The three PutStr calls for one string.
  function PutsFor(e: seq<byte>): seq<seq<byte>>
    requires Sendable(e)
  {
    var p := PairOf(e);
    [EncodeLength(|p.name|) + EncodeLength(|p.value|), p.name, p.value]
  }

  /** All the PutStr calls for an environment. */
  function PutsOf(envp: seq<seq<byte>>): seq<seq<byte>>
    requires forall e :: e in envp ==> Sendable(e)
  {
    if envp == [] then [] else assert Sendable(envp[0]); PutsFor(envp[0]) + PutsOf(envp[1..])
  }

  lemma FlattenThree(a: seq<byte>, b: seq<byte>, c: seq<byte>, rest: seq<seq<byte>>)
    ensures Flatten([a, b, c] + rest) == a + (b + (c + Flatten(rest)))
  {
    assert ([a, b, c] + rest)[1..] == [b, c] + rest;
    assert ([b, c] + rest)[1..] == [c] + rest;
    assert ([c] + rest)[1..] == rest;
    assert Flatten([b, c] + rest) == b + Flatten([c] + rest);
  }

  lemma {:induction false} PutsAreEncoding(envp: seq<seq<byte>>)
    requires forall e :: e in envp ==> Sendable(e)
    ensures Flatten(PutsOf(envp)) == EncodePairs(PairsOf(envp))
    ensures Entries(PairsOf(envp)) == envp && forall p :: p in PairsOf(envp) ==> EQUALS !in p.name
  {
    if envp != [] {
      hide EncodeLength, IndexOf;
      var e, rest := envp[0], PutsOf(envp[1..]);
      assert Sendable(e);
      var p := PairOf(e);
      PutsAreEncoding(envp[1..]);
      var h := EncodeLength(|p.name|) + EncodeLength(|p.value|);
      FlattenThree(h, p.name, p.value, rest);
      ConcatAssociates(h, p.name, p.value);
      ConcatAssociates(h, p.name + p.value, Flatten(rest));
      ConcatAssociates(p.name, p.value, Flatten(rest));
      assert PairsOf(envp)[0] == p && PairsOf(envp)[1..] == PairsOf(envp[1..]);
      EntryOf(e);
    }
  }

  lemma EntryOf(e: seq<byte>)
    requires Sendable(e)
    ensures Entry(PairOf(e)) == e
  {
    EqualsFound(e);
  }

  lemma {:induction false} PutAllSnoc(w: Stream, id: nat, puts: seq<seq<byte>>, s: seq<byte>)
    requires w.Valid() && !w.closed && id < 0x10000
    ensures var r := PutAll(w, id, puts);
            var f := Framing.Put(r.stream, id, s);
            PutAll(w, id, puts + [s]) == Step(f.stream, r.records + f.records)
    decreases |puts|
  {
    hide Framing.Put;
    if puts == [] {
      var f := Framing.Put(w, id, s);
      assert puts + [s] == [s] && [s][1..] == [];
      assert f.records + [] == f.records && [] + f.records == f.records;
    } else {
      var f := Framing.Put(w, id, puts[0]);
      assert (puts + [s])[1..] == puts[1..] + [s];
      PutAllSnoc(f.stream, id, puts[1..], s);
      var r := PutAll(f.stream, id, puts[1..]);
      ConcatAssociates(f.records, r.records, Framing.Put(r.stream, id, s).records);
    }
  }

  // w has been used for puts and nothing else since it was in state start, with sent written.
  ghost predicate Used(w: Writer, start: Stream, sent: seq<byte>, puts: seq<seq<byte>>)
    requires start.Valid() && !start.closed
    reads w, w.req, w.conn, w.buff
  {
    && w.Valid() && !w.isClosed
    && var r := PutAll(start, w.req.requestId, puts);
       w.State() == r.stream && w.conn.sent == sent + EncodeAll(r.records)
  }

  method PutOne(w: Writer, s: seq<byte>, ghost start: Stream, ghost sent: seq<byte>, ghost puts: seq<seq<byte>>)
    requires start.Valid() && !start.closed && Used(w, start, sent, puts)
    modifies w`wrNext, w`isAnythingWritten, w`rawWrite, w.buff, w.conn`sent, w.req`nWriters
    ensures Used(w, start, sent, puts + [s]) && w.req.nWriters == old(w.req.nWriters)
  {
    hide Framing.Put, PutAll, EncodeAll;
    ghost var r := PutAll(start, w.req.requestId, puts);
    PutAllSnoc(start, w.req.requestId, puts, s);
    ghost var f := Framing.Put(r.stream, w.req.requestId, s);
    EncodeAllConcat(r.records, f.records);
    ConcatAssociates(sent, EncodeAll(r.records), EncodeAll(f.records));
    var _ := w.PutStr(s);
  }

  lemma PutsOfSnoc(envp: seq<seq<byte>>, e: seq<byte>)
    requires Sendable(e) && forall e' :: e' in envp ==> Sendable(e')
    ensures PutsOf(envp + [e]) == PutsOf(envp) + PutsFor(e)
  {
    hide PutsFor;
    if envp == [] {
      assert envp + [e] == [e] && [e][1..] == [];
      assert PutsFor(e) + [] == PutsFor(e) && [] + PutsFor(e) == PutsFor(e);
    } else {
      assert (envp + [e])[1..] == envp[1..] + [e];
      PutsOfSnoc(envp[1..], e);
      ConcatAssociates(PutsFor(envp[0]), PutsOf(envp[1..]), PutsFor(e));
    }
  }

  // One round of the loop of main that sends the environment.
  method SendEntry(e: seq<byte>, w: Writer, headerBuff: array<byte>,
                   ghost start: Stream, ghost sent: seq<byte>, ghost puts: seq<seq<byte>>)
    requires Sendable(e) && headerBuff.Length == 8 && headerBuff != w.buff
    requires start.Valid() && !start.closed && Used(w, start, sent, puts)
    modifies headerBuff, w`wrNext, w`isAnythingWritten, w`rawWrite, w.buff, w.conn`sent, w.req`nWriters
    ensures Used(w, start, sent, puts + PutsFor(e)) && w.req.nWriters == old(w.req.nWriters)
  {
    hide PutAll, EncodeAll, EncodeLength, Used;
    EqualsFound(e);
    var equal := IndexOf(e, EQUALS);
    var valueLen := |e| - equal - 1;
    var headerLen := BuildNameValueHeader(equal, valueLen, headerBuff);
    ghost var h := headerBuff[..headerLen];
    PutOne(w, headerBuff[..headerLen], start, sent, puts);
    PutOne(w, e[..equal], start, sent, puts + [h]);
    PutOne(w, e[equal + 1..], start, sent, puts + [h] + [e[..equal]]);
    assert puts + [h] + [e[..equal]] + [e[equal + 1..]] == puts + PutsFor(e);
  }

  /** The loop of main that sends the environment, and the close of its stream; false
      stands for the exit when a string has no '='. */
  method SendEnvironment(envp: seq<seq<byte>>, w: Writer) returns (ok: bool)
    requires w.Valid() && !w.isClosed && w.req.nWriters == 2
    requires forall e :: e in envp && EQUALS in e ==> Sendable(e)
    modifies w, w.buff, w.conn`sent, w.req`nWriters
    ensures ok <==> forall e :: e in envp ==> EQUALS in e
    ensures ok ==> w.conn.sent == old(w.conn.sent) + EncodeAll(WrittenBy(old(w.State()), w.req.requestId, PutsOf(envp)))
  {
    hide PutsOf, Used, EncodeAll, PutAll, WrittenBy;
    ghost var start, sent := w.State(), w.conn.sent;
    UsedAtStart(w);
    ok := SendEntries(envp, w, start, sent);
    if ok {
      CloseUsed(w, start, sent, PutsOf(envp));
    }
  }

  lemma UsedAtStart(w: Writer)
    requires w.Valid() && !w.isClosed
    ensures PutsOf([]) == [] && Used(w, w.State(), w.conn.sent, [])
  {
    assert w.conn.sent + [] == w.conn.sent;
  }

  method SendEntries(envp: seq<seq<byte>>, w: Writer, ghost start: Stream, ghost sent: seq<byte>) returns (ok: bool)
    requires start.Valid() && !start.closed && Used(w, start, sent, PutsOf([]))
    requires forall e :: e in envp && EQUALS in e ==> Sendable(e)
    modifies w`wrNext, w`isAnythingWritten, w`rawWrite, w.buff, w.conn`sent, w.req`nWriters
    ensures ok <==> forall e :: e in envp ==> EQUALS in e
    ensures ok ==> Used(w, start, sent, PutsOf(envp)) && w.req.nWriters == old(w.req.nWriters)
  {
    hide PutsFor, PutsOf, Used, EncodeAll, PutAll;
    var headerBuff := new byte[8](_ => 0);
    for i := 0 to |envp|
      invariant forall e :: e in envp[..i] ==> Sendable(e)
      invariant Used(w, start, sent, PutsOf(envp[..i]))
      invariant w.req.nWriters == old(w.req.nWriters) && headerBuff != w.buff
    {
      var e := envp[i];
      if EQUALS !in e {
        return false;
      }
      PutsOfSnoc(envp[..i], e);
      assert envp[..i + 1] == envp[..i] + [e];
      SendEntry(e, w, headerBuff, start, sent, PutsOf(envp[..i]));
    }
    assert envp[..|envp|] == envp;
    return true;
  }

  method CloseUsed(w: Writer, ghost start: Stream, ghost sent: seq<byte>, ghost puts: seq<seq<byte>>)
    requires start.Valid() && !start.closed && Used(w, start, sent, puts) && w.req.nWriters == 2
    modifies w, w.buff, w.conn`sent, w.req`nWriters
    ensures w.conn.sent == sent + EncodeAll(WrittenBy(start, w.req.requestId, puts))
  {
    hide EncodeAll, PutAll;
    ghost var r := PutAll(start, w.req.requestId, puts);
    ghost var closing := Framing.Close(r.stream, w.req.requestId, 2, 0).records;
    EncodeAllConcat(r.records, closing);
    ConcatAssociates(sent, EncodeAll(r.records), EncodeAll(closing));
    var _ := w.FClose();
  }

  /** Every environment survives: sent by the bridge through a writer of any capacity,
      cut in any way, parsed by ReadParams, it is the same list of strings. */
  lemma EnvironmentRoundTrip(c: Context, w: Stream, envp: seq<seq<byte>>, more: seq<byte>)
    requires Serving(c) && c.rtype == PARAMS
    requires w.Valid() && !w.closed && w.pending == [] && w.rtype == PARAMS
    requires forall e :: e in envp ==> Sendable(e)
    ensures var o := ScanStream(c, START, EncodeAll(WrittenBy(w, c.requestId, PutsOf(envp))) + more);
            && ReadPairs(o.data) == ParamList(envp, true)
            && o.replies == [] && o.end == Eof(false, 0, more)
  {
    hide ScanStream, WrittenBy, PutsOf, EncodePairs, ReadPairs, EncodeAll, Flatten;
    StreamRoundTrip(c, w, PutsOf(envp), more);
    assert Flatten(PutsOf(envp)) + [] == Flatten(PutsOf(envp));
    PutsAreEncoding(envp);
    PairsRoundTrip(PairsOf(envp));
  }
}
