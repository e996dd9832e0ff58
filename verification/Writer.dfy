/** Output streams: FCGX_PutChar, FCGX_PutStr, FCGX_FFlush, FCGX_FClose, EmptyBuffProc
    and WriteCloseRecords, over a buffer in which records are framed in place. */
module Writer {
  import opened Protocol
  import opened Framing
  import opened Connection

  class Writer {
    const req: Request
    const conn: Connection
    const buff: array<byte>
    const rtype: byte
    var wrNext: nat
    var stop: nat
    var isClosed: bool
    var wasFCloseCalled: bool
    var isAnythingWritten: bool
    var rawWrite: bool

    ghost predicate Buffered()
      reads this, req`requestId
    {
      && 24 <= buff.Length <= MAX_LENGTH + 1 && buff.Length % 8 == 0
      && req.requestId < 0x10000
    }

    ghost predicate Valid()
      reads this, req`requestId
    {
      && Buffered()
      && isClosed == wasFCloseCalled == rawWrite
      && (if isClosed then wrNext == stop <= buff.Length else HEADER_LEN <= wrNext <= stop == buff.Length)
    }

    ghost function State(): (w: Stream)
      requires Valid()
      reads this, req`requestId, buff
      ensures w.Valid()
    {
      Stream(rtype, buff.Length - HEADER_LEN, if isClosed then [] else buff[HEADER_LEN..wrNext],
             isAnythingWritten || isClosed, isClosed)
    }

    // What has been written or waits in the buffer, in raw mode.
    ghost function RawOut(): seq<byte>
      requires wrNext <= buff.Length
      reads this, buff, conn
    {
      conn.sent + buff[..wrNext]
    }

    // NewStream for a writer.
    constructor (req: Request, conn: Connection, bufflen: int, misaligned: bool, streamType: byte)
      requires req.requestId < 0x10000
      ensures Valid() && fresh(buff) && this.req == req && this.conn == conn && rtype == streamType
      ensures State() == Stream(streamType, buff.Length - HEADER_LEN, [], false, false)
      ensures buff.Length == BufferSize(bufflen, misaligned)
    {
      hide BufferSize;
      var size := BufferSize(bufflen, misaligned);
      this.req, this.conn, rtype := req, conn, streamType;
      buff := new byte[size](_ => 0);
      wrNext, stop := HEADER_LEN, size;
      isClosed, wasFCloseCalled, isAnythingWritten, rawWrite := false, false, false, false;
    }

    // memcpy to the free space of the buffer.
    method Append(s: seq<byte>)
      requires wrNext + |s| <= buff.Length
      modifies this`wrNext, buff
      ensures wrNext == old(wrNext) + |s|
      ensures buff[..wrNext] == old(buff[..wrNext]) + s
    {
      forall i | 0 <= i < |s| {
        buff[wrNext + i] := s[i];
      }
      wrNext := wrNext + |s|;
    }

    // The head of EmptyBuffProc: the buffer becomes a whole record, or empty.
    method FrameBuffer()
      requires Valid() && !isClosed
      modifies this`wrNext, buff
      ensures wrNext <= buff.Length
      ensures buff[..wrNext] == EncodeAll(Flush(old(State()), req.requestId).records)
    {
      ghost var content := buff[HEADER_LEN..wrNext];
      var cLen := wrNext - HEADER_LEN;
      if cLen > 0 {
        var eLen := AlignInt8(cLen);
        Append(Zeros(eLen - cLen));
        var header := MakeHeader(rtype, req.requestId, cLen, eLen - cLen);
        forall i | 0 <= i < HEADER_LEN {
          buff[i] := header[i];
        }
        assert buff[..wrNext] == header + content + Zeros(eLen - cLen);
        EncodeAllOne(DataRecord(rtype, req.requestId, content));
      } else {
        wrNext := 0;
      }
    }

    // The tail of EmptyBuffProc: everything in the buffer is written.
    method WriteBuffer()
      requires Buffered() && wrNext <= buff.Length
      modifies this`wrNext, this`isAnythingWritten, conn`sent
      ensures conn.sent == old(RawOut())
      ensures isAnythingWritten == (old(isAnythingWritten) || old(wrNext) != 0)
      ensures wrNext == if rawWrite then 0 else HEADER_LEN
    {
      if wrNext != 0 {
        isAnythingWritten := true;
        conn.WriteAll(buff, wrNext);
        wrNext := 0;
      }
      if !rawWrite {
        wrNext := HEADER_LEN;
      }
    }

    // WriteCloseRecords: raw mode, so the records are not framed as stream data.
    method WriteCloseRecords(ghost w: Stream)
      requires Buffered() && wrNext <= stop == buff.Length && !isClosed && !rawWrite
      requires w.Valid() && w.rtype == rtype && w.written == isAnythingWritten && (w.pending == [] <==> wrNext == 0)
      modifies this`wrNext, this`isAnythingWritten, this`rawWrite, buff, conn`sent, req`nWriters
      ensures rawWrite && wrNext <= stop && req.nWriters == old(req.nWriters) - 1
      ensures RawOut() == old(RawOut()) + EncodeAll(CloseRecords(w, req.requestId, old(req.nWriters), req.appStatus))
      decreases false, 0, 4
    {
      hide Encode;
      rawWrite := true;
      ghost var records: seq<Record> := [];
      ghost var out := RawOut();
      if !(rtype == STDERR && wrNext == 0 && !isAnythingWritten) {
        EncodeEof(rtype, req.requestId);
        records := [EofRecord(rtype, req.requestId)];
        var _ := PutStr(MakeHeader(rtype, req.requestId, 0, 0));
      }
      assert RawOut() == out + EncodeAll(records);
      if req.nWriters == 1 {
        EncodeEnd(req.requestId, req.appStatus);
        EncodeAllSnoc(records, EndRecord(req.requestId, req.appStatus));
        ConcatAssociates(out, EncodeAll(records), Encode(EndRecord(req.requestId, req.appStatus)));
        var _ := PutStr(MakeHeader(END_REQUEST, req.requestId, 8, 0)
            + MakeEndRequestBody(req.appStatus, REQUEST_COMPLETE));
      }
      req.nWriters := req.nWriters - 1;
    }

    static lemma EncodeEof(rtype: byte, id: nat)
      requires id < 0x10000
      ensures EncodeAll([EofRecord(rtype, id)]) == MakeHeader(rtype, id, 0, 0)
    {
      EncodeAllOne(EofRecord(rtype, id));
    }

    static lemma EncodeEnd(id: nat, appStatus: int)
      requires id < 0x10000
      ensures Encode(EndRecord(id, appStatus)) == MakeHeader(END_REQUEST, id, 8, 0)
              + MakeEndRequestBody(appStatus, REQUEST_COMPLETE)
    {
      var e := MakeHeader(END_REQUEST, id, 8, 0) + MakeEndRequestBody(appStatus, REQUEST_COMPLETE);
      assert e + [] == e;
    }

    // EmptyBuffProc
    method EmptyBuff(doClose: bool)
      requires Buffered()
      requires if rawWrite then !doClose && wrNext <= stop == buff.Length else Valid() && !isClosed
      modifies this`wrNext, this`isAnythingWritten, this`rawWrite, buff, conn`sent, req`nWriters
      ensures if old(rawWrite) then
                rawWrite && wrNext == 0 && conn.sent == old(RawOut()) && req.nWriters == old(req.nWriters)
              else if !doClose then
                var f := Flush(old(State()), req.requestId);
                && Valid() && State() == f.stream && req.nWriters == old(req.nWriters)
                && conn.sent == old(conn.sent) + EncodeAll(f.records)
              else
                var f := Close(old(State()), req.requestId, old(req.nWriters), req.appStatus);
                && rawWrite && wrNext == 0 && req.nWriters == old(req.nWriters) - 1
                && conn.sent == old(conn.sent) + EncodeAll(f.records)
      decreases doClose, 0, 0
    {
      hide Encode;
      ghost var sent, framed := conn.sent, [];
      if !rawWrite {
        ghost var w := State();
        FrameBuffer();
        framed := Flush(w, req.requestId).records;
        if doClose {
          ghost var closing := CloseRecords(w, req.requestId, req.nWriters, req.appStatus);
          WriteCloseRecords(w);
          EncodeAllConcat(framed, closing);
          ConcatAssociates(sent, EncodeAll(framed), EncodeAll(closing));
        }
      }
      WriteBuffer();
    }

    // FCGX_PutStr; in raw mode, the bytes go out unframed.
    method PutStr(str: seq<byte>) returns (n: int)
      requires Buffered()
      requires if rawWrite && !isClosed then wrNext <= stop == buff.Length else Valid()
      modifies this`wrNext, this`isAnythingWritten, this`rawWrite, buff, conn`sent, req`nWriters
      ensures rawWrite == old(rawWrite) && req.nWriters == old(req.nWriters)
      ensures if isClosed then
                && n == (if str == [] then 0 else -1)
                && Valid() && State() == old(State()) && conn.sent == old(conn.sent)
              else if rawWrite then
                n == |str| && wrNext <= stop && RawOut() == old(RawOut()) + str
              else
                var f := Put(old(State()), req.requestId, str);
                && n == |str| && Valid() && State() == f.stream
                && conn.sent == old(conn.sent) + EncodeAll(f.records)
      decreases false, 0, 3
    {
      hide Put, Flush, Encode;
      if |str| <= stop - wrNext {
        if !rawWrite {
          Fits(str);
        }
        Append(str);
        return |str|;
      }
      if isClosed {
        return -1;
      }
      if rawWrite {
        PutRaw(str);
      } else {
        PutFramed(str);
      }
      return |str|;
    }

    lemma Fits(str: seq<byte>)
      requires Valid() && !isClosed && |str| <= stop - wrNext
      ensures Put(State(), req.requestId, str) == Step(State().(pending := State().pending + str), [])
    {
    }

    // The general case of PutStr in normal mode.
    method PutFramed(str: seq<byte>)
      requires Valid() && !isClosed && str != []
      modifies this`wrNext, this`isAnythingWritten, this`rawWrite, buff, conn`sent, req`nWriters
      ensures rawWrite == old(rawWrite) && req.nWriters == old(req.nWriters)
      ensures var f := Put(old(State()), req.requestId, str);
              Valid() && State() == f.stream && conn.sent == old(conn.sent) + EncodeAll(f.records)
      decreases false, 0, 2
    {
      hide Put, Flush, Encode, EncodeAll;
      EncodeAllNone();
      ghost var f := Put(State(), req.requestId, str);
      ghost var emitted: seq<Record> := [];
      var moved := 0;
      assert str[0..] == str && [] + f.records == f.records;
      while moved < |str|
        invariant Valid() && !isClosed && req.nWriters == old(req.nWriters) && moved <= |str|
        invariant conn.sent == old(conn.sent) + EncodeAll(emitted)
        invariant Remains(f, emitted, str[moved..])
        decreases |str| - moved, stop - wrNext == 0
      {
        if wrNext != stop {
          moved := Absorb(str, moved, f, emitted);
          if moved == |str| {
            break;
          }
        }
        ghost var g := Flush(State(), req.requestId).records;
        SendFull(f, emitted, str[moved..]);
        emitted := emitted + g;
      }
      Fits([]);
      assert str[moved..] == [] && State().pending + [] == State().pending && emitted + [] == emitted;
    }

    // f is what putting rest, after emitted has been sent, comes to.
    ghost predicate Remains(f: Step, emitted: seq<Record>, rest: seq<byte>)
      requires Valid() && !isClosed
      reads this, req`requestId, buff
    {
      var r := Put(State(), req.requestId, rest);
      f == Step(r.stream, emitted + r.records)
    }

    // One memcpy of PutStr.
    method Absorb(str: seq<byte>, moved: nat, ghost f: Step, ghost emitted: seq<Record>) returns (now: nat)
      requires Valid() && !isClosed && moved < |str| && wrNext < stop
      requires Remains(f, emitted, str[moved..])
      modifies this`wrNext, buff
      ensures Valid() && moved < now <= |str| && (now < |str| ==> wrNext == stop)
      ensures Remains(f, emitted, str[now..])
    {
      hide Put;
      ghost var rest := str[moved..];
      var m := Min(|str| - moved, stop - wrNext);
      PutAbsorbs(State(), req.requestId, rest, m);
      now := moved + m;
      AppendContent(str[moved..now]);
      assert rest[..m] == str[moved..now] && rest[m..] == str[now..];
    }

    // The call of emptyBuffProc when the buffer is full.
    method SendFull(ghost f: Step, ghost emitted: seq<Record>, ghost rest: seq<byte>)
      requires Valid() && !isClosed && wrNext == stop && rest != []
      requires Remains(f, emitted, rest)
      modifies this`wrNext, this`isAnythingWritten, this`rawWrite, buff, conn`sent, req`nWriters
      ensures Valid() && !isClosed && req.nWriters == old(req.nWriters) && wrNext < stop
      ensures var g := Flush(old(State()), req.requestId).records;
              && Remains(f, emitted + g, rest)
              && forall before :: old(conn.sent) == before + EncodeAll(emitted) ==>
                 conn.sent == before + EncodeAll(emitted + g)
      decreases false, 0, 1
    {
      hide Put, Encode;
      ghost var g := Flush(State(), req.requestId).records;
      PutSends(State(), req.requestId, rest);
      EncodeAllConcat(emitted, g);
      EmptyBuff(false);
      ConcatAssociates(emitted, g, Put(State(), req.requestId, rest).records);
    }

    method AppendContent(s: seq<byte>)
      requires Valid() && !isClosed && wrNext + |s| <= stop
      modifies this`wrNext, buff
      ensures Valid() && wrNext == old(wrNext) + |s|
      ensures State() == old(State()).(pending := old(State()).pending + s)
    {
      Append(s);
      assert buff[HEADER_LEN..wrNext] == buff[..wrNext][HEADER_LEN..];
    }

    // The general case of PutStr in raw mode.
    method PutRaw(str: seq<byte>)
      requires Buffered() && rawWrite && !isClosed && wrNext <= stop == buff.Length && str != []
      modifies this`wrNext, this`isAnythingWritten, this`rawWrite, buff, conn`sent, req`nWriters
      ensures rawWrite && wrNext <= stop && req.nWriters == old(req.nWriters)
      ensures RawOut() == old(RawOut()) + str
      decreases false, 0, 1
    {
      ghost var out := RawOut();
      var moved := 0;
      while true
        invariant rawWrite && wrNext <= stop && req.nWriters == old(req.nWriters) && moved < |str|
        invariant RawOut() == out + str[..moved]
        decreases |str| - moved, stop - wrNext == 0
      {
        if wrNext != stop {
          moved := AppendRaw(str, moved, out);
          if moved == |str| {
            assert str[..moved] == str;
            return;
          }
        }
        EmptyBuff(false);
      }
    }

    method AppendRaw(str: seq<byte>, moved: nat, ghost out: seq<byte>) returns (now: nat)
      requires moved < |str| && wrNext < stop == buff.Length && RawOut() == out + str[..moved]
      modifies this`wrNext, buff
      ensures moved < now <= |str| && wrNext <= stop && (now < |str| ==> wrNext == stop)
      ensures RawOut() == out + str[..now]
    {
      now := moved + Min(|str| - moved, stop - wrNext);
      Append(str[moved..now]);
      assert str[..now] == str[..moved] + str[moved..now];
      ConcatAssociates(out, str[..moved], str[moved..now]);
      ConcatAssociates(conn.sent, old(buff[..wrNext]), str[moved..now]);
    }

    // FCGX_PutChar
    method PutChar(c: byte) returns (r: int)
      requires Valid()
      modifies this`wrNext, this`isAnythingWritten, this`rawWrite, buff, conn`sent, req`nWriters
      ensures Valid() && req.nWriters == old(req.nWriters)
      ensures if isClosed then
                r == -1 && State() == old(State()) && conn.sent == old(conn.sent)
              else
                var f := Put(old(State()), req.requestId, [c]);
                r == c && State() == f.stream && conn.sent == old(conn.sent) + EncodeAll(f.records)
    {
      hide Put, Encode;
      ghost var w, id := State(), req.requestId;
      if wrNext != stop {
        Fits([c]);
        AppendContent([c]);
        return c;
      }
      if isClosed {
        return -1;
      }
      PutSends(w, id, [c]);
      EmptyBuff(false);
      Fits([c]);
      ghost var g := Flush(w, id).records;
      assert g + [] == g;
      AppendContent([c]);
      return c;
    }

    // FCGX_FFlush; 0, as writes do not fail.
    method FFlush() returns (r: int)
      requires Valid()
      modifies this`wrNext, this`isAnythingWritten, this`rawWrite, buff, conn`sent, req`nWriters
      ensures r == 0 && Valid() && req.nWriters == old(req.nWriters)
      ensures var f := Flush(old(State()), req.requestId);
              State() == f.stream && conn.sent == old(conn.sent) + EncodeAll(f.records)
    {
      if isClosed {
        return 0;
      }
      EmptyBuff(false);
      return if isClosed then -1 else 0;
    }

    // FCGX_FClose; 0, as writes do not fail.
    method FClose() returns (r: int)
      requires Valid()
      modifies this, buff, conn`sent, req`nWriters
      ensures r == 0 && Valid() && isClosed
      ensures var f := Close(old(State()), req.requestId, old(req.nWriters), req.appStatus);
              State() == f.stream && conn.sent == old(conn.sent) + EncodeAll(f.records)
      ensures req.nWriters == old(req.nWriters) - (if old(isClosed) then 0 else 1)
    {
      if !wasFCloseCalled {
        EmptyBuff(true);
        wasFCloseCalled := true;
        isClosed := true;
        stop := wrNext;
      }
      return 0;
    }
  }
}
