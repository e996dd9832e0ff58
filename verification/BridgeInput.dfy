/** The CGI bridge's forwarding of its standard input: WebServerReadHandler,
    AppServerWriteHandler and WriteStdinEof over the buffer fromWS. */
module BridgeInput {
  import opened Protocol
  import opened BridgeOutput
  import opened Delivery
  import opened Scan

  function StdinRecord(id: nat, content: seq<byte>): Record
    requires id < 0x10000 && |content| <= MAX_LENGTH
  {
    Record(STDIN, id, content, [])
  }

  // STDIN records with content.
  predicate AllData(rs: seq<Record>, id: nat) {
    forall r :: r in rs ==> r.rtype == STDIN && r.id == id && r.content != [] && r.padding == []
  }

  class Forwarder {
    const requestId: nat
    const fromWS: Buffer
    const contentLength: int
    var bytesToRead: int
    var webServerReadHandlerEOF: bool
    var stdinEofSent: bool
    ghost var received: seq<byte>   // read from standard input so far
    ghost var taken: seq<byte>      // written to the application so far
    ghost var log: seq<Record>      // records produced so far

    ghost predicate Framed()
      reads this, fromWS
    {
      && 0 < requestId < 0x10000 && fromWS.buff.Length == BUFFLEN
      && fromWS.next <= fromWS.stop <= BUFFLEN
    }

    function Ended(): bool
      reads this
    {
      webServerReadHandlerEOF || stdinEofSent
    }

    // Bytes waiting to be written.
    ghost function Waiting(): seq<byte>
      requires Framed()
      reads this, fromWS, fromWS.buff
    {
      fromWS.buff[fromWS.next..fromWS.stop]
    }

    /** What has been and will be written are STDIN records with the bytes received, and
        one empty record, the last one, as soon as the input has ended: by its own end or
        by the bytes announced having come. */
    ghost predicate Valid()
      reads this, fromWS, fromWS.buff
    {
      && Framed()
      && taken + Waiting() == EncodeAll(log)
      && Contents(log, STDIN, requestId) == received
      && (if Ended() then
            log != [] && log[|log| - 1] == StdinRecord(requestId, []) && AllData(log[..|log| - 1], requestId)
          else AllData(log, requestId))
      && bytesToRead == contentLength - |received|
      && (stdinEofSent <==> bytesToRead <= 0)
      && (fromWS.next == fromWS.stop ==> fromWS.next == 0)
    }

    constructor (requestId: nat, contentLength: int)
      requires 0 < requestId < 0x10000
      ensures Valid() && fresh(fromWS) && fresh(fromWS.buff)
      ensures this.requestId == requestId && this.contentLength == contentLength
      ensures received == [] && taken == [] && fromWS.next == 0 && !webServerReadHandlerEOF
      ensures stdinEofSent == (contentLength <= 0)
    {
      this.requestId, this.contentLength, bytesToRead := requestId, contentLength, contentLength;
      fromWS := new Buffer();
      webServerReadHandlerEOF, stdinEofSent := false, false;
      received, taken, log := [], [], [];
      new;
      hide Contents, EncodeAll;
      ContentsNone(STDIN, requestId);
      EncodeAllNone();
      assert taken + Waiting() == [];
      if bytesToRead <= 0 {
        WriteStdinEof();
      }
    }

    // WriteStdinEof
    method WriteStdinEof()
      requires Framed()
      requires !stdinEofSent ==>
        && fromWS.stop + HEADER_LEN <= BUFFLEN && !webServerReadHandlerEOF
        && taken + Waiting() == EncodeAll(log) && Contents(log, STDIN, requestId) == received
      modifies this`stdinEofSent, this`log, fromWS`stop, fromWS.buff
      ensures stdinEofSent && Framed() && fromWS.stop >= old(fromWS.stop)
      ensures old(stdinEofSent) ==> Waiting() == old(Waiting()) && log == old(log)
      ensures !old(stdinEofSent) ==>
        && taken + Waiting() == EncodeAll(log) && Contents(log, STDIN, requestId) == received
        && log == old(log) + [StdinRecord(requestId, [])]
    {
      if stdinEofSent {
        return;
      }
      hide Contents, EncodeAll;
      ghost var waiting := Waiting();
      Produced(waiting, []);
      var header := MakeHeader(STDIN, requestId, 0, 0);
      AddHeader(header);
      stdinEofSent := true;
      assert header + [] == header && received + [] == received;
      log := log + [StdinRecord(requestId, [])];
    }

    method AddHeader(header: seq<byte>)
      requires Framed() && |header| == HEADER_LEN && fromWS.stop + HEADER_LEN <= BUFFLEN
      modifies fromWS`stop, fromWS.buff
      ensures Framed() && Waiting() == old(Waiting()) + header && fromWS.stop >= old(fromWS.stop)
    {
      ghost var waiting := Waiting();
      forall i | 0 <= i < HEADER_LEN {
        fromWS.buff[fromWS.stop + i] := header[i];
      }
      fromWS.stop := fromWS.stop + HEADER_LEN;
      assert Waiting() == waiting + header;
    }

    // One more record with the given content, after the bytes of waiting.
    lemma Produced(waiting: seq<byte>, content: seq<byte>)
      requires 0 < requestId < 0x10000 && |content| <= MAX_LENGTH
      requires taken + waiting == EncodeAll(log)
      ensures taken + (waiting + (MakeHeader(STDIN, requestId, |content|, 0) + content))
           == EncodeAll(log + [StdinRecord(requestId, content)])
      ensures Contents(log + [StdinRecord(requestId, content)], STDIN, requestId)
              == Contents(log, STDIN, requestId) + content
    {
      hide Contents;
      var r := StdinRecord(requestId, content);
      EncodeAllSnoc(log, r);
      var e := MakeHeader(STDIN, requestId, |content|, 0) + content;
      assert Encode(r) == e + [];
      ConcatAssociates(taken, waiting, e);
      ContentsConcat(log, [r], STDIN, requestId);
      ContentsCons(r, [], STDIN, requestId);
      ContentsNone(STDIN, requestId);
      assert [r] + [] == [r] && content + [] == content;
    }

    // read from standard input into the empty buffer, behind the room for a header.
    method Fill(data: seq<byte>, offset: nat)
      requires Valid() && fromWS.next == 0 && fromWS.stop == 0 && offset + |data| <= BUFFLEN
      modifies fromWS.buff
      ensures Valid() && fromWS.buff[offset..offset + |data|] == data
    {
      assert Waiting() == [];
      forall i | 0 <= i < |data| {
        fromWS.buff[offset + i] := data[i];
      }
      assert Waiting() == [];
    }

    // WebServerReadHandler, up to the call of ScheduleIo: bytesRead bytes of standard
    // input stand in the buffer behind the room for a header. When they are the last ones
    // announced, the EOF record has to fit behind them.
    method WebServerReadHandler(bytesRead: nat)
      requires Valid() && !Ended() && fromWS.next == 0 && fromWS.stop == 0
      requires HEADER_LEN + bytesRead <= BUFFLEN
      requires bytesRead >= bytesToRead ==> HEADER_LEN + bytesRead + HEADER_LEN <= BUFFLEN
      modifies this, fromWS`stop, fromWS.buff
      ensures Valid() && fromWS.next == 0 && fromWS.stop > 0 && taken == old(taken)
      ensures received == old(received + fromWS.buff[HEADER_LEN..HEADER_LEN + bytesRead])
      ensures Ended() <==> bytesRead == 0 || |received| >= contentLength
      ensures var content := old(fromWS.buff[HEADER_LEN..HEADER_LEN + bytesRead]);
              log == old(log) + [StdinRecord(requestId, content)]
                     + if bytesRead >= old(bytesToRead) then [StdinRecord(requestId, [])] else []
    {
      hide Contents, EncodeAll, Encode;
      ghost var content, before := fromWS.buff[HEADER_LEN..HEADER_LEN + bytesRead], log;
      FrameContent(bytesRead);
      bytesToRead := bytesToRead - bytesRead;
      webServerReadHandlerEOF := bytesRead == 0;
      ghost var produced := log;
      assert produced[..|produced| - 1] == before;
      if bytesToRead <= 0 {
        WriteStdinEof();
        assert log[..|log| - 1] == produced;
      }
    }

    // The header of what has been read.
    method FrameContent(bytesRead: nat)
      requires Framed() && fromWS.next == 0 && fromWS.stop == 0 && HEADER_LEN + bytesRead <= BUFFLEN
      requires taken + Waiting() == EncodeAll(log) && Contents(log, STDIN, requestId) == received
      modifies this`received, this`log, fromWS`stop, fromWS.buff
      ensures Framed() && fromWS.next == 0 && fromWS.stop == HEADER_LEN + bytesRead
      ensures var content := old(fromWS.buff[HEADER_LEN..HEADER_LEN + bytesRead]);
              && received == old(received) + content
              && log == old(log) + [StdinRecord(requestId, content)]
      ensures taken + Waiting() == EncodeAll(log) && Contents(log, STDIN, requestId) == received
    {
      hide Contents, EncodeAll, Encode;
      ghost var content := fromWS.buff[HEADER_LEN..HEADER_LEN + bytesRead];
      var header := MakeHeader(STDIN, requestId, bytesRead, 0);
      forall i | 0 <= i < HEADER_LEN {
        fromWS.buff[i] := header[i];
      }
      fromWS.stop := HEADER_LEN + bytesRead;
      assert Waiting() == [] + (header + content);
      Produced([], content);
      received := received + content;
      log := log + [StdinRecord(requestId, content)];
    }

    // AppServerWriteHandler, up to the call of ScheduleIo.
    method AppServerWriteHandler(bytesWritten: nat)
      requires Valid() && fromWS.next < fromWS.stop && bytesWritten <= fromWS.stop - fromWS.next
      modifies this`taken, fromWS`next, fromWS`stop
      ensures Valid() && taken == old(taken) + old(Waiting())[..bytesWritten]
      ensures fromWS.next == fromWS.stop ==> fromWS.next == 0
    {
      var length := fromWS.stop - fromWS.next;
      ghost var waiting := Waiting();
      taken := taken + waiting[..bytesWritten];
      assert waiting[..bytesWritten] + waiting[bytesWritten..] == waiting;
      if bytesWritten < length {
        fromWS.next := fromWS.next + bytesWritten;
        assert Waiting() == waiting[bytesWritten..];
      } else {
        fromWS.stop, fromWS.next := 0, 0;
        assert Waiting() == waiting[bytesWritten..];
      }
    }
  }

  /** What the forwarder has sent when its input has ended reaches the application: a
      reader of the request's STDIN stream gets the bytes of standard input, then EOF. */
  lemma StdinDelivered(c: Context, data: seq<Record>, more: seq<byte>)
    requires Serving(c) && c.rtype == STDIN && AllData(data, c.requestId)
    ensures ScanStream(c, START, EncodeAll(data + [StdinRecord(c.requestId, [])]) + more)
         == Outcome([], [], Eof(false, 0, more)).Behind(Contents(data, STDIN, c.requestId))
  {
    hide ScanStream, Encode;
    var last := StdinRecord(c.requestId, []);
    DataRoutine(c, data);
    EncodeAllSnoc(data, last);
    ConcatAssociates(EncodeAll(data), Encode(last), more);
    StreamDelivered(c, data, last, more);
    var got := Contents(data, STDIN, c.requestId);
    assert [] + more == more && got + [] == got && Same(|got|, 0) + [] == Same(|got|, 0);
  }
}
