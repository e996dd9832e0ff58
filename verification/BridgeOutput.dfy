/** The CGI bridge's reader of the application's output: AppServerReadHandler and its
    static variables, proved against module Demux. */
module BridgeOutput {
  import opened Protocol
  import opened Demux
  import opened Connection
  import Scan

  const BUFFLEN := 8192

  /** The simple buffer of the event handlers. */
  class Buffer {
    var next: nat
    var stop: nat
    const buff: array<byte>

    constructor ()
      ensures next == 0 && stop == 0 && buff.Length == BUFFLEN && fresh(buff)
    {
      next, stop := 0, 0;
      buff := new byte[BUFFLEN](_ => 0);
    }

    // GetPtr: skips at most n bytes and says where they are and how many.
    method GetPtr(n: nat) returns (ptr: nat, count: nat)
      requires next <= stop
      modifies this`next
      ensures ptr == old(next) && count == Min(n, stop - ptr) && next == ptr + count
    {
      ptr := next;
      count := Min(n, stop - next);
      next := next + count;
    }
  }

  class Receiver {
    const conn: Connection
    const requestId: nat
    const fromAS: Buffer
    const header: array<byte>
    var headerLen: nat
    var contentLen: nat
    var paddingLen: nat
    const erBody: array<byte>
    var readingEndRequestBody: bool
    var exitStatus: int
    var exitStatusSet: bool
    var exitCode: Option<int>   // set when the program has exited
    var stdout: seq<byte>       // written to file descriptor 1
    var stderr: seq<byte>       // written to file descriptor 2

    ghost predicate Valid()
      reads this
    {
      && fromAS.buff.Length == BUFFLEN && header.Length == HEADER_LEN && erBody.Length == 8
      && fromAS.buff != header && fromAS.buff != erBody && header != erBody
      && headerLen <= HEADER_LEN
    }

    // Neither a header nor an END_REQUEST body has arrived in part only. The code
    // continues such a copy at an offset counted in whole structs, so it relies on this.
    predicate Whole()
      reads this
    {
      (headerLen == 0 || headerLen == HEADER_LEN) && !readingEndRequestBody
    }

    // Input that has not been looked at.
    ghost function Unread(): seq<byte>
      requires fromAS.next <= fromAS.stop <= fromAS.buff.Length
      reads fromAS, fromAS.buff, conn
    {
      fromAS.buff[fromAS.next..fromAS.stop] + conn.input
    }

    lemma UnreadFrom(start: nat, k: nat)
      requires start + k <= fromAS.stop <= fromAS.buff.Length
      ensures var s := fromAS.buff[start..fromAS.stop] + conn.input;
              s[..k] == fromAS.buff[start..start + k] && s[k..] == fromAS.buff[start + k..fromAS.stop] + conn.input
    {
    }

    // What the bridge still demands of the bytes s.
    ghost function Ahead(s: seq<byte>): Outcome
      requires Valid()
      reads this, header, erBody
    {
      if headerLen < HEADER_LEN then AtBoundary(requestId, header[..headerLen] + s)
      else
        var rtype := header[1];
        if rtype == STDOUT || rtype == STDERR then Demand(requestId, Position(rtype, contentLen, paddingLen), s)
        else if rtype == END_REQUEST then
          if readingEndRequestBody && contentLen <= 8 then AtEnd(8, paddingLen, erBody[..8 - contentLen] + s)
          else AtEnd(contentLen, paddingLen, s)
        else HANGUP
    }

    /** All of both streams, written and still to come, and how the bridge ends. */
    ghost function Total(s: seq<byte>): Outcome
      requires Valid()
      reads this, header, erBody
    {
      var o := Ahead(s);
      o.(stdout := stdout + o.stdout, stderr := stderr + o.stderr)
    }

    // Bytes follow the END_REQUEST record.
    static predicate Trailing(o: Outcome) {
      o.end.Ended? && o.end.rest != []
    }

    // The end has been reached, and bytes behind it may have been written as well.
    ghost predicate Over(o: Outcome)
      reads this`stdout, this`stderr
    {
      Trailing(o) && o.stdout <= stdout && o.stderr <= stderr
    }

    // State of the bridge when the whole outcome is o and s is unread. Everything demanded
    // has been written when it ends, and nothing else unless bytes follow the last record.
    ghost predicate Settled(o: Outcome, s: seq<byte>)
      requires Valid()
      reads this, header, erBody
    {
      if !exitStatusSet && exitCode == None then Total(s) == o
      else
        || Over(o)
        || (stdout == o.stdout && stderr == o.stderr
            && (if exitCode.Some? then o.end == Exit(exitCode.value)
                else o.end == Ended(exitStatus, []) && |s| <= paddingLen))
    }

    // Reading goes on after the end only behind it.
    ghost predicate Going(o: Outcome)
      reads this`stdout, this`stderr, this`exitStatusSet
    {
      exitStatusSet ==> Over(o)
    }

    constructor (conn: Connection, requestId: nat)
      ensures Valid() && Whole() && fresh(fromAS) && fresh(header) && fresh(erBody) && fresh(fromAS.buff)
      ensures this.conn == conn && this.requestId == requestId && !exitStatusSet && exitCode == None
      ensures Total(conn.input) == AtBoundary(requestId, conn.input)
    {
      this.conn, this.requestId := conn, requestId;
      fromAS := new Buffer();
      header := new byte[HEADER_LEN](_ => 0);
      erBody := new byte[8](_ => 0);
      headerLen, contentLen, paddingLen, readingEndRequestBody := 0, 0, 0, false;
      exitStatus, exitStatusSet, exitCode := 0, false, None;
      stdout, stderr := [], [];
      new;
      assert [] + conn.input == conn.input;
      var o := AtBoundary(requestId, conn.input);
      assert [] + o.stdout == o.stdout && [] + o.stderr == o.stderr;
    }

    // A call of exit.
    method ExitWith(code: int)
      modifies this`exitCode
      ensures exitCode == Some(code)
    {
      exitCode := Some(code);
    }

    // AppServerReadHandler, up to the call of ScheduleIo.
    method Handle(bytesRead: nat, ghost o: Outcome)
      requires Valid() && Whole() && !exitStatusSet && exitCode == None
      requires fromAS.next == 0 && bytesRead <= BUFFLEN && (bytesRead == 0 ==> conn.input == [])
      requires Total(fromAS.buff[..bytesRead] + conn.input) == o
      modifies this, fromAS, header, erBody
      ensures Valid() && Settled(o, conn.input)
      ensures bytesRead == 0 ==> exitCode == Some(Scan.PROTOCOL_ERROR)
    {
      hide AtBoundary, Demand, AtEnd;
      if bytesRead == 0 {
        assert [] + conn.input == [];
        HungUp();
        ExitWith(Scan.PROTOCOL_ERROR);
        return;
      }
      fromAS.stop := fromAS.next + bytesRead;
      while fromAS.next != fromAS.stop && exitCode == None
        invariant Valid() && fromAS.next <= fromAS.stop <= BUFFLEN
        invariant Settled(o, Unread())
        invariant exitCode == None && fromAS.next != fromAS.stop ==> Whole() && Going(o)
        decreases exitCode == None, fromAS.stop - fromAS.next, headerLen
      {
        hide Settled;
        if headerLen < HEADER_LEN {
          ReadHeader(o);
        } else {
          ReadBody(o);
        }
      }
      AllRead(o);
    }

    lemma AllRead(o: Outcome)
      requires Valid() && fromAS.next <= fromAS.stop <= BUFFLEN && Settled(o, Unread())
      requires fromAS.next == fromAS.stop || exitCode.Some?
      ensures Settled(o, conn.input)
    {
      if fromAS.next == fromAS.stop {
        assert Unread() == conn.input;
      }
    }

    // The future at the end of the connection.
    lemma HungUp()
      requires Valid() && !readingEndRequestBody
      ensures Ahead([]) == HANGUP
    {
    }

    // The bytes of a header that has not been begun before.
    method TakeHeader(ghost o: Outcome)
      requires Valid() && fromAS.next < fromAS.stop <= BUFFLEN && headerLen == 0 && Whole()
      requires exitCode == None && Settled(o, Unread()) && Going(o)
      modifies this`headerLen, fromAS`next, header
      ensures Valid() && old(fromAS.next) < fromAS.next <= fromAS.stop
      ensures headerLen < HEADER_LEN ==> Settled(o, Unread()) && fromAS.next == fromAS.stop
      ensures headerLen == HEADER_LEN ==> SettledHeader(o, Unread())
    {
      hide AfterHeader, ParseHeader;
      ghost var s := Unread();
      assert header[..0] + s == s;
      CopyHeader();
      assert header[..headerLen] + Unread() == s;
      if headerLen == HEADER_LEN {
        assert s[..HEADER_LEN] == header[..] && s[HEADER_LEN..] == Unread();
      }
    }

    method CopyHeader()
      requires Valid() && fromAS.next < fromAS.stop <= BUFFLEN && headerLen == 0
      modifies this`headerLen, fromAS`next, header
      ensures Valid() && old(fromAS.next) < fromAS.next <= fromAS.stop && headerLen > 0
      ensures headerLen < HEADER_LEN ==> fromAS.next == fromAS.stop
      ensures header[..headerLen] + Unread() == old(Unread())
    {
      ghost var s := Unread();
      var ptr, count := fromAS.GetPtr(HEADER_LEN - headerLen);
      UnreadFrom(ptr, count);
      ghost var t := fromAS.buff[ptr..ptr + count];
      forall i | 0 <= i < count {
        header[i] := fromAS.buff[ptr + i];
      }
      headerLen := headerLen + count;
      assert header[..headerLen] == t && s[..count] + s[count..] == s;
    }

    // The same as Settled, before the fields of a complete header have been looked at.
    ghost predicate SettledHeader(o: Outcome, s: seq<byte>)
      requires Valid()
      reads this, header
    {
      if exitStatusSet then Over(o)
      else
        var f := AfterHeader(requestId, ParseHeader(header[..]), s);
        o == f.(stdout := stdout + f.stdout, stderr := stderr + f.stderr)
    }

    // The first branch of AppServerReadHandler's loop.
    method ReadHeader(ghost o: Outcome)
      requires Valid() && fromAS.next < fromAS.stop <= BUFFLEN && headerLen == 0 && Whole()
      requires exitCode == None && Settled(o, Unread()) && Going(o)
      modifies this`headerLen, this`contentLen, this`paddingLen, this`exitCode, fromAS`next, header
      ensures Valid() && old(fromAS.next) < fromAS.next <= fromAS.stop
      ensures Settled(o, Unread())
      ensures exitCode == None && fromAS.next != fromAS.stop ==> Whole() && Going(o)
    {
      hide AtBoundary, Demand, AtEnd;
      TakeHeader(o);
      if headerLen < HEADER_LEN {
        return;
      }
      var h := ParseHeader(header[..]);
      assert stdout + [] == stdout && stderr + [] == stderr;
      if h.version != VERSION_1 {
        ExitWith(Scan.UNSUPPORTED_VERSION);
        return;
      }
      if h.requestId != requestId {
        ExitWith(Scan.PROTOCOL_ERROR);
        return;
      }
      contentLen := h.contentLength;
      paddingLen := h.paddingLength;
    }

    // The second branch of the loop: the header is complete.
    method ReadBody(ghost o: Outcome)
      requires Valid() && fromAS.next < fromAS.stop <= BUFFLEN && headerLen == HEADER_LEN && Whole()
      requires exitCode == None && Settled(o, Unread()) && Going(o)
      modifies this, fromAS`next, erBody
      ensures Valid() && old(fromAS.next) <= fromAS.next <= fromAS.stop == old(fromAS.stop)
      ensures old(fromAS.next) < fromAS.next || headerLen == 0 || exitCode.Some?
      ensures Settled(o, Unread())
      ensures exitCode == None && fromAS.next != fromAS.stop ==> Whole() && Going(o)
    {
      hide AtBoundary, Demand, AtEnd, Settled;
      if header[1] == STDOUT || header[1] == STDERR {
        WriteContent(o);
        if contentLen == 0 {
          SkipPadding(o);
        }
      } else if header[1] == END_REQUEST {
        ReadEnd(o);
      } else {
        NoSuchType(o, Unread());
        ExitWith(Scan.PROTOCOL_ERROR);
        Exited(o, Unread());
      }
    }

    lemma NoSuchType(o: Outcome, s: seq<byte>)
      requires Valid() && headerLen == HEADER_LEN && exitCode == None && Settled(o, s) && s != [] && Going(o)
      requires header[1] != STDOUT && header[1] != STDERR && header[1] != END_REQUEST
      ensures Over(o) || o == Outcome(stdout, stderr, Exit(Scan.PROTOCOL_ERROR))
    {
      assert stdout + [] == stdout && stderr + [] == stderr;
    }

    lemma Exited(o: Outcome, s: seq<byte>)
      requires Valid() && exitCode.Some?
      requires Over(o) || o == Outcome(stdout, stderr, Exit(exitCode.value))
      ensures Settled(o, s)
    {
    }

    // The STDOUT and STDERR case.
    method WriteContent(ghost o: Outcome)
      requires Valid() && fromAS.next < fromAS.stop <= BUFFLEN && headerLen == HEADER_LEN && exitCode == None
      requires (header[1] == STDOUT || header[1] == STDERR) && Settled(o, Unread()) && Going(o)
      modifies this`contentLen, this`stdout, this`stderr, fromAS`next
      ensures Valid() && old(fromAS.next) <= fromAS.next <= fromAS.stop
      ensures contentLen > 0 ==> fromAS.next == fromAS.stop
      ensures old(contentLen) > 0 ==> fromAS.next > old(fromAS.next)
      ensures Settled(o, Unread()) && Going(o)
    {
      hide AtBoundary, Demand, AtEnd;
      ghost var s, p := Unread(), Position(header[1], contentLen, paddingLen);
      var ptr, count := fromAS.GetPtr(contentLen);
      ContentDemanded(requestId, p, s, count);
      UnreadFrom(ptr, count);
      contentLen := contentLen - count;
      ghost var rest := Demand(requestId, p.(content := contentLen), s[count..]);
      ConcatAssociates(stdout, s[..count], rest.stdout);
      ConcatAssociates(stderr, s[..count], rest.stderr);
      if header[1] == STDOUT {
        stdout := stdout + fromAS.buff[ptr..ptr + count];
      } else {
        stderr := stderr + fromAS.buff[ptr..ptr + count];
      }
    }

    // The end of the loop body for a stream record whose content has been written.
    method SkipPadding(ghost o: Outcome)
      requires Valid() && fromAS.next <= fromAS.stop <= BUFFLEN && headerLen == HEADER_LEN && exitCode == None
      requires (header[1] == STDOUT || header[1] == STDERR) && contentLen == 0 && Settled(o, Unread()) && Going(o)
      modifies this`paddingLen, this`headerLen, fromAS`next
      ensures Valid() && old(fromAS.next) <= fromAS.next <= fromAS.stop
      ensures headerLen == 0 || (headerLen == HEADER_LEN && fromAS.next == fromAS.stop)
      ensures headerLen == HEADER_LEN && old(fromAS.next) < fromAS.stop ==> fromAS.next > old(fromAS.next)
      ensures Settled(o, Unread())
    {
      hide AtBoundary, Demand, AtEnd;
      ghost var s, p := Unread(), Position(header[1], contentLen, paddingLen);
      if paddingLen > 0 {
        var ptr, count := fromAS.GetPtr(paddingLen);
        PaddingDemanded(requestId, p, s, count);
        UnreadFrom(ptr, count);
        paddingLen := paddingLen - count;
      }
      if paddingLen == 0 {
        RecordDone(requestId, Position(header[1], 0, 0), Unread());
        headerLen := 0;
        assert header[..0] + Unread() == Unread();
      }
    }

    // The END_REQUEST case.
    method ReadEnd(ghost o: Outcome)
      requires Valid() && fromAS.next < fromAS.stop <= BUFFLEN && headerLen == HEADER_LEN && Whole()
      requires header[1] == END_REQUEST && exitCode == None && Settled(o, Unread()) && Going(o)
      modifies this, fromAS`next, erBody
      ensures Valid() && old(fromAS.next) <= fromAS.next <= fromAS.stop == old(fromAS.stop)
      ensures old(fromAS.next) < fromAS.next || headerLen == 0 || exitCode.Some?
      ensures Settled(o, Unread())
      ensures exitCode == None && fromAS.next != fromAS.stop ==> Whole() && Going(o)
    {
      hide AtBoundary, Demand, AtEnd, Settled;
      ghost var s := Unread();
      EndAhead(o, s);
      if !readingEndRequestBody {
        if contentLen != 8 {
          BadEnd(o, contentLen, s);
          ExitWith(Scan.PROTOCOL_ERROR);
          Exited(o, s);
          return;
        }
        readingEndRequestBody := true;
      }
      TakeBody(s);
      if contentLen == 0 {
        BodyDone(o, s);
      } else {
        BodyInPart(o, s, Unread());
      }
    }

    // The END_REQUEST body s[..8] is complete.
    method BodyDone(ghost o: Outcome, ghost s: seq<byte>)
      requires Valid() && fromAS.next <= fromAS.stop <= BUFFLEN && headerLen == HEADER_LEN && exitCode == None
      requires contentLen == 0 && |s| >= 8 && erBody[..] == s[..8] && Unread() == s[8..]
      requires Over(o) || o == OnTop(AtEnd(8, paddingLen, s))
      modifies this`exitCode, this`exitStatus, this`exitStatusSet, this`readingEndRequestBody, this`paddingLen,
               this`headerLen
      modifies fromAS`next
      ensures Valid() && old(fromAS.next) <= fromAS.next <= fromAS.stop
      ensures Settled(o, Unread())
      ensures exitCode == None ==> Whole() && (Going(o) || fromAS.next == fromAS.stop)
      ensures exitCode == None ==>
                && fromAS.next - old(fromAS.next) == Min(old(paddingLen), fromAS.stop - old(fromAS.next))
                && paddingLen == old(paddingLen) - (fromAS.next - old(fromAS.next))
                && headerLen == (if paddingLen == 0 then 0 else HEADER_LEN)
    {
      hide AtBoundary, Demand, AtEnd, Settled;
      assert erBody[4] == s[4];
      if erBody[4] != REQUEST_COMPLETE {
        BadEnd(o, 8, s);
        ExitWith(Scan.PROTOCOL_ERROR);
        Exited(o, Unread());
        return;
      }
      GoodEnd(o, s);
      exitStatus := StatusOf(erBody[..]);
      exitStatusSet := true;
      readingEndRequestBody := false;
      if paddingLen > 0 {
        var _, count := fromAS.GetPtr(paddingLen);
        paddingLen := paddingLen - count;
      }
      if paddingLen == 0 {
        headerLen := 0;
      }
      Finished(o, Unread());
    }

    // The part of an END_REQUEST body that has arrived; it has not been begun before.
    method TakeBody(ghost s: seq<byte>)
      requires Valid() && fromAS.next < fromAS.stop <= BUFFLEN && contentLen == 8 && s == Unread()
      modifies this`contentLen, fromAS`next, erBody
      ensures Valid() && old(fromAS.next) < fromAS.next <= fromAS.stop
      ensures contentLen == 8 - (fromAS.next - old(fromAS.next))
      ensures contentLen > 0 ==> fromAS.next == fromAS.stop
      ensures 8 - contentLen <= |s| && erBody[..8 - contentLen] == s[..8 - contentLen]
              && Unread() == s[8 - contentLen..]
    {
      var ptr, count := fromAS.GetPtr(contentLen);
      UnreadFrom(ptr, count);
      ghost var t := fromAS.buff[ptr..ptr + count];
      forall i | 0 <= i < count {
        erBody[i] := fromAS.buff[ptr + i];
      }
      assert erBody[..count] == t;
      contentLen := contentLen - count;
    }

    // The whole outcome at an END_REQUEST header.
    lemma EndAhead(o: Outcome, s: seq<byte>)
      requires Valid() && headerLen == HEADER_LEN && header[1] == END_REQUEST && !readingEndRequestBody
      requires exitCode == None && Settled(o, s) && s != [] && Going(o)
      ensures if exitStatusSet then Over(o) else o == OnTop(AtEnd(contentLen, paddingLen, s))
    {
    }

    // An outcome after what has been written already.
    ghost function OnTop(f: Outcome): Outcome
      reads this`stdout, this`stderr
    {
      f.(stdout := stdout + f.stdout, stderr := stderr + f.stderr)
    }

    lemma BadEnd(o: Outcome, n: nat, s: seq<byte>)
      requires n != 8 || (|s| >= 8 && s[4] != REQUEST_COMPLETE)
      requires Over(o) || o == OnTop(AtEnd(n, paddingLen, s))
      ensures Over(o) || o == Outcome(stdout, stderr, Exit(Scan.PROTOCOL_ERROR))
    {
      assert stdout + [] == stdout && stderr + [] == stderr;
    }

    lemma GoodEnd(o: Outcome, s: seq<byte>)
      requires |s| >= 8 && s[4] == REQUEST_COMPLETE
      requires Over(o) || o == OnTop(AtEnd(8, paddingLen, s))
      ensures Over(o) || (|s[8..]| <= paddingLen && o == Outcome(stdout, stderr, Ended(StatusOf(s[..8]), [])))
    {
      assert stdout + [] == stdout && stderr + [] == stderr;
    }

    lemma Finished(o: Outcome, s: seq<byte>)
      requires Valid() && exitCode == None && exitStatusSet
      requires Over(o) || (|s| <= paddingLen && o == Outcome(stdout, stderr, Ended(exitStatus, [])))
      ensures Settled(o, s)
    {
    }

    lemma BodyInPart(o: Outcome, s: seq<byte>, t: seq<byte>)
      requires Valid() && headerLen == HEADER_LEN && header[1] == END_REQUEST && readingEndRequestBody
      requires exitCode == None && contentLen <= 8 && s == erBody[..8 - contentLen] + t
      requires if exitStatusSet then Over(o) else o == OnTop(AtEnd(8, paddingLen, s))
      ensures Settled(o, t)
    {
    }
  }
}
