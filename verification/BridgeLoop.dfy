/** The CGI bridge's event loop: ScheduleIo, OS_DoIo and the handlers, over the
    asynchronous I/O table. */
module BridgeLoop {
  import opened Protocol
  import opened Connection
  import opened AsyncIo
  import opened BridgeInput
  import opened BridgeOutput
  import Demux

  // The state when a pass begins.
  datatype Before = Before(wsInput: seq<byte>, input: seq<byte>, taken: seq<byte>, whole: bool)

  class Bridge {
    const conn: Connection
    const appServerSock: nat
    const aio: AsyncTable
    const receiver: Receiver
    const forwarder: Forwarder
    var wsReadPending: bool
    var fcgiReadPending: bool
    var fcgiWritePending: bool
    var wsInput: seq<byte>       // what standard input will still deliver
    ghost const opening: seq<byte>  // sent to the application before the event loop

    ghost predicate Apart()
      reads this, receiver, forwarder, forwarder.fromWS
    {
      var r, f := receiver, forwarder;
      && appServerSock > 0 && r.conn == conn && f.Framed()
      && r.fromAS != f.fromWS && r.fromAS.buff != f.fromWS.buff
      && r.header != f.fromWS.buff && r.erBody != f.fromWS.buff
    }

    // Exactly these operations are under way, each with its handler's buffer.
    ghost predicate Slots(ws: bool, rd: bool, wr: bool)
      reads this, aio, aio.table, forwarder.fromWS
    {
      && aio.Valid() && aio.maxFd <= appServerSock
      && (forall ix: nat ::
            aio.Entry(ix).inUse ==> ix == RdIx(0) || ix == RdIx(appServerSock) || ix == WrIx(appServerSock))
      && aio.Entry(RdIx(0)).inUse == ws
      && aio.Entry(RdIx(appServerSock)).inUse == rd
      && aio.Entry(WrIx(appServerSock)).inUse == wr
      && (ws ==> aio.Entry(RdIx(0)) == Aio(WebServerRead, 0, HEADER_LEN, BUFFLEN - HEADER_LEN, true))
      && (rd ==> aio.Entry(RdIx(appServerSock)) == Aio(AppServerRead, appServerSock, 0, BUFFLEN, true))
      && (wr ==>
            && forwarder.fromWS.next < forwarder.fromWS.stop
            && aio.Entry(WrIx(appServerSock)) == Aio(AppServerWrite, appServerSock, forwarder.fromWS.next,
                                                     forwarder.fromWS.stop - forwarder.fromWS.next, true))
    }

    // Who may touch which buffer.
    ghost predicate Owned()
      reads this, receiver, receiver.fromAS, forwarder, forwarder.fromWS
    {
      && (wsReadPending ==>
            forwarder.fromWS.stop == 0 && forwarder.fromWS.next == 0 && !fcgiWritePending && !forwarder.Ended())
      && (fcgiReadPending ==> receiver.fromAS.next == 0)
    }

    ghost predicate Sound()
      reads this, conn, receiver, receiver.fromAS, forwarder, forwarder.fromWS, forwarder.fromWS.buff
    {
      && Apart() && receiver.Valid() && forwarder.Valid() && Owned()
      && conn.sent == opening + forwarder.taken
    }

    /** Holds in every state the event loop can reach. */
    ghost predicate Inv()
      reads this, conn, receiver, receiver.fromAS, forwarder, forwarder.fromWS, forwarder.fromWS.buff, aio, aio.table
    {
      Sound() && Slots(wsReadPending, fcgiReadPending, fcgiWritePending)
    }

    // From main, behind the environment and before its ScheduleIo; receiver and forwarder
    // are in their initial states.
    constructor (conn: Connection, appServerSock: nat, receiver: Receiver, forwarder: Forwarder, wsInput: seq<byte>)
      requires appServerSock > 0 && receiver.Valid() && forwarder.Valid() && receiver.conn == conn
      requires receiver.fromAS != forwarder.fromWS && receiver.fromAS.buff != forwarder.fromWS.buff
      requires receiver.header != forwarder.fromWS.buff && receiver.erBody != forwarder.fromWS.buff
      requires forwarder.taken == []
      ensures Inv() && fresh(aio) && fresh(aio.table) && aio.readFdSetPost == {} && aio.writeFdSetPost == {}
      ensures this.conn == conn && this.receiver == receiver && this.forwarder == forwarder
      ensures opening == conn.sent && this.wsInput == wsInput
    {
      this.conn, this.appServerSock, this.wsInput, opening := conn, appServerSock, wsInput, conn.sent;
      this.receiver, this.forwarder := receiver, forwarder;
      aio := new AsyncTable();
      wsReadPending, fcgiReadPending, fcgiWritePending := false, false, false;
      new;
      hide Forwarder.Valid, AsyncTable.Valid, Receiver.Valid;
      assert conn.sent + [] == conn.sent;
    }

    // After ScheduleIo, everything that can be under way is.
    ghost predicate Scheduled()
      reads this, forwarder, forwarder.fromWS
    {
      && fcgiReadPending
      && (forwarder.fromWS.next < forwarder.fromWS.stop ==> fcgiWritePending)
      && (forwarder.fromWS.next == forwarder.fromWS.stop && !forwarder.Ended() && forwarder.bytesToRead > 0 ==>
            wsReadPending)
    }

    // ScheduleIo
    method ScheduleIo()
      requires Inv()
      modifies this`wsReadPending, this`fcgiReadPending, this`fcgiWritePending, aio, aio.table, receiver.fromAS`next
      ensures Inv() && Scheduled() && (aio.table == old(aio.table) || fresh(aio.table))
      ensures aio.readFdSetPost == old(aio.readFdSetPost) && aio.writeFdSetPost == old(aio.writeFdSetPost)
    {
      hide Inv;
      ScheduleWrite();
      ScheduleRead();
      ScheduleStdin();
    }

    method ScheduleWrite()
      requires Inv()
      modifies this`fcgiWritePending, aio, aio.table
      ensures Inv() && (aio.table == old(aio.table) || fresh(aio.table))
      ensures forwarder.fromWS.next < forwarder.fromWS.stop ==> fcgiWritePending
      ensures aio.readFdSetPost == old(aio.readFdSetPost) && aio.writeFdSetPost == old(aio.writeFdSetPost)
    {
      hide Forwarder.Valid, AsyncTable.Valid;
      var length := forwarder.fromWS.stop - forwarder.fromWS.next;
      if !fcgiWritePending && length != 0 {
        aio.AsyncWrite(appServerSock, forwarder.fromWS.next, length, AppServerWrite);
        fcgiWritePending := true;
      }
    }

    method ScheduleRead()
      requires Inv()
      modifies this`fcgiReadPending, aio, aio.table, receiver.fromAS`next
      ensures Inv() && fcgiReadPending && unchanged(forwarder.fromWS)
              && (aio.table == old(aio.table) || fresh(aio.table))
      ensures aio.readFdSetPost == old(aio.readFdSetPost) && aio.writeFdSetPost == old(aio.writeFdSetPost)
    {
      hide Forwarder.Valid, AsyncTable.Valid;
      if !fcgiReadPending {
        receiver.fromAS.next := 0;
        aio.AsyncRead(appServerSock, 0, BUFFLEN, AppServerRead);
        fcgiReadPending := true;
      }
    }

    method ScheduleStdin()
      requires Inv() && (forwarder.fromWS.next < forwarder.fromWS.stop ==> fcgiWritePending)
      modifies this`wsReadPending, aio, aio.table
      ensures Inv()
      ensures forwarder.fromWS.next == forwarder.fromWS.stop && !forwarder.Ended() && forwarder.bytesToRead > 0 ==>
              wsReadPending
      ensures aio.table == old(aio.table)
      ensures aio.readFdSetPost == old(aio.readFdSetPost) && aio.writeFdSetPost == old(aio.writeFdSetPost)
    {
      hide AsyncTable.Valid;
      var fromWS := forwarder.fromWS;
      if forwarder.bytesToRead > 0 && !forwarder.webServerReadHandlerEOF && !wsReadPending
         && !fcgiWritePending && fromWS.next == 0 {
        aio.AsyncReadStdin(fromWS.next + HEADER_LEN, BUFFLEN - HEADER_LEN, WebServerRead);
        wsReadPending := true;
      }
    }

    // A posted read of standard input: count bytes, and the callback. The last bytes
    // announced must leave room for the EOF record.
    method ReadStdin(count: nat)
      requires Inv() && 0 in aio.readFdSetPost
      requires count <= BUFFLEN - HEADER_LEN && count <= |wsInput| && (count == 0 <==> wsInput == [])
      requires count >= forwarder.bytesToRead ==> HEADER_LEN + count + HEADER_LEN <= BUFFLEN
      modifies this`wsReadPending, this`fcgiReadPending, this`fcgiWritePending, this`wsInput, aio, aio.table,
               receiver.fromAS`next
      modifies forwarder, forwarder.fromWS, forwarder.fromWS.buff
      ensures Inv() && Scheduled() && (aio.table == old(aio.table) || fresh(aio.table))
      ensures aio.readFdSetPost == old(aio.readFdSetPost) - {0} && aio.writeFdSetPost == old(aio.writeFdSetPost)
      ensures wsInput == old(wsInput)[count..] && forwarder.received == old(forwarder.received) + old(wsInput)[..count]
      ensures forwarder.taken == old(forwarder.taken)
      ensures forwarder.Ended() <==> count == 0 || |forwarder.received| >= forwarder.contentLength
    {
      hide Forwarder.Valid, AsyncTable.Valid, Receiver.Valid;
      PostedRead(0);
      var entry := aio.TakeRead(0);
      assert entry == Aio(WebServerRead, 0, HEADER_LEN, BUFFLEN - HEADER_LEN, true);
      forwarder.Fill(wsInput[..count], entry.offset);
      wsInput := wsInput[count..];
      OnWebServerRead(count);
    }

    // WebServerReadHandler
    method OnWebServerRead(bytesRead: nat)
      requires Sound() && wsReadPending && Slots(false, fcgiReadPending, fcgiWritePending)
      requires bytesRead <= BUFFLEN - HEADER_LEN
      requires bytesRead >= forwarder.bytesToRead ==> HEADER_LEN + bytesRead + HEADER_LEN <= BUFFLEN
      modifies this`wsReadPending, this`fcgiReadPending, this`fcgiWritePending, aio, aio.table, receiver.fromAS`next
      modifies forwarder, forwarder.fromWS, forwarder.fromWS.buff
      ensures Inv() && Scheduled() && (aio.table == old(aio.table) || fresh(aio.table))
      ensures aio.readFdSetPost == old(aio.readFdSetPost) && aio.writeFdSetPost == old(aio.writeFdSetPost)
      ensures forwarder.received == old(forwarder.received + forwarder.fromWS.buff[HEADER_LEN..HEADER_LEN + bytesRead])
      ensures forwarder.taken == old(forwarder.taken)
      ensures forwarder.Ended() <==> bytesRead == 0 || |forwarder.received| >= forwarder.contentLength
    {
      assert forwarder.fromWS.next == forwarder.fromWS.stop;
      assert forwarder.fromWS.next == 0;
      assert wsReadPending;
      wsReadPending := false;
      forwarder.WebServerReadHandler(bytesRead);
      ScheduleIo();
    }

    // A posted write to the application, and the callback.
    method WriteSocket()
      requires Inv() && appServerSock in aio.writeFdSetPost
      modifies this`wsReadPending, this`fcgiReadPending, this`fcgiWritePending, aio, aio.table, receiver.fromAS`next
      modifies forwarder, forwarder.fromWS, conn`sent
      ensures Inv() && Scheduled() && (aio.table == old(aio.table) || fresh(aio.table))
      ensures aio.writeFdSetPost == old(aio.writeFdSetPost) - {appServerSock}
              && aio.readFdSetPost == old(aio.readFdSetPost)
      ensures forwarder.received == old(forwarder.received) && old(forwarder.taken) < forwarder.taken
    {
      hide Forwarder.Valid, AsyncTable.Valid, Receiver.Valid;
      PostedWrite(appServerSock);
      var entry := aio.TakeWrite(appServerSock);
      var fromWS := forwarder.fromWS;
      assert entry == Aio(AppServerWrite, appServerSock, fromWS.next, fromWS.stop - fromWS.next, true);
      var written := conn.Write(fromWS.buff, entry.offset, entry.len);
      ghost var taken, more := forwarder.taken, forwarder.Waiting()[..written];
      assert more != [];
      OnAppServerWrite(written);
      assert forwarder.taken == taken + more;
    }

    // AppServerWriteHandler
    method OnAppServerWrite(bytesWritten: nat)
      requires Apart() && receiver.Valid() && forwarder.Valid() && Owned()
      requires fcgiWritePending && Slots(wsReadPending, fcgiReadPending, false)
      requires forwarder.fromWS.next < forwarder.fromWS.stop
               && bytesWritten <= forwarder.fromWS.stop - forwarder.fromWS.next
      requires conn.sent == opening + forwarder.taken + forwarder.Waiting()[..bytesWritten]
      modifies this`wsReadPending, this`fcgiReadPending, this`fcgiWritePending, aio, aio.table, receiver.fromAS`next
      modifies forwarder, forwarder.fromWS
      ensures Inv() && Scheduled() && (aio.table == old(aio.table) || fresh(aio.table))
      ensures aio.readFdSetPost == old(aio.readFdSetPost) && aio.writeFdSetPost == old(aio.writeFdSetPost)
      ensures forwarder.received == old(forwarder.received)
      ensures forwarder.taken == old(forwarder.taken) + old(forwarder.Waiting())[..bytesWritten]
    {
      assert fcgiWritePending;
      fcgiWritePending := false;
      forwarder.AppServerWriteHandler(bytesWritten);
      ScheduleIo();
    }

    // The socket has been read when was stood in it: some bytes have gone from its front,
    // or, at its end, the program has exited.
    predicate ReadOn(was: seq<byte>)
      reads conn`input, receiver`exitCode
    {
      if was == [] then receiver.exitCode.Some?
      else |conn.input| < |was| && conn.input == was[|was| - |conn.input|..]
    }

    // A posted read from the application, and the callback; o is all that the bridge will
    // make of the application's output. When the program does not exit, the loop goes on.
    method ReadSocket(ghost o: Demux.Outcome)
      requires Inv() && appServerSock in aio.readFdSetPost
      requires receiver.Settled(o, conn.input) && receiver.Whole() && !receiver.exitStatusSet
               && receiver.exitCode == None
      modifies this`wsReadPending, this`fcgiReadPending, this`fcgiWritePending, aio, aio.table
      modifies receiver, receiver.fromAS, receiver.fromAS.buff, receiver.header, receiver.erBody, conn`input
      ensures receiver.Valid() && receiver.Settled(o, conn.input) && ReadOn(old(conn.input))
      ensures receiver.exitCode == None ==> Inv() && Scheduled()
      ensures aio.table == old(aio.table) || fresh(aio.table)
      ensures aio.readFdSetPost == old(aio.readFdSetPost) - {appServerSock}
              && aio.writeFdSetPost == old(aio.writeFdSetPost)
    {
      hide Forwarder.Valid, AsyncTable.Valid, Receiver.Settled, ReadOn;
      PostedRead(appServerSock);
      ghost var was := conn.input;
      var entry := aio.TakeRead(appServerSock);
      assert entry == Aio(AppServerRead, appServerSock, 0, BUFFLEN, true);
      var count := conn.Read(receiver.fromAS.buff);
      assert old(conn.input) == old(conn.input)[..count] + conn.input;
      StillAhead(o, old(conn.input));
      OnAppServerRead(count, o);
      Consumed(was, count);
    }

    lemma Consumed(was: seq<byte>, count: nat)
      requires count <= |was| && conn.input == was[count..] && (count == 0 ==> was == [] && receiver.exitCode.Some?)
      ensures ReadOn(was)
    {
    }

    lemma StillAhead(o: Demux.Outcome, s: seq<byte>)
      requires receiver.Valid() && receiver.Settled(o, s) && !receiver.exitStatusSet && receiver.exitCode == None
      ensures receiver.Total(s) == o
    {
    }

    lemma PostedRead(fd: nat)
      requires aio.Valid() && fd in aio.readFdSetPost
      ensures aio.Entry(RdIx(fd)).inUse
    {
    }

    lemma PostedWrite(fd: nat)
      requires aio.Valid() && fd in aio.writeFdSetPost
      ensures aio.Entry(WrIx(fd)).inUse
    {
    }

    // AppServerReadHandler
    method OnAppServerRead(bytesRead: nat, ghost o: Demux.Outcome)
      requires Sound() && fcgiReadPending && Slots(wsReadPending, false, fcgiWritePending)
      requires receiver.Whole() && !receiver.exitStatusSet && receiver.exitCode == None
      requires bytesRead <= BUFFLEN && (bytesRead == 0 ==> conn.input == [])
      requires receiver.Total(receiver.fromAS.buff[..bytesRead] + conn.input) == o
      modifies this`wsReadPending, this`fcgiReadPending, this`fcgiWritePending, aio, aio.table
      modifies receiver, receiver.fromAS, receiver.header, receiver.erBody
      ensures receiver.Valid() && receiver.Settled(o, conn.input)
      ensures bytesRead == 0 ==> receiver.exitCode.Some?
      ensures receiver.exitCode == None ==> Inv() && Scheduled()
      ensures aio.table == old(aio.table) || fresh(aio.table)
      ensures aio.readFdSetPost == old(aio.readFdSetPost) && aio.writeFdSetPost == old(aio.writeFdSetPost)
    {
      hide Forwarder.Valid, AsyncTable.Valid, Receiver.Settled, Receiver.Total;
      assert fcgiReadPending;
      fcgiReadPending := false;
      receiver.Handle(bytesRead, o);
      if receiver.exitCode == None {
        ScheduleIo();
      }
    }

    // What select and read deliver in one pass of OS_DoIo, within the bridge's limits.
    predicate Deliverable(readable: set<nat>, stdinCount: nat)
      reads this, forwarder, receiver
    {
      && (appServerSock in readable ==> receiver.Whole() && !receiver.exitStatusSet && receiver.exitCode == None)
      && (0 in readable ==>
            && stdinCount <= BUFFLEN - HEADER_LEN && stdinCount <= |wsInput| && (stdinCount == 0 <==> wsInput == [])
            && (stdinCount >= forwarder.bytesToRead ==> HEADER_LEN + stdinCount + HEADER_LEN <= BUFFLEN))
    }

    // What is still posted in the middle of a pass.
    ghost predicate Left(fd: nat, readable: set<nat>, writable: set<nat>)
      reads aio
    {
      forall x :: x >= fd ==>
        (x in aio.readFdSetPost <==> x in readable) && (x in aio.writeFdSetPost <==> x in writable)
    }

    // What has been done for the descriptors below fd in a pass that began with before.
    ghost predicate Served(fd: nat, readable: set<nat>, writable: set<nat>, stdinCount: nat, before: Before)
      reads this, conn`input, receiver, forwarder
    {
      var read := appServerSock in readable && appServerSock < fd;
      var written := appServerSock in writable && appServerSock < fd;
      && (if 0 in readable && fd > 0 then stdinCount <= |before.wsInput| && wsInput == before.wsInput[stdinCount..]
          else wsInput == before.wsInput)
      && (if read then ReadOn(before.input) else conn.input == before.input && receiver.Whole() == before.whole)
      && (if written then receiver.exitCode == None ==> before.taken < forwarder.taken
          else forwarder.taken == before.taken)
    }

    // In the middle of a pass: everything posted for descriptors below fd has been dispatched.
    ghost predicate Pass(fd: nat, stdinCount: nat, o: Demux.Outcome)
      reads this, conn, receiver, receiver.fromAS, receiver.header, receiver.erBody
      reads forwarder, forwarder.fromWS, forwarder.fromWS.buff, aio, aio.table
    {
      && Inv() && receiver.Settled(o, conn.input) && receiver.exitCode == None
      && (forall x :: x in aio.readFdSetPost || x in aio.writeFdSetPost ==> x >= fd)
      && Deliverable(aio.readFdSetPost, stdinCount)
    }

    /** OS_DoIo: readable and writable are what select reports. Whatever they are, no
        handler's assertion and no assertion of the I/O table fails, the invariant is kept,
        and the application's output and standard input are accounted for. What is ready is
        served, in the order of the descriptors and unless the program exits before, and
        nothing else is touched. */
    method DoIo(readable: set<nat>, writable: set<nat>, stdinCount: nat, ghost o: Demux.Outcome)
      requires Pass(0, stdinCount, o) && aio.readFdSetPost == {} && aio.writeFdSetPost == {}
      requires readable <= aio.readFdSet && writable <= aio.writeFdSet && Deliverable(readable, stdinCount)
      modifies this, aio, aio.table, conn
      modifies receiver, receiver.fromAS, receiver.fromAS.buff, receiver.header, receiver.erBody
      modifies forwarder, forwarder.fromWS, forwarder.fromWS.buff
      ensures receiver.Valid() && receiver.Settled(o, conn.input)
      ensures receiver.exitCode == None ==> Inv() && aio.readFdSetPost == {} && aio.writeFdSetPost == {}
      ensures aio.table == old(aio.table) || fresh(aio.table)
      ensures forwarder.received + wsInput == old(forwarder.received + wsInput)
      ensures wsInput == old(wsInput)[if 0 in readable then stdinCount else 0..]
      ensures if appServerSock in readable then ReadOn(old(conn.input))
              else conn.input == old(conn.input) && receiver.Whole() == old(receiver.Whole())
      ensures receiver.exitCode == None && old(fcgiReadPending) ==> fcgiReadPending
      ensures receiver.exitCode == None && appServerSock in writable ==> old(forwarder.taken) < forwarder.taken
      ensures appServerSock !in writable ==> forwarder.taken == old(forwarder.taken)
    {
      ghost var before := Before(wsInput, conn.input, forwarder.taken, receiver.Whole());
      StartPass(readable, writable, stdinCount, o);
      var fd := 0;
      assert wsInput[0..] == wsInput;
      while fd <= aio.maxFd && receiver.exitCode == None
        invariant receiver.Valid() && receiver.Settled(o, conn.input)
        invariant receiver.exitCode == None ==> Pass(fd, stdinCount, o)
        invariant aio.table == old(aio.table) || fresh(aio.table)
        invariant forwarder.received + wsInput == old(forwarder.received + wsInput)
        invariant receiver.exitCode == None ==> Left(fd, readable, writable)
        invariant receiver.exitCode == None && old(fcgiReadPending) ==> fcgiReadPending
        invariant Served(fd, readable, writable, stdinCount, before)
        invariant receiver.exitCode.Some? ==> 0 < appServerSock < fd
        decreases receiver.exitCode == None, appServerSock - fd
      {
        hide Receiver.Valid, Receiver.Settled, Inv, Deliverable, Served, Left;
        MaxFd();
        Turn(fd, readable, writable, stdinCount, o, before);
        fd := fd + 1;
      }
      if receiver.exitCode == None {
        PassOver(fd, stdinCount, o);
      }
    }

    /** The event loop of main, for any number of passes and whatever select reports and
        read and write deliver in them. When it ends with the exit status, the whole output
        the application demands has been written. eager says that select reports the socket
        in every pass in which it can be read within the bridge's limits: then, after
        ScheduleIo, more passes than bytes of the application's output bring the loop to its
        end, unless a read has cut a header or an END_REQUEST body in two. */
    method Run(passes: nat, eager: bool, ghost o: Demux.Outcome)
      requires Inv() && aio.readFdSetPost == {} && aio.writeFdSetPost == {}
      requires receiver.Valid() && receiver.exitCode == None && receiver.Settled(o, conn.input)
      modifies this, aio, aio.table, conn
      modifies receiver, receiver.fromAS, receiver.fromAS.buff, receiver.header, receiver.erBody
      modifies forwarder, forwarder.fromWS, forwarder.fromWS.buff
      ensures receiver.Valid() && receiver.Settled(o, conn.input)
      ensures receiver.exitCode == None ==> Inv()
      ensures forwarder.received + wsInput == old(forwarder.received + wsInput)
      ensures eager && old(fcgiReadPending) && passes > old(|conn.input|) && receiver.Whole() ==>
                receiver.exitStatusSet || receiver.exitCode.Some?
    {
      hide Receiver.Valid, Receiver.Settled, Inv, Deliverable, Receiver.Whole;
      var i := 0;
      while i < passes && !receiver.exitStatusSet && receiver.exitCode == None
        invariant receiver.Valid() && receiver.Settled(o, conn.input)
        invariant receiver.exitCode == None ==> Inv() && aio.readFdSetPost == {} && aio.writeFdSetPost == {}
        invariant aio.table == old(aio.table) || fresh(aio.table)
        invariant forwarder.received + wsInput == old(forwarder.received + wsInput)
        invariant receiver.exitCode == None && old(fcgiReadPending) ==> fcgiReadPending
        invariant receiver.exitCode == None && old(fcgiReadPending) && eager && receiver.Whole() ==>
                    i + |conn.input| <= old(|conn.input|)
        invariant i <= passes
      {
        NothingDeliverable(0);
        if receiver.Whole() && fcgiReadPending {
          SocketDeliverable();
        }
        var readable: set<nat>, writable: set<nat>, stdinCount: nat :|
          && readable <= aio.readFdSet && writable <= aio.writeFdSet && stdinCount <= BUFFLEN
          && Deliverable(readable, stdinCount)
          && (eager && fcgiReadPending && receiver.Whole() ==> appServerSock in readable);
        NothingDeliverable(stdinCount);
        ReadWhole(readable, stdinCount);
        DoIo(readable, writable, stdinCount, o);
        i := i + 1;
      }
    }

    lemma NothingDeliverable(stdinCount: nat)
      ensures Deliverable({}, stdinCount)
    {
    }

    lemma SocketDeliverable()
      requires Inv() && fcgiReadPending && aio.readFdSetPost == {}
      requires receiver.Whole() && !receiver.exitStatusSet && receiver.exitCode == None
      ensures Deliverable({appServerSock}, 0) && {appServerSock} <= aio.readFdSet
    {
      assert aio.Entry(RdIx(appServerSock)).inUse;
    }

    lemma ReadWhole(readable: set<nat>, stdinCount: nat)
      requires Deliverable(readable, stdinCount)
      ensures appServerSock in readable ==> receiver.Whole()
    {
    }

    lemma MaxFd()
      requires Inv()
      ensures aio.maxFd <= appServerSock
    {
    }

    lemma PassOver(fd: nat, stdinCount: nat, o: Demux.Outcome)
      requires Pass(fd, stdinCount, o) && fd > aio.maxFd
      ensures aio.readFdSetPost == {} && aio.writeFdSetPost == {}
    {
      assert forall x :: x in aio.readFdSetPost || x in aio.writeFdSetPost ==> x <= aio.maxFd;
    }

    method StartPass(readable: set<nat>, writable: set<nat>, stdinCount: nat, ghost o: Demux.Outcome)
      requires Pass(0, stdinCount, o) && aio.readFdSetPost == {} && aio.writeFdSetPost == {}
      requires readable <= aio.readFdSet && writable <= aio.writeFdSet && Deliverable(readable, stdinCount)
      modifies aio
      ensures Pass(0, stdinCount, o) && aio.table == old(aio.table) && Left(0, readable, writable)
    {
      hide Forwarder.Valid, Receiver.Valid, Receiver.Settled, AsyncTable.Valid;
      aio.Post(readable, writable);
    }

    // One turn of OS_DoIo's dispatch loop.
    method Turn(fd: nat, readable: set<nat>, writable: set<nat>, stdinCount: nat, ghost o: Demux.Outcome,
                ghost before: Before)
      requires Pass(fd, stdinCount, o) && Left(fd, readable, writable)
      requires Served(fd, readable, writable, stdinCount, before)
      modifies this, aio, aio.table, conn
      modifies receiver, receiver.fromAS, receiver.fromAS.buff, receiver.header, receiver.erBody
      modifies forwarder, forwarder.fromWS, forwarder.fromWS.buff
      ensures receiver.Valid() && receiver.Settled(o, conn.input)
      ensures receiver.exitCode == None ==> Pass(fd + 1, stdinCount, o) && Left(fd + 1, readable, writable)
      ensures receiver.exitCode == None && old(fcgiReadPending) ==> fcgiReadPending
      ensures Served(fd + 1, readable, writable, stdinCount, before)
      ensures receiver.exitCode.Some? ==> 0 < appServerSock == fd
      ensures aio.table == old(aio.table) || fresh(aio.table)
      ensures forwarder.received + wsInput == old(forwarder.received + wsInput)
    {
      hide Receiver.Valid, Receiver.Settled, Inv;
      Deliverables(fd, stdinCount, o);
      assert wsInput[0..] == wsInput;
      Round(fd, stdinCount, o);
    }

    lemma Deliverables(fd: nat, stdinCount: nat, o: Demux.Outcome)
      requires Pass(fd, stdinCount, o)
      ensures 0 in aio.readFdSetPost ==> stdinCount <= |wsInput|
      ensures appServerSock > 0
    {
    }

    // The body of OS_DoIo's dispatch loop.
    method Round(fd: nat, stdinCount: nat, ghost o: Demux.Outcome)
      requires Pass(fd, stdinCount, o)
      modifies this, aio, aio.table, conn
      modifies receiver, receiver.fromAS, receiver.fromAS.buff, receiver.header, receiver.erBody
      modifies forwarder, forwarder.fromWS, forwarder.fromWS.buff
      ensures receiver.Valid() && receiver.Settled(o, conn.input)
      ensures receiver.exitCode == None ==> Pass(fd + 1, stdinCount, o)
      ensures aio.table == old(aio.table) || fresh(aio.table)
      ensures forwarder.received + wsInput == old(forwarder.received + wsInput)
      ensures wsInput == old(wsInput)[if fd == 0 && 0 in old(aio.readFdSetPost) then stdinCount else 0..]
      ensures if fd == appServerSock && fd in old(aio.readFdSetPost) then ReadOn(old(conn.input))
              else conn.input == old(conn.input) && unchanged(receiver)
      ensures if fd == appServerSock && fd in old(aio.writeFdSetPost)
              then receiver.exitCode == None ==> old(forwarder.taken) < forwarder.taken
              else forwarder.taken == old(forwarder.taken)
      ensures receiver.exitCode == None ==>
                && (old(fcgiReadPending) ==> fcgiReadPending)
                && aio.readFdSetPost == old(aio.readFdSetPost) - {fd}
                && aio.writeFdSetPost == old(aio.writeFdSetPost) - {fd}
    {
      hide Forwarder.Valid, Receiver.Valid, Receiver.Settled, AsyncTable.Valid, Slots;
      if fd in aio.readFdSetPost {
        DispatchRead(fd, stdinCount, o);
      }
      if receiver.exitCode == None && fd in aio.writeFdSetPost {
        DispatchWrite(fd, stdinCount, o);
      }
    }

    // One read of OS_DoIo.
    method DispatchRead(fd: nat, stdinCount: nat, ghost o: Demux.Outcome)
      requires Pass(fd, stdinCount, o) && fd in aio.readFdSetPost
      modifies this, aio, aio.table, conn`input
      modifies receiver, receiver.fromAS, receiver.fromAS.buff, receiver.header, receiver.erBody
      modifies forwarder, forwarder.fromWS, forwarder.fromWS.buff
      ensures receiver.Valid() && receiver.Settled(o, conn.input)
      ensures receiver.exitCode == None ==> Pass(fd, stdinCount, o)
      ensures aio.table == old(aio.table) || fresh(aio.table)
      ensures aio.readFdSetPost == old(aio.readFdSetPost) - {fd} && aio.writeFdSetPost == old(aio.writeFdSetPost)
      ensures forwarder.received + wsInput == old(forwarder.received + wsInput)
      ensures if fd == 0 then
                wsInput == old(wsInput)[stdinCount..] && conn.input == old(conn.input) && unchanged(receiver)
              else
                fd == appServerSock && wsInput == old(wsInput) && ReadOn(old(conn.input))
      ensures forwarder.taken == old(forwarder.taken) && (receiver.exitCode == None ==> fcgiReadPending)
    {
      hide Forwarder.Valid, Receiver.Valid, Receiver.Settled, AsyncTable.Valid;
      PostedRead(fd);
      if fd == 0 {
        ConcatAssociates(forwarder.received, wsInput[..stdinCount], wsInput[stdinCount..]);
        assert wsInput == wsInput[..stdinCount] + wsInput[stdinCount..];
        ReadStdin(stdinCount);
      } else {
        ReadSocket(o);
      }
    }

    // One write of OS_DoIo.
    method DispatchWrite(fd: nat, stdinCount: nat, ghost o: Demux.Outcome)
      requires Pass(fd, stdinCount, o) && fd in aio.writeFdSetPost && fd !in aio.readFdSetPost
      modifies this`wsReadPending, this`fcgiReadPending, this`fcgiWritePending, aio, aio.table, receiver.fromAS`next
      modifies forwarder, forwarder.fromWS, conn`sent
      ensures Pass(fd, stdinCount, o) && (aio.table == old(aio.table) || fresh(aio.table))
      ensures aio.writeFdSetPost == old(aio.writeFdSetPost) - {fd} && aio.readFdSetPost == old(aio.readFdSetPost)
      ensures forwarder.received == old(forwarder.received)
      ensures fd == appServerSock && old(forwarder.taken) < forwarder.taken && fcgiReadPending
    {
      hide Forwarder.Valid, Receiver.Valid, Receiver.Settled, AsyncTable.Valid;
      PostedWrite(fd);
      WriteSocket();
    }
  }
}
