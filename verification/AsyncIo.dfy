/** The asynchronous I/O table of os_unix.c: at most one pending read and one pending
    write per descriptor, each waiting for select or posted for dispatch. */
module AsyncIo {

  // The completion procedures the bridge passes.
  datatype Proc = NoProc | AppServerRead | WebServerRead | AppServerWrite

  // offset is where buf points into the handler's buffer.
  datatype AioInfo = Aio(proc: Proc, fd: nat, offset: nat, len: nat, inUse: bool)

  const FREE := Aio(NoProc, 0, 0, 0, false)

  function RdIx(fd: nat): nat {
    fd * 2
  }

  function WrIx(fd: nat): nat {
    fd * 2 + 1
  }

  class AsyncTable {
    var table: array<AioInfo>
    var maxFd: int
    var readFdSet: set<nat>
    var writeFdSet: set<nat>
    var readFdSetPost: set<nat>
    var writeFdSetPost: set<nat>
    var numRdPosted: int
    var numWrPosted: int

    ghost function Entry(ix: nat): AioInfo
      reads this`table, table
    {
      if ix < table.Length then table[ix] else FREE
    }

    ghost predicate Valid()
      reads this, table
    {
      && table.Length >= 16
      && (forall fd: nat :: fd in readFdSet || fd in readFdSetPost <==> Entry(RdIx(fd)).inUse)
      && (forall fd: nat :: fd in writeFdSet || fd in writeFdSetPost <==> Entry(WrIx(fd)).inUse)
      && readFdSet !! readFdSetPost && writeFdSet !! writeFdSetPost
      && (forall fd ::
            fd in readFdSet || fd in readFdSetPost || fd in writeFdSet || fd in writeFdSetPost ==> fd <= maxFd)
      && numRdPosted == |readFdSetPost| && numWrPosted == |writeFdSetPost|
    }

    // Nothing changes but the entry at ix.
    twostate predicate OnlyChanges(ix: nat)
      reads this, table
    {
      && (forall j: nat :: j != ix ==> Entry(j) == old(Entry(j)))
      && readFdSetPost == old(readFdSetPost) && writeFdSetPost == old(writeFdSetPost)
      && maxFd >= old(maxFd)
    }

    constructor ()
      ensures Valid() && fresh(table) && maxFd == -1 && forall ix: nat :: Entry(ix) == FREE
      ensures readFdSetPost == {} && writeFdSetPost == {} && readFdSet == {} && writeFdSet == {}
    {
      table := new AioInfo[16](_ => FREE);
      maxFd := -1;
      readFdSet, writeFdSet, readFdSetPost, writeFdSetPost := {}, {}, {}, {};
      numRdPosted, numWrPosted := 0, 0;
    }

    // GrowAsyncTable
    method Grow()
      requires table.Length >= 16
      modifies this`table
      ensures fresh(table) && table.Length == 2 * old(table.Length)
      ensures forall ix: nat :: Entry(ix) == old(Entry(ix))
    {
      var bigger := new AioInfo[2 * table.Length](_ => FREE);
      forall i | 0 <= i < table.Length {
        bigger[i] := table[i];
      }
      table := bigger;
    }

    method Reserve(ix: nat)
      requires table.Length >= 16
      modifies this`table
      ensures ix < table.Length && (table == old(table) || fresh(table))
      ensures old(Valid()) ==> Valid()
      ensures forall j: nat :: Entry(j) == old(Entry(j))
    {
      while ix >= table.Length
        invariant table.Length >= 16 && (table == old(table) || fresh(table))
        invariant forall j: nat :: Entry(j) == old(Entry(j))
        decreases ix - table.Length
      {
        Grow();
      }
    }

    method Set(ix: nat, aio: AioInfo)
      requires ix < table.Length
      modifies table
      ensures Entry(ix) == aio && forall j: nat :: j != ix ==> Entry(j) == old(Entry(j))
    {
      table[ix] := aio;
    }

    method BeginRead(fd: nat, aio: AioInfo)
      requires Valid() && RdIx(fd) < table.Length && !Entry(RdIx(fd)).inUse && fd <= maxFd && aio.inUse
      modifies this`readFdSet, table
      ensures Valid() && OnlyChanges(RdIx(fd)) && Entry(RdIx(fd)) == aio
      ensures readFdSet == old(readFdSet) + {fd}
    {
      Set(RdIx(fd), aio);
      readFdSet := readFdSet + {fd};
    }

    method BeginWrite(fd: nat, aio: AioInfo)
      requires Valid() && WrIx(fd) < table.Length && !Entry(WrIx(fd)).inUse && fd <= maxFd && aio.inUse
      modifies this`writeFdSet, table
      ensures Valid() && OnlyChanges(WrIx(fd)) && Entry(WrIx(fd)) == aio
      ensures writeFdSet == old(writeFdSet) + {fd}
    {
      Set(WrIx(fd), aio);
      writeFdSet := writeFdSet + {fd};
    }

    // OS_AsyncReadStdin
    method AsyncReadStdin(offset: nat, len: nat, proc: Proc)
      requires Valid() && !Entry(RdIx(0)).inUse
      modifies this`maxFd, this`readFdSet, table
      ensures Valid() && OnlyChanges(RdIx(0)) && Entry(RdIx(0)) == Aio(proc, 0, offset, len, true)
      ensures readFdSet == old(readFdSet) + {0} && writeFdSet == old(writeFdSet)
      ensures maxFd == if 0 > old(maxFd) then 0 else old(maxFd)
    {
      table[RdIx(0)] := Aio(proc, 0, offset, len, true);
      readFdSet := readFdSet + {0};
      if 0 > maxFd {
        maxFd := 0;
      }
    }

    // OS_AsyncRead
    method AsyncRead(fd: nat, offset: nat, len: nat, proc: Proc)
      requires Valid() && !Entry(RdIx(fd)).inUse
      modifies this`maxFd, this`readFdSet, this`table, table
      ensures Valid() && (table == old(table) || fresh(table)) && OnlyChanges(RdIx(fd))
      ensures Entry(RdIx(fd)) == Aio(proc, fd, offset, len, true)
      ensures readFdSet == old(readFdSet) + {fd} && writeFdSet == old(writeFdSet)
      ensures maxFd == if fd > old(maxFd) then fd else old(maxFd)
    {
      if fd > maxFd {
        maxFd := fd;
      }
      Reserve(RdIx(fd));
      BeginRead(fd, Aio(proc, fd, offset, len, true));
    }

    // OS_AsyncWrite
    method AsyncWrite(fd: nat, offset: nat, len: nat, proc: Proc)
      requires Valid() && !Entry(WrIx(fd)).inUse
      modifies this`maxFd, this`writeFdSet, this`table, table
      ensures Valid() && (table == old(table) || fresh(table)) && OnlyChanges(WrIx(fd))
      ensures Entry(WrIx(fd)) == Aio(proc, fd, offset, len, true)
      ensures writeFdSet == old(writeFdSet) + {fd} && readFdSet == old(readFdSet)
      ensures maxFd == if fd > old(maxFd) then fd else old(maxFd)
    {
      if fd > maxFd {
        maxFd := fd;
      }
      Reserve(WrIx(fd));
      BeginWrite(fd, Aio(proc, fd, offset, len, true));
    }

    // The part of OS_DoIo after select: what is ready is posted.
    method Post(readable: set<nat>, writable: set<nat>)
      requires Valid() && readFdSetPost == {} && writeFdSetPost == {}
      requires readable <= readFdSet && writable <= writeFdSet
      modifies this`readFdSet, this`writeFdSet, this`readFdSetPost, this`writeFdSetPost, this`numRdPosted,
               this`numWrPosted
      ensures Valid() && readFdSetPost == readable && writeFdSetPost == writable
      ensures readFdSet == old(readFdSet) - readable && writeFdSet == old(writeFdSet) - writable
    {
      readFdSetPost, writeFdSetPost := readable, writable;
      readFdSet, writeFdSet := readFdSet - readable, writeFdSet - writable;
      numRdPosted, numWrPosted := |readable|, |writable|;
    }

    // The bookkeeping of OS_DoIo around a read of fd.
    method TakeRead(fd: nat) returns (aio: AioInfo)
      requires Valid() && fd in readFdSetPost
      modifies this`numRdPosted, this`readFdSetPost, table
      ensures Valid() && aio == old(Entry(RdIx(fd))) && !Entry(RdIx(fd)).inUse
      ensures forall j: nat :: j != RdIx(fd) ==> Entry(j) == old(Entry(j))
      ensures readFdSetPost == old(readFdSetPost) - {fd}
    {
      numRdPosted := numRdPosted - 1;
      readFdSetPost := readFdSetPost - {fd};
      aio := table[RdIx(fd)];
      table[RdIx(fd)] := aio.(proc := NoProc, inUse := false);
    }

    // The same around a write of fd.
    method TakeWrite(fd: nat) returns (aio: AioInfo)
      requires Valid() && fd in writeFdSetPost
      modifies this`numWrPosted, this`writeFdSetPost, table
      ensures Valid() && aio == old(Entry(WrIx(fd))) && !Entry(WrIx(fd)).inUse
      ensures forall j: nat :: j != WrIx(fd) ==> Entry(j) == old(Entry(j))
      ensures writeFdSetPost == old(writeFdSetPost) - {fd}
    {
      numWrPosted := numWrPosted - 1;
      writeFdSetPost := writeFdSetPost - {fd};
      aio := table[WrIx(fd)];
      table[WrIx(fd)] := aio.(proc := NoProc, inUse := false);
    }
  }
}
