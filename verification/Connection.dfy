/** The operating system's side of a connection, and the request data shared by the
    streams of one request. */
module Connection {
  import opened Protocol

  /** A record on the connection's output: sent for a client's stream, or by a reader in
      answer to something it read. */
  datatype Sending = Own(record: Record) | Reply(record: Record)

  function Records(log: seq<Sending>): (rs: seq<Record>)
    ensures |rs| == |log| && forall i :: 0 <= i < |log| ==> rs[i] == log[i].record
  {
    seq(|log|, i requires 0 <= i < |log| => log[i].record)
  }

  lemma RecordsConcat(a: seq<Sending>, b: seq<Sending>)
    ensures Records(a + b) == Records(a) + Records(b)
  {
  }

  /** A byte stream to and from the peer. input holds what the peer will still deliver
      before it closes its end; every read takes an arbitrary non-empty part of it. */
  class Connection {
    var input: seq<byte>
    var sent: seq<byte>
    ghost var log: seq<Sending>   // the records of which sent consists

    constructor (input: seq<byte>)
      ensures this.input == input && sent == [] && log == [] && Logged()
    {
      this.input := input;
      sent, log := [], [];
    }

    // What has been sent is whole records, those of the log.
    ghost predicate Logged()
      reads this`sent, this`log
    {
      sent == EncodeAll(Records(log))
    }

    // Records just sent are entered in the log.
    ghost method Enter(entries: seq<Sending>)
      requires sent == EncodeAll(Records(log)) + EncodeAll(Records(entries))
      modifies this`log
      ensures Logged() && log == old(log) + entries
    {
      RecordsConcat(log, entries);
      EncodeAllConcat(Records(log), Records(entries));
      log := log + entries;
    }

    // OS_Read: any number of bytes the buffer has room for; 0 only at the end of input.
    method Read(buf: array<byte>) returns (count: nat)
      requires buf.Length > 0
      modifies this`input, buf
      ensures count == 0 <==> old(input) == []
      ensures count <= buf.Length && count <= |old(input)|
      ensures buf[..count] == old(input)[..count]
      ensures input == old(input)[count..]
    {
      if input == [] {
        return 0;
      }
      count :| 0 < count <= buf.Length && count <= |input|;
      forall i | 0 <= i < count {
        buf[i] := input[i];
      }
      input := input[count..];
    }

    // OS_Write: any non-empty part of buf[from..from + len].
    method Write(buf: array<byte>, from: nat, len: nat) returns (wrote: nat)
      requires 0 < len && from + len <= buf.Length
      modifies this`sent
      ensures 0 < wrote <= len
      ensures sent == old(sent) + buf[from..from + wrote]
    {
      wrote :| 0 < wrote <= len;
      sent := sent + buf[from..from + wrote];
    }

    // write_it_all
    method WriteAll(buf: array<byte>, len: nat)
      requires len <= buf.Length
      modifies this`sent
      ensures sent == old(sent) + buf[..len]
    {
      var left := len;
      while left > 0
        invariant 0 <= left <= len
        invariant sent == old(sent) + buf[..len - left]
      {
        var wrote := Write(buf, len - left, left);
        assert buf[..len - left] + buf[len - left..len - left + wrote] == buf[..len - left + wrote];
        left := left - wrote;
      }
    }
  }

  /** The part of FCGX_Request that the streams read and update. */
  class Request {
    var requestId: nat
    var role: nat
    var isBeginProcessed: bool
    var keepConnection: bool
    var appStatus: int
    var nWriters: int

    constructor ()
      ensures requestId == 0 && !isBeginProcessed && nWriters == 0 && appStatus == 0
    {
      requestId, role, appStatus, nWriters := 0, 0, 0, 0;
      isBeginProcessed, keepConnection := false, false;
    }
  }
}
