/** The CGI bridge in front of an application that answers one request with the writers of
    module Output. */
module BridgeRun {
  import opened Protocol
  import opened Output
  import opened Demux
  import opened BridgeLoop
  import opened BridgeOutput

  /** Nothing of the application's output has been read. */
  predicate Unused(b: Bridge)
    reads b, b.receiver
  {
    var r := b.receiver;
    && r.headerLen == 0 && r.stdout == r.stderr == []
    && !r.exitStatusSet && r.exitCode == None
  }

  /** Whatever the application's calls on its two output streams are, as long as they close
      both, and whatever select, read and write deliver within the bridge's limits: the bridge
      does not fail; at every moment it has written a front part of each stream; and when it
      ends, exactly the bytes put on the output stream to fd 1 and those put on the error
      stream to fd 2, with the application's exit status modulo 2^32. It does end when select
      reports the socket often enough and no read cuts a header in two. */
  method Forward(b: Bridge, passes: nat, eager: bool, ghost m: Output, ghost calls: seq<Call>)
    requires b.Inv() && b.aio.readFdSetPost == {} && b.aio.writeFdSetPost == {} && Unused(b)
    requires Inv(m) && m.log == [] && m.out.pending == m.err.pending == [] && !m.out.closed && !m.err.closed
    requires FinalStatus(true, true, m.appStatus, calls).Some?
    requires b.receiver.requestId == m.id && b.conn.input == EncodeAll(Run(m, calls).log)
    modifies b, b.aio, b.aio.table, b.conn
    modifies b.receiver, b.receiver.fromAS, b.receiver.fromAS.buff, b.receiver.header, b.receiver.erBody
    modifies b.forwarder, b.forwarder.fromWS, b.forwarder.fromWS.buff
    ensures b.Inv() && b.receiver.exitCode == None
    ensures b.receiver.stdout <= Accepted(Out, calls) && b.receiver.stderr <= Accepted(Err, calls)
    ensures eager && old(b.fcgiReadPending) && passes > old(|b.conn.input|) && b.receiver.Whole() ==>
              b.receiver.exitStatusSet
    ensures b.receiver.exitStatusSet ==>
      && b.receiver.stdout == Accepted(Out, calls) && b.receiver.stderr == Accepted(Err, calls)
      && b.receiver.exitStatus == FinalStatus(true, true, m.appStatus, calls).value % 0x100000000
  {
    hide Run, Inv, Bridge.Inv, AtBoundary, FinalStatus, Accepted, EncodeAll, Receiver.Settled, Unused;
    ghost var o := AtBoundary(m.id, b.conn.input);
    RunDemanded(m, calls);
    Ahead(b);
    b.Run(passes, eager, o);
    Written(b, o);
  }

  // All of the bridge's output is still to come.
  lemma Ahead(b: Bridge)
    requires b.Inv() && Unused(b)
    ensures var r := b.receiver;
            r.Valid() && r.exitCode == None && r.Settled(AtBoundary(r.requestId, b.conn.input), b.conn.input)
  {
    hide AtBoundary;
    var r := b.receiver;
    var o := AtBoundary(r.requestId, b.conn.input);
    assert r.header[..0] + b.conn.input == b.conn.input;
    assert [] + o.stdout == o.stdout && [] + o.stderr == o.stderr;
  }

  // What has been written when the output is o, which ends well and with nothing behind it.
  lemma Written(b: Bridge, o: Demux.Outcome)
    requires b.receiver.Valid() && b.receiver.Settled(o, b.conn.input) && o.end.Ended? && o.end.rest == []
    ensures var r := b.receiver;
            && r.exitCode == None && r.stdout <= o.stdout && r.stderr <= o.stderr
            && (r.exitStatusSet ==> r.stdout == o.stdout && r.stderr == o.stderr && r.exitStatus == o.end.status)
  {
  }
}
