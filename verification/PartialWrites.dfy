/** What becomes of the queue between two threads when the pipe takes a part of a write:
    each way in which the writer then fails, reached from its constructor. */
module PartialWrites {
  import opened Protocol
  import opened Pipes

  // The capacity after n pushes of which nothing was written.
  function VolumeAfter(n: nat): nat {
    if n == 0 then COMMON_CONSTANT
    else if VolumeAfter(n - 1) == n - 1 then 2 * (n - 1) else VolumeAfter(n - 1)
  }

  lemma {:induction false} VolumeStays(m: nat, n: nat)
    requires m <= n <= VolumeAfter(m)
    ensures VolumeAfter(n) == VolumeAfter(m)
  {
    if n > m {
      VolumeStays(m, n - 1);
    }
  }

  lemma VolumeDoubles(v: nat)
    requires v > 0 && VolumeAfter(v) == v
    ensures VolumeAfter(v + 1) == VolumeAfter(2 * v) == 2 * v
  {
    VolumeStays(v + 1, 2 * v);
  }

  lemma Volume1024()
    ensures VolumeAfter(513) == VolumeAfter(1024) == 1024
  {
    hide VolumeAfter;
    VolumeStart();
    VolumeDoubles(32);
    VolumeDoubles(64);
    VolumeDoubles(128);
    VolumeDoubles(256);
    VolumeDoubles(512);
  }

  lemma VolumeStart()
    ensures VolumeAfter(32) == 32
  {
    VolumeStays(0, 32);
  }

  /** A new writer after n pushes of the same element, while the pipe takes nothing. */
  method Filled(n: nat, data: seq<byte>) returns (w: QueueWriter)
    requires |data| == ELEMENT_SIZE
    ensures fresh(w) && fresh(w.buf) && fresh(w.pipe) && w.Valid() && w.pipe.bytes == []
    ensures w.At() == Fill(0, ELEMENT_SIZE * n, VolumeAfter(n))
    ensures |w.Pending()| == ELEMENT_SIZE * n
    ensures Repeated(w.Pending(), data)
  {
    hide VolumeAfter, Repeated;
    var pipe := new KernelPipe();
    w := new QueueWriter(pipe);
    NoPushes();
    NothingRepeated(data);
    assert w.Pending() == [];
    for k := 0 to n
      invariant fresh(w) && fresh(w.buf) && w.pipe == pipe && w.Valid() && pipe.bytes == []
      invariant w.At() == Fill(0, ELEMENT_SIZE * k, VolumeAfter(k))
      invariant Repeated(w.Pending(), data)
    {
      OnePush(w.At(), k);
      ghost var had := w.Pending();
      assert w.buf[..][0..w.end] == had;
      RepeatedMore(had, data);
      StoreConserves(w.buf[..], w.offset, w.end, data);
      var _ := w.Push(data, 0);
    }
  }

  // The same element over and over.
  predicate Repeated(s: seq<byte>, data: seq<byte>)
    requires |data| == ELEMENT_SIZE
  {
    |s| % ELEMENT_SIZE == 0 && forall i :: 0 <= i < |s| ==> s[i] == data[i % ELEMENT_SIZE]
  }

  lemma RepeatedMore(s: seq<byte>, data: seq<byte>)
    requires |data| == ELEMENT_SIZE && Repeated(s, data)
    ensures Repeated(s + data, data)
  {
    forall i | |s| <= i < |s| + ELEMENT_SIZE
      ensures i % ELEMENT_SIZE == i - |s|
    {
    }
  }

  lemma NothingRepeated(data: seq<byte>)
    requires |data| == ELEMENT_SIZE
    ensures Repeated([], data)
  {
  }

  lemma NoPushes()
    ensures VolumeAfter(0) == COMMON_CONSTANT
  {
  }

  lemma OnePush(f: Fill, k: nat)
    requires f == Fill(0, ELEMENT_SIZE * k, VolumeAfter(k)) && f.Valid()
    ensures f.Fits() && f.Stored() == Fill(0, ELEMENT_SIZE * (k + 1), VolumeAfter(k + 1))
    ensures f.Stored().InReach() && f.Stored().Taken(0) == f.Stored()
  {
  }

  /** An element goes out twice: in a full buffer of 8192 bytes, the pipe takes the first
      element only; the next push keeps it. */
  method WrittenTwice(data: seq<byte>) returns (w: QueueWriter)
    requires |data| == ELEMENT_SIZE
    ensures w.Valid() && w.pipe.bytes == data && |w.Pending()| == 1025 * ELEMENT_SIZE
    ensures |w.pipe.bytes + w.Pending()| == 1026 * ELEMENT_SIZE   // of 1025 elements pushed
  {
    hide Repeated;
    Volume1024();
    w := Filled(1024, data);
    ghost var pending := w.Pending();
    FirstRepeated(pending, data);
    var ok := w.OutputNotify(ELEMENT_SIZE);
    assert w.At() == Fill(8, 8192, 1024);
    ok := w.Push(data, 0);
  }

  lemma FirstRepeated(s: seq<byte>, data: seq<byte>)
    requires |data| == ELEMENT_SIZE && Repeated(s, data) && |s| >= ELEMENT_SIZE
    ensures s[..ELEMENT_SIZE] == data
  {
  }

  /** An element runs past the buffer: of 8192 bytes the pipe takes 5001; the next push
      moves the rest to the front, and the pushes after it keep the uneven end until less
      than an element is left. */
  method RunsPastBuffer(data: seq<byte>) returns (w: QueueWriter, ok: bool)
    requires |data| == ELEMENT_SIZE
    ensures w.Valid() && w.At() == Fill(0, 8191, 1024) && w.buf.Length == 8192 && !ok
  {
    hide Repeated, PendingAfter;
    Volume1024();
    w := Filled(1024, data);
    ok := w.OutputNotify(5001);
    assert w.At() == Fill(5001, 8192, 1024);
    ok := w.Push(data, 0);
    assert w.At() == Fill(0, 3199, 1024);
    for k := 0 to 624
      invariant fresh(w) && fresh(w.buf) && fresh(w.pipe)
      invariant w.Valid() && w.At() == Fill(0, 3199 + ELEMENT_SIZE * k, 1024)
    {
      UnevenPush(w.At(), k);
      ok := w.Push(data, 0);
    }
    ok := w.Push(data, 0);
  }

  lemma UnevenPush(f: Fill, k: nat)
    requires k < 624 && f == Fill(0, 3199 + ELEMENT_SIZE * k, 1024)
    ensures f.Fits() && f.Stored() == Fill(0, 3199 + ELEMENT_SIZE * (k + 1), 1024) && !f.Stored().Flushes()
  {
  }

  /** Other bytes than the pending ones are written: of 4104 pending bytes the pipe takes
      one, and the next write begins seven bytes too late. */
  method OtherBytes() returns (w: QueueWriter)
    ensures w.Valid() && w.pipe.bytes == [1, 1]   // of elements 1, 2, 3, 4, 5, 6, 7, 8
  {
    Volume1024();
    w := Filled(513, [1, 2, 3, 4, 5, 6, 7, 8]);
    ghost var pending := w.Pending();
    assert w.buf[..][0..w.end] == pending;
    assert pending[0] == 1 && pending[8] == 1;
    var ok := w.OutputNotify(1);
    assert w.At() == Fill(1, 4104, 1024);
    assert w.pipe.bytes == [1];
    ok := w.OutputNotify(1);
  }

  /** A write reads past the buffer: one byte of a full buffer has been taken. */
  method ReadsPastBuffer(data: seq<byte>) returns (w: QueueWriter, ok: bool)
    requires |data| == ELEMENT_SIZE
    ensures w.Valid() && w.At() == Fill(1, 8192, 1024) && !ok
  {
    hide Repeated, PendingAfter;
    Volume1024();
    w := Filled(1024, data);
    ok := w.OutputNotify(1);
    ok := w.OutputNotify(1);
  }
}
