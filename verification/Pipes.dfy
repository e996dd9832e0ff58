/** The queue of task pointers between two threads: a writer's buffer, the kernel's pipe
    and a reader's buffer, all of them bytes. */
module Pipes {
  import opened Protocol

  const ELEMENT_SIZE := 8          // sizeof(T)
  const COMMON_CONSTANT := 32

  const NULL: seq<byte> := [0, 0, 0, 0, 0, 0, 0, 0]

  predicate Element(p: seq<byte>) {
    |p| == ELEMENT_SIZE && p != NULL
  }

  /** The kernel's pipe. */
  class KernelPipe {
    var bytes: seq<byte>

    constructor ()
      ensures bytes == []
    {
      bytes := [];
    }
  }

  // Where the writer's buffer stands: the pending bytes from offset to end, and how many
  // elements the buffer holds.
  datatype Fill = Fill(offset: nat, end: nat, volume: nat) {
    predicate Valid() {
      volume > 0 && offset <= end <= volume * ELEMENT_SIZE
    }

    // A full buffer is moved to its front, or doubled in place when an element or less was
    // written.
    function RoomMade(): Fill {
      if end < volume * ELEMENT_SIZE then this
      else if offset > ELEMENT_SIZE then Fill(0, Max(0, end - offset), volume)
      else Fill(0, end, 2 * volume)
    }

    // A further element fits the buffer.
    predicate Fits() {
      RoomMade().end + ELEMENT_SIZE <= RoomMade().volume * ELEMENT_SIZE
    }

    function Stored(): Fill {
      RoomMade().(end := RoomMade().end + ELEMENT_SIZE)
    }

    // Push writes at once whole multiples of 32 elements.
    predicate Flushes() {
      && end - offset >= COMMON_CONSTANT * ELEMENT_SIZE
      && end % (COMMON_CONSTANT * ELEMENT_SIZE) == 0
    }

    // A write stays in the buffer, although it steps by elements where offset counts bytes.
    predicate InReach() {
      end == offset || ELEMENT_SIZE * offset + (end - offset) <= volume * ELEMENT_SIZE
    }

    function Taken(n: nat): Fill {
      if offset + n == end then Fill(0, 0, volume) else Fill(offset + n, end, volume)
    }
  }

  // The bytes still to be written once data is stored behind b[offset..end]; None when the
  // element runs past the buffer. Doubling keeps the front although it may be written.
  function PendingAfter(b: seq<byte>, offset: nat, end: nat, data: seq<byte>): Option<seq<byte>>
    requires offset <= end <= |b|
  {
    if end < |b| then
      if end + ELEMENT_SIZE <= |b| then Some(b[offset..end] + data) else None
    else
      Some((if offset <= ELEMENT_SIZE then b[..end] else b[offset..end]) + data)
  }

  /** Push keeps exactly what is pending if and only if the element fits behind it, or the
      buffer is full and either nothing or more than one element of it was written. What
      fails are an end within an element of the buffer's, where the element runs past the
      buffer, and a full buffer of which at most one element was written: that goes out
      again. */
  lemma StoreConserves(b: seq<byte>, offset: nat, end: nat, data: seq<byte>)
    requires offset <= end <= |b| && |data| == ELEMENT_SIZE
    ensures PendingAfter(b, offset, end, data) == Some(b[offset..end] + data)
            <==> end + ELEMENT_SIZE <= |b| || (end == |b| && !(0 < offset <= ELEMENT_SIZE))
  {
    if end == |b| && 0 < offset <= ELEMENT_SIZE {
      assert |PendingAfter(b, offset, end, data).value| > |b[offset..end] + data|;
    }
  }

  /** The writer steps by whole elements where the offset counts bytes. What it writes is
      the front of what is pending, whatever the buffer holds, exactly when nothing was
      written before or nothing is written now. */
  lemma WriteConserves(n: nat, offset: nat, taken: nat)
    requires ELEMENT_SIZE * offset + taken <= n
    ensures (forall b: seq<byte> ::
               |b| == n ==> b[ELEMENT_SIZE * offset..ELEMENT_SIZE * offset + taken] == b[offset..offset + taken])
            <==> offset == 0 || taken == 0
  {
    if offset > 0 && taken > 0 {
      var b: seq<byte> := seq(n, i => if i == offset then 1 else 0);
      assert b[offset..offset + taken][0] == 1 && b[ELEMENT_SIZE * offset..ELEMENT_SIZE * offset + taken][0] == 0;
      assert |b| == n;
    }
  }

  // What a write of n bytes puts into the pipe.
  function Written(b: seq<byte>, f: Fill, n: nat): seq<byte>
    requires f.Valid() && f.InReach() && |b| == f.volume * ELEMENT_SIZE && n <= f.end - f.offset
  {
    if n == 0 then [] else b[ELEMENT_SIZE * f.offset..ELEMENT_SIZE * f.offset + n]
  }

  /** A write of all that is pending stays in the buffer exactly when the bytes already
      written leave seven times their number free behind the pending ones. */
  lemma WriteInReach(f: Fill)
    requires f.Valid() && f.offset < f.end
    ensures f.InReach() <==> 7 * f.offset <= f.volume * ELEMENT_SIZE - f.end
  {
  }

  class QueueWriter {
    const pipe: KernelPipe
    var buf: array<byte>
    var offset: nat      // m_data_size_offset, in bytes
    var end: nat         // m_data_size_end, in bytes
    var volume: nat      // m_buf_volume, in elements
    var outputEnabled: bool

    predicate Valid()
      reads this
    {
      buf.Length == volume * ELEMENT_SIZE && At().Valid()
    }

    function At(): Fill
      reads this
    {
      Fill(offset, end, volume)
    }

    // What writes of all that is pending, or of nothing, keep.
    predicate Aligned()
      reads this
    {
      offset == 0 && end % ELEMENT_SIZE == 0
    }

    function Pending(): seq<byte>
      requires Valid()
      reads this, buf
    {
      buf[offset..end]
    }

    constructor (pipe: KernelPipe)
      ensures Valid() && Aligned() && Pending() == [] && this.pipe == pipe && fresh(buf) && !outputEnabled
      ensures At() == Fill(0, 0, COMMON_CONSTANT)
    {
      this.pipe := pipe;
      volume := COMMON_CONSTANT;
      buf := new byte[COMMON_CONSTANT * ELEMENT_SIZE](_ => 0);
      offset, end, outputEnabled := 0, 0, false;
    }

    /** A write, of which the pipe takes at most room bytes; false when it would read past
        the buffer. */
    method OutputNotify(room: nat) returns (ok: bool)
      requires Valid()
      modifies this`offset, this`end, this`outputEnabled, pipe
      ensures Valid() && ok == old(At()).InReach()
      ensures !ok ==> At() == old(At()) && pipe.bytes == old(pipe.bytes) && outputEnabled == old(outputEnabled)
      ensures ok ==>
        var n := Min(room, |old(Pending())|);
        && At() == old(At()).Taken(n) && Pending() == old(Pending())[n..]
        && pipe.bytes == old(pipe.bytes) + Written(old(buf[..]), old(At()), n)
        && outputEnabled == (old(outputEnabled) && Pending() != [])
      ensures old(offset) == 0 ==> ok && pipe.bytes + Pending() == old(pipe.bytes) + old(Pending())
    {
      ghost var pending, sent := Pending(), pipe.bytes;
      ghost var n := Min(room, |pending|);
      assert pending == pending[..n] + pending[n..];
      if end > offset {
        if ELEMENT_SIZE * offset + (end - offset) > buf.Length {
          return false;
        }
        var taken := Min(room, end - offset);
        if taken > 0 {
          pipe.bytes := pipe.bytes + buf[ELEMENT_SIZE * offset..ELEMENT_SIZE * offset + taken];
          offset := offset + taken;
        }
      }
      if end - offset <= 0 {
        end, offset := 0, 0;
        outputEnabled := false;
      }
      assert Pending() == pending[n..];
      ConcatAssociates(sent, pending[..n], pending[n..]);
      return true;
    }

    /** Appends an element to the buffer; false when it does not fit. */
    method Store(data: seq<byte>) returns (ok: bool)
      requires Valid() && |data| == ELEMENT_SIZE
      modifies this`buf, this`offset, this`end, this`volume, buf
      ensures Valid() && ok == old(At()).Fits()
      ensures ok == PendingAfter(old(buf[..]), old(offset), old(end), data).Some?
      ensures ok ==>
        && At() == old(At()).Stored()
        && PendingAfter(old(buf[..]), old(offset), old(end), data) == Some(Pending())
      ensures !ok ==> At() == old(At()) && Pending() == old(Pending())
      ensures buf == old(buf) || fresh(buf)
    {
      ghost var b, o, e := buf[..], offset, end;
      if end >= volume * ELEMENT_SIZE {
        MakeRoom();
      } else if end + ELEMENT_SIZE > buf.Length {
        return false;
      }
      assert Pending() == if e == |b| && o <= ELEMENT_SIZE then b[..e] else b[o..e];
      Append(data);
      return true;
    }

    method Append(data: seq<byte>)
      requires Valid() && |data| == ELEMENT_SIZE && end + ELEMENT_SIZE <= buf.Length
      modifies this`end, buf
      ensures Valid() && end == old(end) + ELEMENT_SIZE && Pending() == old(Pending()) + data
    {
      ghost var pending := Pending();
      forall i | 0 <= i < ELEMENT_SIZE {
        buf[end + i] := data[i];
      }
      end := end + ELEMENT_SIZE;
      assert Pending() == pending + data;
    }

    method MakeRoom()
      requires Valid() && end == volume * ELEMENT_SIZE
      modifies this`buf, this`offset, this`end, this`volume, buf
      ensures Valid() && At() == old(At()).RoomMade()
      ensures end + ELEMENT_SIZE <= buf.Length && (buf == old(buf) || fresh(buf))
      ensures Pending() == if old(offset) <= ELEMENT_SIZE then old(buf[..end]) else old(Pending())
    {
      if offset > ELEMENT_SIZE {
        ghost var pending := Pending();
        forall i | 0 <= i < end - offset {
          buf[i] := buf[offset + i];
        }
        end := end - offset;
        offset := 0;
        assert forall i :: 0 <= i < |pending| ==> Pending()[i] == pending[i];
      } else {
        ghost var all := buf[..end];
        var newbuf := new byte[2 * volume * ELEMENT_SIZE](_ => 0);
        forall i | 0 <= i < end {
          newbuf[i] := buf[i];
        }
        buf := newbuf;
        volume := volume * 2;
        offset := 0;
        assert forall i :: 0 <= i < |all| ==> Pending()[i] == all[i];
      }
    }

    /** Push: the buffer is written at once when it holds whole multiples of 32 elements, of
        which the pipe takes at most room bytes. False when the element does not fit, or the
        write would read past the buffer. */
    method Push(data: seq<byte>, room: nat) returns (ok: bool)
      requires Valid() && |data| == ELEMENT_SIZE
      modifies this, buf, pipe
      ensures Valid() && (buf == old(buf) || fresh(buf))
      ensures var f := old(At()).Stored();
              ok == (old(At()).Fits() && (f.Flushes() ==> f.InReach()))
      ensures !old(At()).Fits() ==> At() == old(At()) && Pending() == old(Pending()) && pipe.bytes == old(pipe.bytes)
      ensures ok ==>
        var f := old(At()).Stored();
        var s := PendingAfter(old(buf[..]), old(offset), old(end), data);
        var n := if f.Flushes() then Min(room, f.end - f.offset) else 0;
        && s.Some? && n <= |s.value| && Pending() == s.value[n..] && At() == f.Taken(n)
        && (n == 0 ==> pipe.bytes == old(pipe.bytes))
        && (f.offset == 0 ==> pipe.bytes + Pending() == old(pipe.bytes) + s.value)
        && (Pending() != [] ==> outputEnabled)
    {
      hide PendingAfter;
      ok := Store(data);
      if !ok {
        return;
      }
      ghost var s := Pending();
      assert s[0..] == s;
      outputEnabled := true;
      if end - offset >= COMMON_CONSTANT * ELEMENT_SIZE && end % (COMMON_CONSTANT * ELEMENT_SIZE) == 0 {
        ok := OutputNotify(room);
      }
    }

    /** As long as every write takes all that is pending or nothing, every push fits and
        keeps what is on its way. */
    method PushAligned(data: seq<byte>, room: bool)
      requires Valid() && Aligned() && |data| == ELEMENT_SIZE
      modifies this, buf, pipe
      ensures Valid() && Aligned() && (buf == old(buf) || fresh(buf))
      ensures pipe.bytes + Pending() == old(pipe.bytes) + old(Pending()) + data
      ensures Pending() != [] ==> outputEnabled
      ensures |pipe.bytes| % ELEMENT_SIZE == old(|pipe.bytes|) % ELEMENT_SIZE
    {
      ghost var pending, sent, f := Pending(), pipe.bytes, At();
      assert buf[..][0..end] == pending;
      AlignedStored(f, if room then end + ELEMENT_SIZE else 0);
      StoreConserves(buf[..], offset, end, data);
      ConcatAssociates(sent, pending, data);
      var _ := Push(data, if room then end + ELEMENT_SIZE else 0);
      SameRest(|sent|, |pipe.bytes|, |pending|, |Pending()|);
    }

    static lemma AlignedStored(f: Fill, room: nat)
      requires f.Valid() && f.offset == 0 && f.end % ELEMENT_SIZE == 0 && (room == 0 || room == f.end + ELEMENT_SIZE)
      ensures f.Fits() && f.Stored().offset == 0 && f.Stored().end == f.end + ELEMENT_SIZE && f.Stored().InReach()
      ensures var g := f.Stored().Taken(Min(room, f.Stored().end)); g.offset == 0 && g.end % ELEMENT_SIZE == 0
    {
    }

    static lemma SameRest(a: nat, b: nat, p: nat, q: nat)
      requires p % ELEMENT_SIZE == 0 && q % ELEMENT_SIZE == 0 && b + q == a + p + ELEMENT_SIZE
      ensures a % ELEMENT_SIZE == b % ELEMENT_SIZE
    {
    }
  }

  /** Elements go to the pipe 32 at a time: after n pushes to a new writer, with room for a
      write whenever there is one, the pipe has got all the whole batches and no more. */
  method Batches(n: nat, data: seq<byte>) returns (w: QueueWriter)
    requires |data| == ELEMENT_SIZE
    ensures w.Valid() && |w.pipe.bytes| == 256 * (n / 32) && |w.Pending()| == 8 * (n % 32)
  {
    hide PendingAfter;
    var pipe := new KernelPipe();
    w := new QueueWriter(pipe);
    for k := 0 to n
      invariant fresh(w) && fresh(w.buf) && w.pipe == pipe && fresh(pipe) && w.Valid()
      invariant |pipe.bytes| == 256 * (k / 32) && w.At() == Fill(0, 8 * (k % 32), 32)
    {
      OneOfBatch(k);
      StoreConserves(w.buf[..], w.offset, w.end, data);
      var _ := w.Push(data, 256);
    }
  }

  lemma OneOfBatch(k: nat)
    ensures var f := Fill(0, 8 * (k % 32), 32);
            && f.Fits() && f.Stored().InReach() && (f.Stored().Flushes() <==> k % 32 == 31)
            && (k % 32 == 31 ==> f.Stored().Taken(256) == Fill(0, 8 * ((k + 1) % 32), 32) && (k + 1) / 32 == k / 32 + 1)
            && (k % 32 != 31 ==> f.Stored().Taken(0) == Fill(0, 8 * ((k + 1) % 32), 32) && (k + 1) / 32 == k / 32)
  {
  }

  class QueueReader {
    const pipe: KernelPipe
    const buf: array<byte>   // 32 elements
    var offset: nat          // m_data_num_offset, in elements
    var end: nat             // m_data_num_end, in elements
    var remaining: int       // m_remaining_size, in bytes

    predicate Valid()
      reads this
    {
      && buf.Length == COMMON_CONSTANT * ELEMENT_SIZE && remaining >= 0
      && ELEMENT_SIZE * offset + remaining <= buf.Length && end == offset + remaining / ELEMENT_SIZE
    }

    function Data(): seq<byte>
      requires Valid()
      reads this, buf
    {
      buf[ELEMENT_SIZE * offset..ELEMENT_SIZE * offset + remaining]
    }

    constructor (pipe: KernelPipe)
      ensures Valid() && Data() == [] && this.pipe == pipe && fresh(buf)
    {
      this.pipe := pipe;
      buf := new byte[COMMON_CONSTANT * ELEMENT_SIZE](_ => 0);
      offset, end, remaining := 0, 0, 0;
    }

    // Whether Pop reads.
    predicate Empty()
      reads this
    {
      offset >= end
    }

    // Whether a read of count bytes leaves Pop with a whole element, or with nothing.
    predicate Completes(count: nat)
      reads this
    {
      !Empty() || count == 0 || remaining + count >= ELEMENT_SIZE
    }

    // No element is divided between the reader, the pipe and the writer.
    predicate WholeElements()
      reads this, pipe
    {
      AllWhole(remaining, |pipe.bytes|)
    }

    static predicate AllWhole(a: int, b: int) {
      a % ELEMENT_SIZE == 0 && b % ELEMENT_SIZE == 0
    }

    lemma StillWhole(count: nat)
      ensures AllWhole(remaining, |pipe.bytes|) && count % ELEMENT_SIZE == 0 ==>
                && AllWhole(remaining + count - ELEMENT_SIZE, |pipe.bytes| - count)
                && AllWhole(remaining - ELEMENT_SIZE, |pipe.bytes|) && AllWhole(remaining, |pipe.bytes| - count)
    {
    }

    /** The next element, after a read when none is buffered; None when that gives nothing.
        count is what the read gives. When it does not complete an element, the bytes there
        are handed out all the same and the number of bytes left becomes negative. */
    method Pop(count: nat) returns (r: Option<seq<byte>>)
      requires Valid() && (Empty() ==> count <= buf.Length - remaining && count <= |pipe.bytes|)
      modifies this`offset, this`end, this`remaining, buf, pipe
      ensures old(Completes(count)) ==>
        && Valid()
        && match r
           case None => Data() == old(Data()) && pipe.bytes == old(pipe.bytes) && |Data()| < ELEMENT_SIZE
           case Some(p) => |p| == ELEMENT_SIZE && p + (Data() + pipe.bytes) == old(Data()) + old(pipe.bytes)
      ensures r.None? <==> old(Empty()) && count == 0
      ensures !old(Completes(count)) ==> !Valid() && remaining == old(remaining) + count - ELEMENT_SIZE < 0
      ensures !old(Completes(count)) ==> offset == 1 && end == 0 && r == Some(buf[..ELEMENT_SIZE])
      ensures pipe.bytes == if old(Empty()) then old(pipe.bytes)[count..] else old(pipe.bytes)
      ensures old(AllWhole(remaining, |pipe.bytes|)) && count % ELEMENT_SIZE == 0 ==> AllWhole(remaining, |pipe.bytes|)
    {
      hide AllWhole;
      StillWhole(count);
      if offset >= end {
        Compact();
        if count == 0 {
          return None;
        }
        Fill(count);
        if end == 0 {
          remaining := remaining - ELEMENT_SIZE;
          offset := offset + 1;
          return Some(buf[..ELEMENT_SIZE]);
        }
      }
      r := TakeFirst();
    }

    method TakeFirst() returns (r: Option<seq<byte>>)
      requires Valid() && offset < end
      modifies this`offset, this`remaining
      ensures Valid() && r.Some? && |r.value| == ELEMENT_SIZE && remaining == old(remaining) - ELEMENT_SIZE
      ensures r.value + Data() == old(Data()) && r.value + (Data() + pipe.bytes) == old(Data()) + old(pipe.bytes)
    {
      ghost var all := Data();
      remaining := remaining - ELEMENT_SIZE;
      var p := buf[ELEMENT_SIZE * offset..ELEMENT_SIZE * offset + ELEMENT_SIZE];
      offset := offset + 1;
      assert all == p + Data();
      ConcatAssociates(p, Data(), pipe.bytes);
      return Some(p);
    }

    // Moves what is left to the front.
    method Compact()
      requires Valid() && offset >= end
      modifies this`offset, this`end, buf
      ensures Valid() && Data() == old(Data()) && offset == end == 0
    {
      ghost var data := Data();
      if remaining > 0 {
        forall i | 0 <= i < remaining {
          buf[i] := buf[ELEMENT_SIZE * offset + i];
        }
      }
      offset, end := 0, 0;
      assert Data() == data;
    }

    method Fill(count: nat)
      requires Valid() && offset == 0 && remaining + count <= buf.Length && count <= |pipe.bytes|
      modifies this`end, this`remaining, buf, pipe
      ensures Valid() && Data() + pipe.bytes == old(Data()) + old(pipe.bytes) && remaining == old(remaining) + count
      ensures pipe.bytes == old(pipe.bytes)[count..]
    {
      ghost var data, bytes := Data(), pipe.bytes;
      forall i | 0 <= i < count {
        buf[remaining + i] := pipe.bytes[i];
      }
      pipe.bytes := pipe.bytes[count..];
      remaining := remaining + count;
      end := remaining / ELEMENT_SIZE;
      assert Data() == data + bytes[..count];
      assert bytes == bytes[..count] + bytes[count..];
      ConcatAssociates(data, bytes[..count], bytes[count..]);
    }
  }

  /** The bytes on their way from the writer to the reader are whole elements: those pushed
      and not yet popped. */
  predicate InFlight(pushed: seq<seq<byte>>, popped: seq<seq<byte>>, flight: seq<byte>) {
    && (forall p :: p in pushed ==> Element(p))
    && popped <= pushed
    && flight == Flatten(pushed[|popped|..])
  }

  lemma OnePushed(pushed: seq<seq<byte>>, popped: seq<seq<byte>>, flight: seq<byte>, p: seq<byte>)
    requires InFlight(pushed, popped, flight) && Element(p)
    ensures InFlight(pushed + [p], popped, flight + p)
  {
    hide Flatten;
    assert (pushed + [p])[|popped|..] == pushed[|popped|..] + [p];
    FlattenSnoc(pushed[|popped|..], p);
  }

  // A element taken from the front of the bytes is the next one pushed.
  lemma OnePopped(pushed: seq<seq<byte>>, popped: seq<seq<byte>>, p: seq<byte>, flight: seq<byte>)
    requires InFlight(pushed, popped, p + flight) && |p| == ELEMENT_SIZE
    ensures |popped| < |pushed| && p == pushed[|popped|] && Element(p) && InFlight(pushed, popped + [p], flight)
  {
    var rest := pushed[|popped|..];
    assert |p + flight| > 0;
    assert rest != [];
    FlattenSplit(rest);
    assert rest[0] in pushed && rest[0] == pushed[|popped|] && rest[1..] == pushed[|popped| + 1..];
    hide Flatten;
    assert p == (p + flight)[..ELEMENT_SIZE] == rest[0];
    assert flight == (p + flight)[ELEMENT_SIZE..] == Flatten(rest[1..]);
  }

  /** The whole queue: a writer and a reader on one kernel pipe. */
  class PipeQueue {
    const pipe: KernelPipe
    const writer: QueueWriter
    const reader: QueueReader
    ghost var pushed: seq<seq<byte>>
    ghost var popped: seq<seq<byte>>

    /** First in, first out, over any run: the elements popped are the first ones pushed,
        and the bytes of the others lie in the reader, the pipe and the writer in order.
        The pipe and the reader hold whole elements, because only whole ones are written. */
    ghost predicate Valid()
      reads this, pipe, writer, writer.buf, reader, reader.buf
    {
      && writer.Valid() && writer.Aligned() && reader.Valid()
      && writer.pipe == pipe == reader.pipe && writer.buf != reader.buf
      && reader.WholeElements()
      && InFlight(pushed, popped, reader.Data() + (pipe.bytes + writer.Pending()))
    }

    constructor ()
      ensures Valid() && pushed == popped == []
    {
      var p := new KernelPipe();
      pipe := p;
      writer := new QueueWriter(p);
      reader := new QueueReader(p);
      pushed, popped := [], [];
      new;
      FlattenNone<byte>();
      assert reader.Data() + (pipe.bytes + writer.Pending()) == [];
    }

    method Push(data: seq<byte>, room: bool)
      requires Valid() && Element(data)
      modifies this`pushed, writer, writer.buf, pipe
      ensures Valid() && pushed == old(pushed) + [data] && popped == old(popped)
    {
      hide Flatten, InFlight;
      ghost var data0, flight := reader.Data(), pipe.bytes + writer.Pending();
      writer.PushAligned(data, room);
      ConcatAssociates(data0, flight, data);
      OnePushed(pushed, popped, data0 + flight, data);
      pushed := pushed + [data];
    }

    // The writer's side is writable.
    method OutputNotify(room: bool)
      requires Valid()
      modifies writer, pipe
      ensures Valid() && (room ==> writer.Pending() == [])
    {
      hide Flatten, InFlight;
      ghost var sent, pending := pipe.bytes, writer.Pending();
      var _ := writer.OutputNotify(if room then writer.end - writer.offset else 0);
      assert sent + pending == pipe.bytes + writer.Pending();
    }

    /** The reader's next element; count is what a read gives, any number of the elements
        that are there. */
    method Pop(count: nat) returns (r: Option<seq<byte>>)
      requires Valid() && count % ELEMENT_SIZE == 0 && (reader.Empty() ==> count <= Readable())
      modifies this`popped, reader, reader.buf, pipe
      ensures Valid()
      ensures popped == if r.None? then old(popped) else old(popped) + [r.value]
      ensures r.Some? ==> Element(r.value)
      ensures r.None? ==> pipe.bytes == old(pipe.bytes) && reader.Data() == []
      ensures r.None? ==> old(reader.remaining) == 0 && count == 0
    {
      hide Flatten, InFlight, Element, QueueReader.AllWhole;
      WholeOrNothing();
      ghost var data, bytes, pending := reader.Data(), pipe.bytes, writer.Pending();
      r := reader.Pop(count);
      if r.Some? {
        ghost var p := r.value;
        ConcatAssociates(data, bytes, pending);
        ConcatAssociates(p, reader.Data() + pipe.bytes, pending);
        ConcatAssociates(reader.Data(), pipe.bytes, pending);
        OnePopped(pushed, popped, p, reader.Data() + (pipe.bytes + pending));
        popped := popped + [p];
      }
    }

    lemma WholeOrNothing()
      requires reader.Valid() && reader.WholeElements()
      ensures forall count: nat :: count % ELEMENT_SIZE == 0 ==> reader.Completes(count)
      ensures reader.Empty() ==> reader.Data() == [] && reader.remaining == 0
    {
    }

    // How much a read can give at most: what is in the pipe and fits the reader's buffer.
    function Readable(): (n: nat)
      requires reader.Valid()
      reads this, reader, pipe
    {
      Min(reader.buf.Length - reader.remaining, |pipe.bytes|)
    }

    lemma ReadableWhole()
      requires reader.Valid() && reader.WholeElements() && reader.pipe == pipe
      ensures Readable() % ELEMENT_SIZE == 0
      ensures Readable() == 0 && reader.remaining == 0 ==> pipe.bytes == []
    {
    }

    /** The reader's side is readable, and reads give what is there: at most 64 elements are
        passed on, in order, and fewer only when reader and pipe are empty. */
    method InputNotify() returns (tasks: seq<seq<byte>>)
      requires Valid()
      modifies this`popped, reader, reader.buf, pipe
      ensures Valid() && popped == old(popped) + tasks && |tasks| <= 2 * COMMON_CONSTANT
      ensures |tasks| < 2 * COMMON_CONSTANT ==> reader.Data() == [] && pipe.bytes == []
    {
      hide InFlight;
      tasks := [];
      var taskNum := 0;
      while true
        invariant Valid() && popped == old(popped) + tasks
        invariant taskNum == |tasks| <= 2 * COMMON_CONSTANT
        decreases 2 * COMMON_CONSTANT - taskNum
      {
        taskNum := taskNum + 1;
        if taskNum > 2 * COMMON_CONSTANT {
          return;
        }
        WholeOrNothing();
        ReadableWhole();
        var data := Pop(Readable());
        if data.None? {
          return;
        }
        tasks := tasks + [data.value];
      }
    }
  }
}
