/** The network library's buffers: one growing buffer with an erased front, and a list
    of them that is used as one byte string. */
module Buffers {
  import opened Protocol

  const UINT64 := 0x1_0000_0000_0000_0000

  class Buffer {
    var data: array<byte>
    var offset: nat
    var end: nat

    predicate Valid()
      reads this
    {
      offset <= end <= data.Length
    }

    // The live bytes.
    function Data(): (s: seq<byte>)
      requires Valid()
      reads this, data
      ensures |s| == end - offset
    {
      data[offset..end]
    }

    constructor (size: nat)
      ensures Valid() && Data() == [] && fresh(data) && data.Length == size
    {
      data := new byte[size](_ => 0);
      offset, end := 0, 0;
    }

    function DataLength(): nat
      requires Valid()
      reads this
    {
      end - offset
    }

    method EraseFront(count: nat) returns (erased: nat)
      requires Valid()
      modifies this`offset
      ensures Valid() && erased == Min(count, |old(Data())|) && Data() == old(Data())[erased..]
    {
      ghost var was := Data();
      erased := if DataLength() >= count then count else DataLength();
      offset := offset + erased;
      assert forall k :: 0 <= k < |was| - erased ==> Data()[k] == was[erased..][k];
    }

    method EraseBack(count: nat) returns (erased: nat)
      requires Valid()
      modifies this`end
      ensures Valid() && erased == Min(count, |old(Data())|) && Data() == old(Data())[..|old(Data())| - erased]
    {
      ghost var was := Data();
      erased := if DataLength() >= count then count else DataLength();
      end := end - erased;
      assert forall k :: 0 <= k < |was| - erased ==> Data()[k] == was[k];
    }

    method SetData(s: seq<byte>)
      requires Valid()
      modifies this, data
      ensures Valid() && Data() == s && (data == old(data) || fresh(data))
    {
      if data.Length < |s| {
        data := new byte[|s|](_ => 0);
      }
      forall i | 0 <= i < |s| {
        data[i] := s[i];
      }
      end, offset := |s|, 0;
    }

    // A length of 0 asks for twice the size.
    method Enlarge(size: nat) returns (ok: bool)
      requires Valid()
      modifies this`data
      ensures Valid() && Data() == old(Data()) && (data == old(data) || fresh(data))
      ensures var wanted := if size == 0 then 2 * old(data.Length) else size;
              ok == (wanted > old(data.Length)) && data.Length == Max(wanted, old(data.Length))
    {
      var enlarged := if size == 0 then data.Length * 2 else size;
      if enlarged <= data.Length {
        return false;
      }
      var bigger := new byte[enlarged](_ => 0);
      forall i | 0 <= i < end {
        bigger[i] := data[i];
      }
      data := bigger;
      return true;
    }

    method AddData(s: seq<byte>) returns (ok: bool)
      requires Valid()
      modifies this, data
      ensures Valid() && ok && Data() == old(Data()) + s && (data == old(data) || fresh(data))
    {
      ghost var was := Data();
      if end + |s| > data.Length {
        var enlarged := Enlarge(end + |s|);
        if !enlarged {
          return false;
        }
      }
      forall i | 0 <= i < |s| {
        data[end + i] := s[i];
      }
      end := end + |s|;
      assert data[offset..end] == was + s;
      return true;
    }
  }

  // The part of v between pos and end.
  function Slice(v: seq<byte>, pos: nat, end: nat): seq<byte>
    requires pos <= end
  {
    if pos >= |v| then [] else v[pos..Min(end, |v|)]
  }

  // The part of b that belongs to the slice when b follows before bytes.
  function Piece(b: seq<byte>, before: nat, pos: nat, end: nat): seq<byte>
    requires pos <= end && before <= end
  {
    if before + |b| <= pos then []
    else
      var offset := if pos > before then pos - before else 0;
      var length := if before + |b| < end then |b| - offset else end - before - offset;
      b[offset..offset + length]
  }

  lemma CutConcat(v: seq<byte>, b: seq<byte>, i: nat, j: nat)
    requires i <= j && |v| <= j <= |v| + |b|
    ensures (v + b)[i..j] == if i >= |v| then b[i - |v|..j - |v|] else v[i..] + b[..j - |v|]
  {
  }

  lemma SliceGrows(v: seq<byte>, b: seq<byte>, pos: nat, end: nat)
    requires pos <= end && |v| <= end
    ensures Slice(v + b, pos, end) == Slice(v, pos, end) + Piece(b, |v|, pos, end)
  {
    var m := Min(end, |v| + |b|);
    if |v| + |b| <= pos {
      assert Slice(v + b, pos, end) == [] == Slice(v, pos, end) == Piece(b, |v|, pos, end);
    } else {
      CutConcat(v, b, pos, m);
      if pos >= |v| {
        assert Slice(v, pos, end) == [] && Piece(b, |v|, pos, end) == b[pos - |v|..m - |v|];
      } else {
        assert Slice(v, pos, end) == v[pos..] && Piece(b, |v|, pos, end) == b[..m - |v|];
      }
    }
  }

  lemma SliceDone(v: seq<byte>, w: seq<byte>, pos: nat, end: nat)
    requires pos <= end <= |v|
    ensures Slice(v + w, pos, end) == Slice(v, pos, end)
  {
  }

  lemma DropTwice<T>(s: seq<T>, i: nat, j: nat)
    requires i <= j <= |s|
    ensures s[i..][j - i..] == s[j..]
  {
  }

  /** What is left of the buffers when count bytes are erased from the front. */
  function Erased(datas: seq<seq<byte>>, count: nat): seq<seq<byte>> {
    if count == 0 || datas == [] then datas
    else if |datas[0]| > count then [datas[0][count..]] + datas[1..]
    else Erased(datas[1..], count - |datas[0]|)
  }

  /** Erasing stops as soon as the count is reached, so exactly when the last buffer is
      empty does it outlive the last byte. */
  lemma {:induction false} ErasedEmpty(datas: seq<seq<byte>>, count: nat)
    requires 0 < count <= |Flatten(datas)|
    ensures Erased(datas, count) == [] <==> count == |Flatten(datas)| && datas[|datas| - 1] != []
  {
    if |datas[0]| <= count {
      if count > |datas[0]| {
        ErasedEmpty(datas[1..], count - |datas[0]|);
      } else if |datas| > 1 {
        LastOfRest(datas);
      }
    }
  }

  function LastOf(datas: seq<seq<byte>>): seq<byte>
    requires datas != []
  {
    datas[|datas| - 1]
  }

  // Erasing keeps an empty last buffer, and does not make a last buffer empty.
  lemma {:induction false} ErasedLast(datas: seq<seq<byte>>, count: nat)
    requires count <= |Flatten(datas)|
    ensures var e := Erased(datas, count);
            && (e != [] ==> datas != [] && (LastOf(e) == [] <==> LastOf(datas) == []))
            && (datas != [] && LastOf(datas) == [] ==> e != [])
  {
    if count > 0 {
      if |datas[0]| <= count {
        if |datas| > 1 {
          LastOfRest(datas);
          if count - |datas[0]| <= |Flatten(datas[1..])| {
            ErasedLast(datas[1..], count - |datas[0]|);
          }
        }
      }
    }
  }

  /** Erasing drops the bytes it counts and no others. */
  lemma {:induction false} ErasedFlat(datas: seq<seq<byte>>, count: nat)
    ensures Flatten(Erased(datas, count)) == Flatten(datas)[Min(count, |Flatten(datas)|)..]
  {
    hide Flatten;
    if datas == [] {
      FlattenNone<byte>();
    } else if count > 0 {
      ErasedOne(datas, count);
      if |datas[0]| <= count {
        ErasedFlat(datas[1..], count - |datas[0]|);
        DropTwice(Flatten(datas), |datas[0]|, Min(count, |Flatten(datas)|));
      }
    }
  }

  lemma NothingErased(datas: seq<seq<byte>>)
    ensures Erased(datas, 0) == datas
  {
  }

  // Erasing count bytes of all the buffers comes to erasing the remaining ones of now.
  predicate Erasing(all: seq<seq<byte>>, now: seq<seq<byte>>, count: nat, erased: nat)
    requires erased <= count
  {
    erased + |Flatten(now)| == |Flatten(all)| && Erased(now, count - erased) == Erased(all, count)
  }

  lemma ErasingStart(all: seq<seq<byte>>, count: nat)
    ensures Erasing(all, all, count, 0)
  {
  }

  lemma ErasingDone(all: seq<seq<byte>>, now: seq<seq<byte>>, count: nat, erased: nat)
    requires erased <= count && Erasing(all, now, count, erased) && (erased == count || now == [])
    ensures now == Erased(all, count) && erased == Min(count, |Flatten(all)|)
  {
  }

  lemma LastOfRest(datas: seq<seq<byte>>)
    requires |datas| > 1
    ensures datas[|datas| - 1] != [] ==> Flatten(datas[1..]) != []
  {
    FlattenCut(datas[1..], |datas| - 2);
    assert datas[1..][|datas| - 2..] == [datas[|datas| - 1]];
    FlattenOne(datas[|datas| - 1]);
  }

  // s is the rear part of t.
  predicate Rear<T(==)>(s: seq<T>, t: seq<T>) {
    |s| <= |t| && s == t[|t| - |s|..]
  }

  /** A list of buffers. The length is kept by PushFront, PushBack and EraseFront, but
      not by the list's own push. */
  class BufferList {
    var list: seq<Buffer>
    var length: nat
    ghost var arrays: set<array<byte>>   // holds the buffers' storage

    ghost predicate Valid()
      reads this, list
    {
      && length < UINT64
      && (forall i :: 0 <= i < |list| ==> list[i].Valid() && list[i].data in arrays)
      && (forall i, j :: 0 <= i < j < |list| ==> list[i] != list[j] && list[i].data != list[j].data)
    }

    ghost function Datas(): (s: seq<seq<byte>>)
      requires Valid()
      reads this, list, arrays
      ensures |s| == |list| && forall i :: 0 <= i < |list| ==> s[i] == list[i].Data()
    {
      seq(|list|, i requires 0 <= i < |list| && Valid() reads this, list, arrays => list[i].Data())
    }

    /** The bytes of all buffers, in order. */
    ghost function View(): seq<byte>
      requires Valid()
      reads this, list, arrays
    {
      Flatten(Datas())
    }

    ghost predicate Counted()
      requires Valid()
      reads this, list, arrays
    {
      length == |View()|
    }

    constructor ()
      ensures Valid() && View() == [] && Counted() && list == [] && arrays == {}
    {
      list, length, arrays := [], 0, {};
    }

    // Not one of the list's buffers, and not sharing their storage.
    ghost predicate Foreign(b: Buffer)
      reads this, list, b
    {
      b.Valid() && b !in list && b.data !in arrays
    }

    method PushBack(b: Buffer)
      requires Valid() && Foreign(b) && length + b.DataLength() < UINT64
      modifies this
      ensures Valid() && list == old(list) + [b] && View() == old(View()) + b.Data() && arrays == old(arrays) + {b.data}
      ensures length == old(length) + |b.Data()|
    {
      ghost var datas := Datas();
      length := length + b.DataLength();
      assert Datas() == datas;
      RawPushBack(b);
    }

    // A new buffer holding s, at the back.
    method Append(s: seq<byte>)
      requires Valid() && length + |s| < UINT64
      modifies this
      ensures Valid() && View() == old(View()) + s && length == old(length) + |s|
      ensures old(Counted()) ==> Counted()
      ensures |list| == |old(list)| + 1 && list[..|old(list)|] == old(list) && fresh(list[|old(list)|])
    {
      hide Flatten, Datas;
      var buffer := new Buffer(|s|);
      buffer.SetData(s);
      PushBack(buffer);
    }

    // The same without counting it.
    method AppendRaw(size: nat, s: seq<byte>)
      requires Valid()
      modifies this`list, this`arrays
      ensures Valid() && Datas() == old(Datas()) + [s] && |list| == |old(list)| + 1
      ensures list[..|old(list)|] == old(list) && fresh(list[|old(list)|])
    {
      hide Datas, Flatten;
      var buffer := new Buffer(size);
      buffer.SetData(s);
      RawPushBack(buffer);
    }

    // The push_back of std::list, which leaves the length alone.
    method RawPushBack(b: Buffer)
      requires Valid() && Foreign(b)
      modifies this`list, this`arrays
      ensures Valid() && list == old(list) + [b] && arrays == old(arrays) + {b.data}
      ensures View() == old(View()) + b.Data() && Datas() == old(Datas()) + [b.Data()]
    {
      hide Datas, Flatten;
      ghost var datas := Datas();
      list := list + [b];
      arrays := arrays + {b.data};
      assert Datas() == datas + [b.Data()];
      FlattenConcat(datas, [b.Data()]);
      FlattenOne(b.Data());
    }

    method PushFront(b: Buffer)
      requires Valid() && Foreign(b) && length + b.DataLength() < UINT64
      modifies this
      ensures Valid() && list == [b] + old(list) && View() == b.Data() + old(View()) && arrays == old(arrays) + {b.data}
      ensures length == old(length) + |b.Data()|
    {
      ghost var datas := Datas();
      length := length + b.DataLength();
      assert Datas() == datas;
      RawPushFront(b);
    }

    method RawPushFront(b: Buffer)
      requires Valid() && Foreign(b)
      modifies this`list, this`arrays
      ensures Valid() && list == [b] + old(list) && View() == b.Data() + old(View()) && arrays == old(arrays) + {b.data}
    {
      hide Datas, Flatten;
      ghost var datas := Datas();
      list := [b] + list;
      arrays := arrays + {b.data};
      assert Datas() == [b.Data()] + datas;
      FlattenConcat([b.Data()], datas);
      FlattenOne(b.Data());
    }

    /** Copies at most count bytes from position pos of the whole byte string. */
    method GetData(pos: nat, count: nat) returns (s: seq<byte>)
      requires Valid() && Counted()
      ensures s == Slice(View(), pos, pos + count)
    {
      hide Flatten;
      s := [];
      if pos >= length || count == 0 {
        assert pos < |View()| ==> Slice(View(), pos, pos) == [];
        return;
      }
      ghost var datas := Datas();
      s := Gather(pos, pos + count, datas);
      assert Datas() == datas;
    }

    // The loop of GetData.
    method Gather(pos: nat, end: nat, ghost datas: seq<seq<byte>>) returns (s: seq<byte>)
      requires Valid() && pos < end && datas == Datas()
      ensures s == Slice(Flatten(datas), pos, end)
    {
      hide Flatten, View, Datas, Slice, Piece;
      s := [];
      assert datas[..0] == [] && datas[..|list|] == datas;
      var current, previous := 0, 0;
      NothingGathered(pos, end);
      var i := 0;
      while i < |list|
        invariant i <= |list| && current == previous == |Flatten(datas[..i])| < end
        invariant s == Slice(Flatten(datas[..i]), pos, end)
      {
        assert datas[..i + 1] == datas[..i] + [datas[i]];
        FlattenSnoc(datas[..i], datas[i]);
        SliceGrows(Flatten(datas[..i]), datas[i], pos, end);
        PieceCopied(datas[i], previous, pos, end);
        current := current + list[i].DataLength();
        if current > pos {
          var offset := if pos > previous then pos - previous else 0;
          var copied := if current < end then current - previous - offset else end - previous - offset;
          s := s + list[i].Data()[offset..offset + copied];
        }
        previous := current;
        i := i + 1;
        if end <= current {
          FlattenCut(datas, i);
          SliceDone(Flatten(datas[..i]), Flatten(datas[i..]), pos, end);
          return;
        }
      }
    }

    static lemma PieceCopied(b: seq<byte>, previous: nat, pos: nat, end: nat)
      requires pos <= end && previous < end
      ensures var current := previous + |b|;
              if current <= pos then forall s: seq<byte> :: s + Piece(b, previous, pos, end) == s
              else
                var offset := if pos > previous then pos - previous else 0;
                var copied := if current < end then current - previous - offset else end - previous - offset;
                0 <= offset <= offset + copied <= |b| && Piece(b, previous, pos, end) == b[offset..offset + copied]
    {
    }

    static lemma NothingGathered(pos: nat, end: nat)
      requires pos <= end
      ensures Flatten<byte>([]) == [] && Slice([], pos, end) == []
    {
    }

    /** Erases count bytes from the front, or everything. */
    method EraseFront(count: nat) returns (erased: nat)
      requires Valid()
      modifies this, list
      ensures Valid() && erased == Min(count, |old(View())|) && View() == old(View())[erased..]
      ensures Datas() == Erased(old(Datas()), count)
      ensures length == (old(length) - erased) % UINT64
      ensures old(Counted()) ==> Counted()
      ensures Rear(list, old(list)) && arrays == old(arrays)
    {
      hide Valid, Flatten, Datas, Erased;
      erased := 0;
      if count == 0 {
        LengthFits();
        NothingErased(Datas());
        return;
      }
      ghost var datas := Datas();
      erased := EraseBytes(count);
      ErasedFlat(datas, count);
      Discount(erased);
    }

    // The loop of EraseFront.
    method EraseBytes(count: nat) returns (erased: nat)
      requires Valid()
      modifies this`list, list
      ensures Valid() && erased == Min(count, |old(View())|) && Datas() == Erased(old(Datas()), count)
      ensures Rear(list, old(list))
    {
      hide Valid, Flatten, Datas, Erased, Erasing;
      erased := 0;
      ghost var all := Datas();
      ghost var gone: nat := 0;
      ErasingStart(all, count);
      while erased < count && list != []
        invariant Valid() && erased <= count && Erasing(all, Datas(), count, erased)
        invariant gone <= |old(list)| && list == old(list)[gone..]
        decreases |list|, count - erased
      {
        assert old(list)[gone..][1..] == old(list)[gone + 1..];
        erased := EraseSome(count, erased, all);
        gone := |old(list)| - |list|;
      }
      ErasingDone(all, Datas(), count, erased);
    }

    lemma LengthFits()
      requires Valid()
      ensures length % UINT64 == length
    {
    }

    // m_data_length -= erase_length, on 64 bits.
    method Discount(erased: nat)
      requires Valid()
      modifies this`length
      ensures Valid() && View() == old(View()) && Datas() == old(Datas()) && length == (old(length) - erased) % UINT64
      ensures erased <= old(length) ==> length == old(length) - erased
    {
      hide Datas, Flatten;
      ghost var datas := Datas();
      length := (length - erased) % UINT64;
      assert Datas() == datas;
    }

    // One round of the loop of EraseFront.
    method EraseSome(count: nat, erased: nat, ghost all: seq<seq<byte>>) returns (now: nat)
      requires Valid() && erased < count && list != [] && Erasing(all, Datas(), count, erased)
      modifies this`list, list
      ensures Valid() && now <= count && Erasing(all, Datas(), count, now)
      ensures list == old(list)[1..] || (list == old(list) && now == count)
    {
      hide Valid, Flatten, Datas, Erased;
      ErasedOne(Datas(), count - erased);
      FrontLength();
      if erased + list[0].DataLength() > count {
        EraseInFront(count - erased);
        now := count;
      } else {
        now := erased + list[0].DataLength();
        PopFront();
      }
    }

    lemma FrontLength()
      requires Valid() && list != []
      ensures list[0].Valid() && list[0].DataLength() == |Datas()[0]| && |Datas()| == |list|
    {
    }

    method EraseInFront(count: nat)
      requires Valid() && list != [] && list[0].Valid() && count < |list[0].Data()|
      modifies list
      ensures Valid() && Datas() == [old(Datas())[0][count..]] + old(Datas())[1..]
    {
      hide Datas, Flatten;
      ghost var datas := Datas();
      var front := list[0];
      var _ := front.EraseFront(count);
      forall i | 1 <= i < |list|
        ensures list[i].Valid() && list[i].Data() == datas[i]
      {
        var b := list[i];
        assert b != front && b.offset == old(b.offset) && b.end == old(b.end) && b.data == old(b.data);
        assert b.Data() == old(b.Data());
      }
      assert front.Data() == datas[0][count..];
      assert Datas() == [datas[0][count..]] + datas[1..];
    }

    // The pop_front of std::list.
    method PopFront()
      requires Valid() && list != []
      modifies this`list
      ensures Valid() && list == old(list)[1..] && Datas() == old(Datas())[1..]
    {
      hide Datas, Flatten;
      ghost var datas := Datas();
      list := list[1..];
      forall i | 0 <= i < |list|
        ensures list[i].Valid() && list[i].Data() == datas[1..][i]
      {
        assert list[i] == old(list)[i + 1];
      }
      assert Datas() == datas[1..];
    }
  }

  lemma ErasedOne(datas: seq<seq<byte>>, count: nat)
    requires count > 0 && datas != []
    ensures if |datas[0]| > count then
              var now := [datas[0][count..]] + datas[1..];
              && count <= |Flatten(datas)|
              && Erased(datas, count) == Erased(now, 0) && Flatten(now) == Flatten(datas)[count..]
            else
              var k := |datas[0]|;
              && k <= |Flatten(datas)|
              && Erased(datas, count) == Erased(datas[1..], count - k) && Flatten(datas[1..]) == Flatten(datas)[k..]
  {
    hide Flatten;
    FlattenSplit(datas);
    var rest := Flatten(datas[1..]);
    if |datas[0]| > count {
      var now := [datas[0][count..]] + datas[1..];
      FlattenSplit(now);
      assert now[1..] == datas[1..];
      assert (datas[0] + rest)[count..] == datas[0][count..] + rest;
    } else {
      assert (datas[0] + rest)[|datas[0]|..] == rest;
    }
  }

}