/** The FastCGI wire format: record headers, whole records and record sequences
    (sections 3.3 and 8 of the FastCGI Specification 1.0). */
module Protocol {

  type byte = b: int | 0 <= b < 256

  const HEADER_LEN := 8
  const MAX_LENGTH := 0xffff
  const VERSION_1 := 1

  const BEGIN_REQUEST: byte := 1
  const END_REQUEST: byte := 3
  const PARAMS: byte := 4
  const STDIN: byte := 5
  const STDOUT: byte := 6
  const STDERR: byte := 7
  const DATA: byte := 8
  const GET_VALUES: byte := 9
  const GET_VALUES_RESULT: byte := 10
  const UNKNOWN_TYPE: byte := 11

  const NULL_REQUEST_ID := 0

  const REQUEST_COMPLETE: byte := 0
  const CANT_MPX_CONN: byte := 1

  const RESPONDER := 1
  const AUTHORIZER := 2
  const FILTER := 3

  /** Several sequences as one. */
  function Flatten<T>(ss: seq<seq<T>>): seq<T> {
    if ss == [] then [] else ss[0] + Flatten(ss[1..])
  }

  lemma FlattenNone<T>()
    ensures Flatten<T>([]) == []
  {
  }

  lemma FlattenOne<T>(s: seq<T>)
    ensures Flatten([s]) == s
  {
    assert [s][1..] == [];
    assert s + [] == s;
  }

  lemma FlattenSplit<T>(datas: seq<seq<T>>)
    requires datas != []
    ensures Flatten(datas) == datas[0] + Flatten(datas[1..])
  {
  }

  lemma {:induction false} FlattenConcat<T>(a: seq<seq<T>>, b: seq<seq<T>>)
    ensures Flatten(a + b) == Flatten(a) + Flatten(b)
  {
    if a == [] {
      assert a + b == b;
    } else {
      FlattenConcat(a[1..], b);
      assert (a + b)[1..] == a[1..] + b;
      ConcatAssociates(a[0], Flatten(a[1..]), Flatten(b));
    }
  }

  lemma FlattenSnoc<T>(a: seq<seq<T>>, x: seq<T>)
    ensures Flatten(a + [x]) == Flatten(a) + x
  {
    hide Flatten;
    FlattenConcat(a, [x]);
    FlattenOne(x);
  }

  lemma FlattenTwo<T>(a: seq<seq<T>>, x: seq<T>, y: seq<T>)
    ensures Flatten(a + [x, y]) == Flatten(a) + (x + y)
  {
    hide Flatten;
    assert a + [x, y] == a + [x] + [y];
    FlattenSnoc(a + [x], y);
    FlattenSnoc(a, x);
    ConcatAssociates(Flatten(a), x, y);
  }

  lemma FlattenCut<T>(datas: seq<seq<T>>, k: nat)
    requires k <= |datas|
    ensures Flatten(datas) == Flatten(datas[..k]) + Flatten(datas[k..])
  {
    hide Flatten;
    FlattenConcat(datas[..k], datas[k..]);
    assert datas[..k] + datas[k..] == datas;
  }

  function Min(a: int, b: int): int {
    if a < b then a else b
  }

  function Max(a: int, b: int): int {
    if a < b then b else a
  }

  // Smallest multiple of 8 that is at least n.
  function AlignInt8(n: nat): (r: nat)
    ensures n <= r < n + 8 && r % 8 == 0
  {
    (n + 7) / 8 * 8
  }

  /** Length of the buffer NewStream gives a stream: at least 32 bytes and at most 65536
      are asked for, and 8 are lost when malloc does not align them. */
  function BufferSize(bufflen: int, misaligned: bool): (n: nat)
    ensures 24 <= n <= MAX_LENGTH + 1 && n % 8 == 0
    ensures var lost := if misaligned then 8 else 0;
            && (bufflen <= 32 ==> n == 32 - lost) && (bufflen >= 0x10000 ==> n == 0x10000 - lost)
            && (32 <= bufflen <= 0x10000 ==> bufflen <= n + lost < bufflen + 8)
  {
    var size := AlignInt8(Min(Max(bufflen, 32), MAX_LENGTH + 1));
    AlignedBelow(size);
    if misaligned then size - 8 else size
  }

  lemma AlignedBelow(n: nat)
    requires n % 8 == 0 && n < 0x10008
    ensures n <= 0x10000
    ensures n >= 8 ==> (n - 8) % 8 == 0
  {
  }

  function Zeros(n: nat): (z: seq<byte>)
    ensures |z| == n && forall i :: 0 <= i < n ==> z[i] == 0
  {
    seq(n, _ => 0)
  }

  // The low byte of an int, as a C cast to unsigned char takes it.
  function LowByte(n: int): byte {
    n % 256
  }

  // The bytes of a text in ASCII.
  function Text(s: string): (b: seq<byte>)
    ensures |b| == |s|
  {
    seq(|s|, i requires 0 <= i < |s| => LowByte(s[i] as int))
  }

  function Word(hi: byte, lo: byte): (n: nat)
    ensures n < 0x10000
  {
    (hi as int) * 256 + lo as int
  }

  datatype Header = Header(version: byte, rtype: byte, requestId: nat, contentLength: nat, paddingLength: byte)

  function ParseHeader(h: seq<byte>): (r: Header)
    requires |h| == HEADER_LEN
    ensures r.requestId < 0x10000
  {
    Header(h[0], h[1], Word(h[2], h[3]), Word(h[4], h[5]), h[6])
  }

  function MakeHeader(rtype: int, requestId: int, contentLength: int, paddingLength: int): (h: seq<byte>)
    requires 0 <= contentLength <= MAX_LENGTH
    requires 0 <= paddingLength <= 0xff
    ensures |h| == HEADER_LEN
  {
    [VERSION_1, LowByte(rtype),
     LowByte(requestId / 256), LowByte(requestId),
     LowByte(contentLength / 256), LowByte(contentLength),
     paddingLength, 0]
  }

  lemma LowBytes(n: nat)
    requires n < 0x10000
    ensures Word(LowByte(n / 256), LowByte(n)) == n
  {
  }

  lemma HeaderRoundTrip(rtype: byte, requestId: nat, contentLength: nat, paddingLength: byte)
    requires requestId < 0x10000 && contentLength <= MAX_LENGTH
    ensures ParseHeader(MakeHeader(rtype, requestId, contentLength, paddingLength))
         == Header(VERSION_1, rtype, requestId, contentLength, paddingLength)
    ensures var h := MakeHeader(rtype, requestId, contentLength, paddingLength);
            && h[0] == 1 && h[1] == rtype && h[2] * 256 + h[3] as int == requestId
            && h[4] * 256 + h[5] as int == contentLength && h[6] == paddingLength && h[7] == 0
  {
    hide Word;
    LowBytes(requestId);
    LowBytes(contentLength);
  }

  // Body of an END_REQUEST record; the status is cut to 32 bits.
  function MakeEndRequestBody(appStatus: int, protocolStatus: byte): (b: seq<byte>)
    ensures |b| == 8
  {
    [LowByte(appStatus / 0x1000000), LowByte(appStatus / 0x10000), LowByte(appStatus / 0x100), LowByte(appStatus),
     protocolStatus, 0, 0, 0]
  }

  function MakeUnknownTypeBody(rtype: byte): (b: seq<byte>)
    ensures |b| == 8
  {
    [rtype, 0, 0, 0, 0, 0, 0, 0]
  }

  datatype AnyRecord = Record(rtype: byte, id: nat, content: seq<byte>, padding: seq<byte>) {
    predicate Fits() {
      id < 0x10000 && |content| <= MAX_LENGTH && |padding| <= 0xff
    }
  }

  type Record = r: AnyRecord | r.Fits() witness Record(0, 0, [], [])

  function Encode(r: Record): (s: seq<byte>)
    ensures |s| == HEADER_LEN + |r.content| + |r.padding|
  {
    MakeHeader(r.rtype, r.id, |r.content|, |r.padding|) + r.content + r.padding
  }

  function EncodeAll(rs: seq<Record>): seq<byte> {
    if rs == [] then [] else Encode(rs[0]) + EncodeAll(rs[1..])
  }

  lemma ConcatAssociates<T>(a: seq<T>, b: seq<T>, c: seq<T>)
    ensures (a + b) + c == a + (b + c)
  {
  }

  lemma {:induction false} EncodeAllConcat(a: seq<Record>, b: seq<Record>)
    ensures EncodeAll(a + b) == EncodeAll(a) + EncodeAll(b)
  {
    if a == [] {
      assert a + b == b;
    } else {
      EncodeAllConcat(a[1..], b);
      assert (a + b)[1..] == a[1..] + b;
      ConcatAssociates(Encode(a[0]), EncodeAll(a[1..]), EncodeAll(b));
    }
  }

  lemma EncodeAllNone()
    ensures EncodeAll([]) == []
  {
  }

  lemma EncodeAllOne(r: Record)
    ensures EncodeAll([r]) == Encode(r)
  {
    assert [r][1..] == [];
    assert Encode(r) + [] == Encode(r);
  }

  lemma EncodeAllSnoc(rs: seq<Record>, r: Record)
    ensures EncodeAll(rs + [r]) == EncodeAll(rs) + Encode(r)
  {
    EncodeAllConcat(rs, [r]);
    EncodeAllOne(r);
  }

  datatype Option<+T> = None | Some(value: T)

  /** Cuts a byte string into whole records; None when it is not a sequence of
      whole version 1 records. */
  function DecodeAll(s: seq<byte>): (r: Option<seq<Record>>)
    decreases |s|
  {
    if s == [] then Some([])
    else if |s| < HEADER_LEN || s[0] != VERSION_1 || s[7] != 0 then None
    else
      var h := ParseHeader(s[..HEADER_LEN]);
      var body := HEADER_LEN + h.contentLength;
      var end := body + h.paddingLength;
      if |s| < end then None
      else
        match DecodeAll(s[end..])
        case None => None
        case Some(rest) =>
          var r: Record := Record(h.rtype, h.requestId, s[HEADER_LEN..body], s[body..end]);
          Some([r] + rest)
  }

  lemma EncodeParts(r: Record, t: seq<byte>)
    ensures var s := Encode(r) + t;
            var body := HEADER_LEN + |r.content|;
            && s[..HEADER_LEN] == MakeHeader(r.rtype, r.id, |r.content|, |r.padding|)
            && s[HEADER_LEN..] == r.content + r.padding + t
            && ParseHeader(s[..HEADER_LEN]) == Header(VERSION_1, r.rtype, r.id, |r.content|, |r.padding|)
            && s[HEADER_LEN..body] == r.content
            && s[body..body + |r.padding|] == r.padding
            && s[body + |r.padding|..] == t
  {
    HeaderRoundTrip(r.rtype, r.id, |r.content|, |r.padding|);
    var s := Encode(r) + t;
    var h := MakeHeader(r.rtype, r.id, |r.content|, |r.padding|);
    assert s == h + (r.content + r.padding + t);
    assert s[..HEADER_LEN] == h;
  }

  /** Records can be recovered from their bytes, so an output equal to
      EncodeAll(rs) is a sequence of whole records in exactly one way. */
  lemma {:induction false} DecodeEncode(rs: seq<Record>)
    ensures DecodeAll(EncodeAll(rs)) == Some(rs)
  {
    if rs != [] {
      var r := rs[0];
      var t := EncodeAll(rs[1..]);
      EncodeParts(r, t);
      DecodeEncode(rs[1..]);
      assert rs == [r] + rs[1..];
    }
  }

  /** Contents of the records of one type and request id, in order. */
  function Contents(rs: seq<Record>, rtype: byte, id: nat): seq<byte> {
    if rs == [] then []
    else (if rs[0].rtype == rtype && rs[0].id == id then rs[0].content else []) + Contents(rs[1..], rtype, id)
  }

  lemma ContentsNone(rtype: byte, id: nat)
    ensures Contents([], rtype, id) == []
  {
  }

  lemma ContentsCons(r: Record, rs: seq<Record>, rtype: byte, id: nat)
    ensures Contents([r] + rs, rtype, id) ==
            (if r.rtype == rtype && r.id == id then r.content else []) + Contents(rs, rtype, id)
  {
    assert ([r] + rs)[1..] == rs;
  }

  lemma {:induction false} ContentsConcat(a: seq<Record>, b: seq<Record>, rtype: byte, id: nat)
    ensures Contents(a + b, rtype, id) == Contents(a, rtype, id) + Contents(b, rtype, id)
  {
    if a == [] {
      assert a + b == b;
    } else {
      ContentsConcat(a[1..], b, rtype, id);
      assert (a + b)[1..] == a[1..] + b;
      var first := if a[0].rtype == rtype && a[0].id == id then a[0].content else [];
      ConcatAssociates(first, Contents(a[1..], rtype, id), Contents(b, rtype, id));
    }
  }
}
