/** Name-value pairs (section 3.4 of the FastCGI Specification 1.0): the parser of
    ReadParams, the encoder of the CGI bridge, and the proof that they are inverse. */
module Pairs {
  import opened Protocol

  const EQUALS: byte := 61

  // Big-endian value of a four-byte length whose top bit is a flag.
  function LongLength(b3: byte, b2: byte, b1: byte, b0: byte): (n: nat)
    ensures n < 0x80000000
  {
    (b3 % 128) * 0x1000000 + b2 * 0x10000 + b1 * 0x100 + b0
  }

  /** One length field: a single byte below 128, or four bytes with the top bit set. */
  function ReadLength(d: seq<byte>): (r: Option<(nat, seq<byte>)>)
    ensures r.Some? ==> |r.value.1| < |d|
  {
    if d == [] then None
    else if d[0] < 128 then Some((d[0], d[1..]))
    else if |d| < 4 then None
    else Some((LongLength(d[0], d[1], d[2], d[3]), d[4..]))
  }

  /** One pair as a name=value string, and what follows it; None when it is incomplete. */
  function ReadPair(d: seq<byte>): (r: Option<(seq<byte>, seq<byte>)>)
    ensures r.Some? ==> |r.value.1| < |d|
  {
    match ReadLength(d)
    case None => None
    case Some((nameLen, d1)) =>
      match ReadLength(d1)
      case None => None
      case Some((valueLen, d2)) =>
        if |d2| < nameLen + valueLen then None
        else Some((d2[..nameLen] + [EQUALS] + d2[nameLen..nameLen + valueLen], d2[nameLen + valueLen..]))
  }

  /** What ReadParams makes of a stream's bytes: the name=value strings up to the
      first incomplete pair, and whether there was none. */
  datatype ParamList = ParamList(list: seq<seq<byte>>, ok: bool)

  function ReadPairs(d: seq<byte>): ParamList
    decreases |d|
  {
    if d == [] then ParamList([], true)
    else
      match ReadPair(d)
      case None => ParamList([], false)
      case Some((entry, rest)) => var p := ReadPairs(rest); ParamList([entry] + p.list, p.ok)
  }

  datatype Pair = Pair(name: seq<byte>, value: seq<byte>)

  function Entry(p: Pair): seq<byte> {
    p.name + [EQUALS] + p.value
  }

  function EncodeLength(n: nat): (s: seq<byte>)
    requires n < 0x80000000
    ensures 1 <= |s| <= 4
  {
    if n < 0x80 then [n]
    else [n / 0x1000000 + 128, LowByte(n / 0x10000), LowByte(n / 0x100), LowByte(n)]
  }

  lemma LongLengthOf(n: nat)
    requires n < 0x80000000
    ensures LongLength(n / 0x1000000 + 128, LowByte(n / 0x10000), LowByte(n / 0x100), LowByte(n)) == n
  {
    var n1, n2, n3 := n / 0x100, n / 0x10000, n / 0x1000000;
    assert n == n1 * 0x100 + n % 0x100;
    assert n2 == n1 / 0x100 && n1 == n2 * 0x100 + n1 % 0x100;
    assert n3 == n2 / 0x100 && n2 == n3 * 0x100 + n2 % 0x100;
  }

  lemma LengthRoundTrip(n: nat, t: seq<byte>)
    requires n < 0x80000000
    ensures ReadLength(EncodeLength(n) + t) == Some((n, t))
  {
    hide LongLength, LowByte;
    var d := EncodeLength(n) + t;
    if n < 0x80 {
      assert d[1..] == t;
    } else {
      assert d[4..] == t;
      LongLengthOf(n);
    }
  }

  predicate Encodable(p: Pair) {
    |p.name| < 0x80000000 && |p.value| < 0x80000000
  }

  function EncodePair(p: Pair): seq<byte>
    requires Encodable(p)
  {
    EncodeLength(|p.name|) + EncodeLength(|p.value|) + p.name + p.value
  }

  function EncodePairs(ps: seq<Pair>): seq<byte>
    requires forall p :: p in ps ==> Encodable(p)
  {
    if ps == [] then [] else EncodePair(ps[0]) + EncodePairs(ps[1..])
  }

  function Entries(ps: seq<Pair>): seq<seq<byte>> {
    if ps == [] then [] else [Entry(ps[0])] + Entries(ps[1..])
  }

  lemma ReadOnePair(p: Pair, t: seq<byte>)
    requires Encodable(p)
    ensures ReadPair(EncodePair(p) + t) == Some((Entry(p), t))
  {
    var d := EncodePair(p) + t;
    var d2 := p.name + p.value + t;
    var d1 := EncodeLength(|p.value|) + d2;
    assert d == EncodeLength(|p.name|) + d1;
    LengthRoundTrip(|p.name|, d1);
    LengthRoundTrip(|p.value|, d2);
    assert d2[..|p.name|] == p.name;
    assert d2[|p.name|..|p.name| + |p.value|] == p.value;
    assert d2[|p.name| + |p.value|..] == t;
  }

  /** Every list of pairs with lengths below 2^31 survives encoding and parsing. */
  lemma {:induction false} PairsRoundTrip(ps: seq<Pair>)
    requires forall p :: p in ps ==> Encodable(p)
    ensures ReadPairs(EncodePairs(ps)) == ParamList(Entries(ps), true)
  {
    if ps != [] {
      ReadOnePair(ps[0], EncodePairs(ps[1..]));
      PairsRoundTrip(ps[1..]);
    }
  }

  /** The first n bytes of the pairs' encoding end between two pairs. */
  predicate EndsBetween(ps: seq<Pair>, n: nat)
    requires forall p :: p in ps ==> Encodable(p)
  {
    if n == 0 then true
    else ps != [] && n >= |EncodePair(ps[0])| && EndsBetween(ps[1..], n - |EncodePair(ps[0])|)
  }

  lemma PartLength(n: nat, k: nat)
    requires n < 0x80000000 && k < |EncodeLength(n)|
    ensures ReadLength(EncodeLength(n)[..k]) == None
  {
  }

  // A pair that has arrived in part is not read.
  lemma PartPair(p: Pair, k: nat)
    requires Encodable(p) && k < |EncodePair(p)|
    ensures ReadPair(EncodePair(p)[..k]) == None
  {
    hide EncodeLength, ReadLength;
    var a, b, d := EncodeLength(|p.name|), EncodeLength(|p.value|), p.name + p.value;
    var e := EncodePair(p);
    assert e == a + (b + d);
    if k < |a| {
      assert e[..k] == a[..k];
      PartLength(|p.name|, k);
    } else {
      var t := (b + d)[..k - |a|];
      assert e[..k] == a + t;
      LengthRoundTrip(|p.name|, t);
      if |t| < |b| {
        assert t == b[..|t|];
        PartLength(|p.value|, |t|);
      } else {
        var u := d[..|t| - |b|];
        assert t == b + u;
        LengthRoundTrip(|p.value|, u);
      }
    }
  }

  /** Any front part of an encoding parses exactly when it ends between two pairs. */
  lemma {:induction false} PartParses(ps: seq<Pair>, n: nat)
    requires (forall p :: p in ps ==> Encodable(p)) && n <= |EncodePairs(ps)|
    ensures ReadPairs(EncodePairs(ps)[..n]).ok <==> EndsBetween(ps, n)
    ensures ReadPairs(EncodePairs(ps)[..n]).list <= Entries(ps)
  {
    hide EncodePair, ReadPair, Entry;
    var d := EncodePairs(ps)[..n];
    if n == 0 {
      assert d == [];
    } else {
      var e := EncodePair(ps[0]);
      NotEmpty(ps[0]);
      if n < |e| {
        assert d == e[..n];
        PartPair(ps[0], n);
      } else {
        var t := EncodePairs(ps[1..])[..n - |e|];
        assert d == e + t;
        ReadOnePair(ps[0], t);
        PartParses(ps[1..], n - |e|);
      }
    }
  }

  lemma NotEmpty(p: Pair)
    requires Encodable(p)
    ensures EncodePair(p) != []
  {
  }

  // The first string that begins with the name and an '=', from behind the '='.
  function Find(list: seq<seq<byte>>, name: seq<byte>): Option<seq<byte>> {
    if list == [] then None
    else if name + [EQUALS] <= list[0] then Some(list[0][|name| + 1..])
    else Find(list[1..], name)
  }

  // The value of the first pair of that name.
  function ValueOf(ps: seq<Pair>, name: seq<byte>): Option<seq<byte>> {
    if ps == [] then None else if ps[0].name == name then Some(ps[0].value) else ValueOf(ps[1..], name)
  }

  lemma EntryBegins(p: Pair, name: seq<byte>)
    requires EQUALS !in p.name && EQUALS !in name
    ensures name + [EQUALS] <= Entry(p) <==> p.name == name
    ensures p.name == name ==> Entry(p)[|name| + 1..] == p.value
  {
    var e := Entry(p);
    if name + [EQUALS] <= e {
      var n, m := |name|, |p.name|;
      assert e[..n] == name && e[n] == EQUALS;
      assert e[..m] == p.name && e[m] == EQUALS;
      assert n == m by {
        assert forall i :: 0 <= i < m ==> e[i] == p.name[i] && p.name[i] != EQUALS;
        assert forall i :: 0 <= i < n ==> e[i] == name[i] && name[i] != EQUALS;
      }
    }
  }

  /** Searching the environment strings is looking up the pairs, as long as names do not
      contain an '='. */
  lemma {:induction false} FindIsValueOf(ps: seq<Pair>, name: seq<byte>)
    requires EQUALS !in name && forall p :: p in ps ==> EQUALS !in p.name
    ensures Find(Entries(ps), name) == ValueOf(ps, name)
  {
    hide Entry;
    if ps != [] {
      EntryBegins(ps[0], name);
      FindIsValueOf(ps[1..], name);
    }
  }
}
