/** The laws of the encoding: what was written is read back exactly, whatever follows it; lengths
    are multiples of four; no encoding begins another of its type. */
module XdrLaws {
  import opened Text
  import opened Xdr

  lemma WordRead(n: nat, rest: seq<Byte>)
    requires n < TWO32
    ensures DecodeWord(Word(n) + rest) == Some((n, rest))
  {
    WordRoundTrip(n);
    assert (Word(n) + rest)[..4] == Word(n) && (Word(n) + rest)[4..] == rest;
  }

  lemma WordThen(n: nat, more: seq<Byte>, rest: seq<Byte>)
    requires n < TWO32
    ensures DecodeWord(Word(n) + more + rest) == Some((n, more + rest))
  {
    WordRead(n, more + rest);
    assert Word(n) + more + rest == Word(n) + (more + rest);
  }

  lemma OctetsRead(s: seq<Byte>, rest: seq<Byte>)
    ensures DecodeOctets(Padded(s) + rest, |s|) == Some((s, rest))
  {
    var b, k := Padded(s) + rest, |s| + Padding(|s|);
    assert b[..|s|] == s && b[k..] == rest;
  }

  lemma CountedRead(s: seq<Byte>, max: nat, rest: seq<Byte>)
    requires |s| <= max && |s| < TWO32
    ensures DecodeCounted(Word(|s|) + Padded(s) + rest, max) == Some((s, rest))
  {
    WordThen(|s|, Padded(s), rest);
    OctetsRead(s, rest);
  }

  lemma HyperRead(n: nat, rest: seq<Byte>)
    requires n < TWO64
    ensures Decode(UHyper, Word(n / TWO32) + Word(n % TWO32) + rest) == Some((Number(n), rest))
  {
    WordThen(n / TWO32, Word(n % TWO32), rest);
    WordRead(n % TWO32, rest);
  }

  lemma EnumRead(n: int, rest: seq<Byte>)
    requires Signed32(n)
    ensures DecodeWord(Word(Unsign(n)) + rest) == Some((Unsign(n), rest)) && Sign(Unsign(n)) == n
  {
    WordRead(Unsign(n), rest);
  }

  // ----- one step of the round trip, kind by kind -----

  lemma LeafRead(t: Type, v: Value, rest: seq<Byte>)
    requires IsLeaf(t) && Fits(t, v)
    ensures Decode(t, Encode(t, v) + rest) == Some((v, rest))
  {
    match t
    case UInt32 => WordRead(v.n, rest);
    case UHyper => HyperRead(v.n, rest);
    case Enum => EnumRead(v.n, rest);
    case Bool => WordRead(v.n, rest);
    case Opaque(_) => OctetsRead(v.s, rest);
    case Bytes(max) => CountedRead(v.s, max, rest);
    case CString(max) => CountedRead(v.s, max, rest);
    case Unit => assert [] + rest == rest;
  }

  lemma ArrayRead(e: Type, max: nat, v: Value, rest: seq<Byte>)
    requires Fits(Array(e, max), v) && DecodeAll(e, |v.vs|, EncodeAll(e, v.vs) + rest) == Some((v.vs, rest))
    ensures Decode(Array(e, max), Encode(Array(e, max), v) + rest) == Some((v, rest))
  {
    WordThen(|v.vs|, EncodeAll(e, v.vs), rest);
  }

  lemma PairRead(a: Type, b: Type, v: Value, rest: seq<Byte>)
    requires Fits(Pair(a, b), v)
    requires Decode(a, Encode(a, v.fst) + (Encode(b, v.snd) + rest)) == Some((v.fst, Encode(b, v.snd) + rest))
    requires Decode(b, Encode(b, v.snd) + rest) == Some((v.snd, rest))
    ensures Decode(Pair(a, b), Encode(Pair(a, b), v) + rest) == Some((v, rest))
  {
    Regroup(Encode(a, v.fst), Encode(b, v.snd), rest);
    DecodePair(a, b, Encode(a, v.fst) + Encode(b, v.snd) + rest, v.fst, Encode(b, v.snd) + rest, v.snd, rest);
  }

  lemma DecodePair(a: Type, b: Type, s: seq<Byte>, x: Value, s2: seq<Byte>, y: Value, rest: seq<Byte>)
    requires Decode(a, s) == Some((x, s2)) && Decode(b, s2) == Some((y, rest))
    ensures Decode(Pair(a, b), s) == Some((Both(x, y), rest))
  {
  }

  lemma UnionRead(boolean: bool, arms: Arms, v: Value, rest: seq<Byte>)
    requires Fits(Union(boolean, arms), v)
    requires var arm := Arm(arms, v.t).value; Decode(arm, Encode(arm, v.body) + rest) == Some((v.body, rest))
    ensures Decode(Union(boolean, arms), Encode(Union(boolean, arms), v) + rest) == Some((v, rest))
  {
    var body := Encode(Arm(arms, v.t).value, v.body);
    EnumRead(v.t, body + rest);
    Regroup(Word(Unsign(v.t)), body, rest);
    DecodeUnion(boolean, arms, Word(Unsign(v.t)) + body + rest, v.t, body + rest, v.body, rest);
  }

  lemma DecodeUnion(boolean: bool, arms: Arms, s: seq<Byte>, n: int, s1: seq<Byte>, body: Value, rest: seq<Byte>)
    requires Signed32(n) && (boolean ==> n == 0 || n == 1) && Arm(arms, n).Some?
    requires DecodeWord(s) == Some((Unsign(n), s1)) && Decode(Arm(arms, n).value, s1) == Some((body, rest))
    ensures Decode(Union(boolean, arms), s) == Some((Tagged(n, body), rest))
  {
  }

  lemma DecodeAllStep(t: Type, b: seq<Byte>, x: Value, b2: seq<Byte>, vs: seq<Value>, rest: seq<Byte>)
    requires Decode(t, b) == Some((x, b2)) && DecodeAll(t, |vs|, b2) == Some((vs, rest))
    ensures DecodeAll(t, |[x] + vs|, b) == Some(([x] + vs, rest))
  {
  }

  lemma DecodeChainStep(t: Type, b: seq<Byte>, b1: seq<Byte>, x: Value, b2: seq<Byte>, vs: seq<Value>, rest: seq<Byte>)
    requires DecodeWord(b) == Some((1, b1))
    requires Decode(t, b1) == Some((x, b2)) && DecodeChain(t, b2) == Some((vs, rest))
    ensures DecodeChain(t, b) == Some(([x] + vs, rest))
  {
  }

  /** Reading undoes writing. */
  lemma {:induction false} RoundTrip(t: Type, v: Value, rest: seq<Byte>)
    requires Fits(t, v)
    ensures Decode(t, Encode(t, v) + rest) == Some((v, rest))
    decreases t, 0, 0
  {
    match t
    case Array(e, max) =>
      RoundTripAll(e, v.vs, rest);
      ArrayRead(e, max, v, rest);
    case Pair(a, b) =>
      RoundTrip(a, v.fst, Encode(b, v.snd) + rest);
      RoundTrip(b, v.snd, rest);
      PairRead(a, b, v, rest);
    case Union(boolean, arms) =>
      RoundTrip(Arm(arms, v.t).value, v.body, rest);
      UnionRead(boolean, arms, v, rest);
    case Chain(node) => RoundTripChain(node, v.vs, rest);
    case _ => LeafRead(t, v, rest);
  }

  lemma {:induction false} RoundTripAll(t: Type, vs: seq<Value>, rest: seq<Byte>)
    requires AllFit(t, vs)
    ensures DecodeAll(t, |vs|, EncodeAll(t, vs) + rest) == Some((vs, rest))
    decreases t, 1, |vs|
  {
    if vs == [] {
      assert [] + rest == rest;
    } else {
      RoundTrip(t, vs[0], EncodeAll(t, vs[1..]) + rest);
      RoundTripAll(t, vs[1..], rest);
      Regroup(Encode(t, vs[0]), EncodeAll(t, vs[1..]), rest);
      DecodeAllStep(t, EncodeAll(t, vs) + rest, vs[0], EncodeAll(t, vs[1..]) + rest, vs[1..], rest);
      assert [vs[0]] + vs[1..] == vs;
    }
  }

  lemma {:induction false} RoundTripChain(t: Type, vs: seq<Value>, rest: seq<Byte>)
    requires AllFit(t, vs)
    ensures DecodeChain(t, EncodeChain(t, vs) + rest) == Some((vs, rest))
    decreases t, 1, |vs|
  {
    if vs == [] {
      WordRead(0, rest);
    } else {
      RoundTrip(t, vs[0], EncodeChain(t, vs[1..]) + rest);
      RoundTripChain(t, vs[1..], rest);
      WordThen(1, EncodeNode(t, vs), rest);
      Regroup(Encode(t, vs[0]), EncodeChain(t, vs[1..]), rest);
      DecodeChainStep(t, EncodeChain(t, vs) + rest, EncodeNode(t, vs) + rest, vs[0], EncodeChain(t, vs[1..]) + rest,
            vs[1..], rest);
      assert [vs[0]] + vs[1..] == vs;
    }
  }

  /** An encoding decides its value and where it ends: none is a proper prefix of another. */
  lemma PrefixFree(t: Type, v: Value, w: Value, a: seq<Byte>, b: seq<Byte>)
    requires Fits(t, v) && Fits(t, w) && Encode(t, v) + a == Encode(t, w) + b
    ensures v == w && a == b
  {
    RoundTrip(t, v, a);
    RoundTrip(t, w, b);
  }

  /** Everything is a multiple of four bytes long. */
  lemma {:induction false} FourBytes(t: Type, v: Value)
    requires Fits(t, v)
    ensures |Encode(t, v)| % 4 == 0
    decreases t, 0, 0
  {
    match t
    case Array(e, _) => FourBytesAll(e, v.vs);
    case Pair(a, b) =>
      FourBytes(a, v.fst);
      FourBytes(b, v.snd);
      Sum4(|Encode(a, v.fst)|, |Encode(b, v.snd)|);
    case Union(_, arms) => FourBytes(Arm(arms, v.t).value, v.body);
    case Chain(node) => FourBytesChain(node, v.vs);
    case _ => FourBytesLeaf(t, v);
  }

  lemma FourBytesLeaf(t: Type, v: Value)
    requires IsLeaf(t) && Fits(t, v)
    ensures |Encode(t, v)| % 4 == 0
  {
  }

  lemma Sum4(a: int, b: int)
    requires a % 4 == 0 && b % 4 == 0
    ensures (a + b) % 4 == 0
  {
  }

  lemma {:induction false} FourBytesAll(t: Type, vs: seq<Value>)
    requires AllFit(t, vs)
    ensures |EncodeAll(t, vs)| % 4 == 0
    decreases t, 1, |vs|
  {
    if vs != [] {
      FourBytes(t, vs[0]);
      FourBytesAll(t, vs[1..]);
      Sum4(|Encode(t, vs[0])|, |EncodeAll(t, vs[1..])|);
    }
  }

  lemma {:induction false} FourBytesChain(t: Type, vs: seq<Value>)
    requires AllFit(t, vs)
    ensures |EncodeChain(t, vs)| % 4 == 0
    decreases t, 1, |vs|
  {
    if vs != [] {
      FourBytes(t, vs[0]);
      FourBytesChain(t, vs[1..]);
      Sum4(|Encode(t, vs[0])|, |EncodeChain(t, vs[1..])|);
      assert EncodeChain(t, vs) == Word(1) + EncodeNode(t, vs);
      Sum4(4, |EncodeNode(t, vs)|);
    }
  }

  /** Whatever bytes are read, the value is canonical: it could have been written. */
  lemma {:induction false} DecodedFits(t: Type, b: seq<Byte>)
    requires Decode(t, b).Some?
    ensures Fits(t, Decode(t, b).value.0)
    decreases t, 0, 0
  {
    match t
    case Array(e, max) =>
      var count := DecodeWord(b).value;
      DecodedAllFits(e, count.0, count.1);
    case Pair(a, c) =>
      DecodedFits(a, b);
      DecodedFits(c, Decode(a, b).value.1);
    case Union(boolean, arms) =>
      var w := DecodeWord(b).value;
      var n := if boolean then (if w.0 == 0 then 0 else 1) else Sign(w.0);
      DecodedFits(Arm(arms, n).value, w.1);
    case Chain(node) => DecodedChainFits(node, b);
    case _ =>
  }

  lemma {:induction false} DecodedAllFits(t: Type, count: nat, b: seq<Byte>)
    requires DecodeAll(t, count, b).Some?
    ensures var vs := DecodeAll(t, count, b).value.0;
            |vs| == count && AllFit(t, vs)
    decreases t, 1, count
  {
    if count > 0 {
      DecodedFits(t, b);
      DecodedAllFits(t, count - 1, Decode(t, b).value.1);
    }
  }

  lemma {:induction false} DecodedChainFits(t: Type, b: seq<Byte>)
    requires DecodeChain(t, b).Some?
    ensures AllFit(t, DecodeChain(t, b).value.0)
    decreases t, 1, |b|
  {
    var more := DecodeWord(b).value;
    if more.0 != 0 {
      DecodedFits(t, more.1);
      DecodedChainFits(t, Decode(t, more.1).value.1);
    }
  }
}
