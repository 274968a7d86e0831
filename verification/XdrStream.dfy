/** The stream all `xdr_*` functions share: one set of functions that writes or reads, moving a
    position in a buffer (the XDR memory stream under nfs/rpc_nfs3_prot_xdr.c). */
module XdrStream {
  import opened Text
  import opened Xdr

  datatype Op = Encoding | Decoding

  function Fst(v: Value): Value { if v.Both? then v.fst else Nil }
  function Snd(v: Value): Value { if v.Both? then v.snd else Nil }
  function Body(v: Value): Value { if v.Tagged? then v.body else Nil }
  function Members(v: Value): seq<Value> { if v.Items? then v.vs else [] }
  function Chars(v: Value): seq<Byte> { if v.Octets? then v.s else [] }
  function Head(vs: seq<Value>): Value { if vs == [] then Nil else vs[0] }
  function Tail(vs: seq<Value>): seq<Value> { if vs == [] then [] else vs[1..] }
  function Int(v: Value): int { if v.Number? then v.n else if v.Tagged? then v.t else 0 }

  // ----- what a step does to the bytes -----

  /** Nothing in front of `start` was touched. */
  ghost predicate Kept(before: seq<Byte>, start: nat, after: seq<Byte>) {
    start <= |before| == |after| && after[..start] == before[..start]
  }

  /** `e` was written from `start` to `end` of `after`, or there was no room for it. */
  ghost predicate Wrote(ok: bool, start: nat, end: nat, after: seq<Byte>, e: seq<Byte>) {
    && (ok <==> start + |e| <= |after|)
    && (ok ==> end == start + |e| && after[start..end] == e)
  }

  /** What was read is what decoding says, and so is what was not. */
  ghost predicate ReadOff<T(!new)>(r: Option<(T, seq<Byte>)>, ok: bool, w: T, rest: seq<Byte>) {
    ok == r.Some? && (ok ==> r == Some((w, rest)))
  }

  /** A step behind a step leaves what the first one left. */
  lemma KeptBoth(d0: seq<Byte>, p0: nat, d1: seq<Byte>, p1: nat, d2: seq<Byte>)
    requires Kept(d0, p0, d1) && p0 <= p1 && Kept(d1, p1, d2)
    ensures Kept(d0, p0, d2)
  {
    assert d2[..p0] == d2[..p1][..p0] == d1[..p1][..p0] == d1[..p0];
  }

  /** Two pieces written one behind the other. */
  lemma WroteBoth(ok: bool, p0: nat, d1: seq<Byte>, p1: nat, d2: seq<Byte>, p2: nat, a: seq<Byte>, b: seq<Byte>)
    requires Wrote(true, p0, p1, d1, a) && Kept(d1, p1, d2) && Wrote(ok, p1, p2, d2, b)
    ensures Wrote(ok, p0, p2, d2, a + b)
  {
    if ok {
      assert d2[p0..p1] == d2[..p1][p0..] == d1[..p1][p0..] == d1[p0..p1];
      assert d2[p0..p2] == d2[p0..p1] + d2[p1..p2];
    }
  }

  /** With no room for the first there is none for both. */
  lemma WroteNone(p0: nat, end: nat, d: seq<Byte>, a: seq<Byte>, b: seq<Byte>)
    requires Wrote(false, p0, end, d, a)
    ensures Wrote(false, p0, end, d, a + b)
  {
  }

  // ----- the pieces of a reading -----

  lemma ReadOctets(d: seq<Byte>, p: nat, n: nat)
    requires p <= |d|
    ensures DecodeOctets(d[p..], n) ==
            if p + (n + Padding(n)) > |d| then None else Some((d[p..p + n], d[p + (n + Padding(n))..]))
  {
    if p + (n + Padding(n)) <= |d| {
      assert d[p..][..n] == d[p..p + n] && d[p..][n + Padding(n)..] == d[p + (n + Padding(n))..];
    }
  }

  lemma ReadWord(d: seq<Byte>, p: nat)
    requires p <= |d|
    ensures DecodeWord(d[p..]) == if p + 4 > |d| then None else Some((WordValue(d[p..p + 4]), d[p + 4..]))
  {
    if p + 4 <= |d| {
      assert d[p..][..4] == d[p..p + 4] && d[p..][4..] == d[p + 4..];
    }
  }

  lemma ReadPair(a: Type, b: Type, s: seq<Byte>, x: Value, s2: seq<Byte>, ok: bool, y: Value, rest: seq<Byte>)
    requires ReadOff(Decode(a, s), true, x, s2) && ReadOff(Decode(b, s2), ok, y, rest)
    ensures ReadOff(Decode(Pair(a, b), s), ok, Both(x, y), rest)
  {
  }

  lemma ReadUnion(boolean: bool, arms: Arms, s: seq<Byte>, m: nat, n: int, s2: seq<Byte>)
    requires ReadOff(DecodeWord(s), true, m, s2) && n == if boolean then (if m == 0 then 0 else 1) else Sign(m)
    ensures Arm(arms, n).None? ==> Decode(Union(boolean, arms), s) == None
    ensures Arm(arms, n).Some? ==>
              Decode(Union(boolean, arms), s) ==
              match Decode(Arm(arms, n).value, s2)
              case None => None
              case Some(body) => Some((Tagged(n, body.0), body.1))
  {
  }

  lemma ReadArray(e: Type, max: nat, s: seq<Byte>, count: nat, s2: seq<Byte>)
    requires ReadOff(DecodeWord(s), true, count, s2)
    ensures Decode(Array(e, max), s) ==
            if count > max then None
            else match DecodeAll(e, count, s2) case None => None case Some(vs) => Some((Items(vs.0), vs.1))
  {
  }

  lemma ReadAll(t: Type, count: nat, s: seq<Byte>, x: Value, s2: seq<Byte>, ok: bool, vs: seq<Value>, rest: seq<Byte>)
    requires count > 0 && ReadOff(Decode(t, s), true, x, s2) && ReadOff(DecodeAll(t, count - 1, s2), ok, vs, rest)
    ensures ReadOff(DecodeAll(t, count, s), ok, [x] + vs, rest)
  {
  }

  lemma ReadChain(t: Type, s: seq<Byte>, more: nat, s2: seq<Byte>)
    requires ReadOff(DecodeWord(s), true, more, s2)
    ensures DecodeChain(t, s) == if more == 0 then Some(([], s2)) else DecodeNode(t, s2)
  {
  }

  lemma ReadNode(t: Type, s: seq<Byte>, x: Value, s2: seq<Byte>, ok: bool, vs: seq<Value>, rest: seq<Byte>)
    requires ReadOff(Decode(t, s), true, x, s2) && ReadOff(DecodeChain(t, s2), ok, vs, rest)
    ensures ReadOff(DecodeNode(t, s), ok, [x] + vs, rest)
  {
  }

  lemma ReadCounted(s: seq<Byte>, max: nat, count: nat, s2: seq<Byte>)
    requires ReadOff(DecodeWord(s), true, count, s2)
    ensures DecodeCounted(s, max) == if count > max then None else DecodeOctets(s2, count)
  {
  }

  lemma ReadHyper(s: seq<Byte>, high: nat, s2: seq<Byte>, ok: bool, low: nat, rest: seq<Byte>)
    requires ReadOff(DecodeWord(s), true, high, s2) && ReadOff(DecodeWord(s2), ok, low, rest)
    ensures ReadOff(Decode(UHyper, s), ok, Number(high * TWO32 + low), rest)
  {
  }

  // ----- the pieces of a writing -----

  lemma FitsTail(t: Type, vs: seq<Value>)
    requires vs != [] && AllFit(t, vs)
    ensures Fits(t, vs[0]) && AllFit(t, vs[1..]) && [vs[0]] + vs[1..] == vs
    ensures EncodeAll(t, vs) == Encode(t, vs[0]) + EncodeAll(t, vs[1..])
    ensures EncodeNode(t, vs) == Encode(t, vs[0]) + EncodeChain(t, vs[1..])
  {
  }

  class Stream {
    const op: Op
    const data: array<Byte>
    var pos: nat

    constructor (op: Op, data: array<Byte>)
      ensures this.op == op && this.data == data && pos == 0
    {
      this.op, this.data, pos := op, data, 0;
    }

    predicate Valid()
      reads this
    {
      pos <= data.Length
    }

    method PutWord(n: int) returns (ok: bool)
      requires Valid()
      modifies this`pos, data
      ensures Valid() && pos >= old(pos) && Kept(old(data[..]), old(pos), data[..])
      ensures Wrote(ok, old(pos), pos, data[..], Word(n)) && (!ok ==> pos == old(pos))
    {
      if data.Length - pos < 4 {
        return false;
      }
      var w := Word(n);
      data[pos], data[pos + 1], data[pos + 2], data[pos + 3] := w[0], w[1], w[2], w[3];
      pos := pos + 4;
      return true;
    }

    method GetWord() returns (ok: bool, n: nat)
      requires Valid()
      modifies this`pos
      ensures Valid() && pos >= old(pos) && ReadOff(DecodeWord(data[..][old(pos)..]), ok, n, data[..][pos..])
    {
      ReadWord(data[..], pos);
      if data.Length - pos < 4 {
        return false, 0;
      }
      n := WordValue(data[..][pos..pos + 4]);
      pos := pos + 4;
      return true, n;
    }

    /** A 32-bit word, written or read. */
    method CodeWord(n: int) returns (ok: bool, m: int)
      requires Valid()
      modifies this`pos, data
      ensures Valid() && pos >= old(pos) && Kept(old(data[..]), old(pos), data[..]) && (ok ==> pos == old(pos) + 4)
      ensures op == Encoding ==> Wrote(ok, old(pos), pos, data[..], Word(n)) && m == n
      ensures op == Decoding ==>
                && data[..] == old(data[..]) && m >= 0
                && ReadOff(DecodeWord(old(data[..])[old(pos)..]), ok, m, data[..][pos..])
    {
      if op == Encoding {
        ok := PutWord(n);
        m := n;
      } else {
        ReadWord(data[..], pos);
        ok, m := GetWord();
      }
    }

    /** `n` bytes and their padding, written or read (`xdr_opaque`). */
    method CodeOctets(s: seq<Byte>, n: nat) returns (ok: bool, r: seq<Byte>)
      requires Valid() && (op == Encoding ==> |s| == n)
      modifies this`pos, data
      ensures Valid() && pos >= old(pos) && Kept(old(data[..]), old(pos), data[..])
      ensures op == Encoding ==> Wrote(ok, old(pos), pos, data[..], Padded(s)) && (ok ==> r == s)
      ensures op == Decoding ==>
                && data[..] == old(data[..])
                && ReadOff(DecodeOctets(old(data[..])[old(pos)..], n), ok, r, data[..][pos..])
    {
      var k := n + Padding(n);
      ReadOctets(data[..], pos, n);
      if data.Length - pos < k {
        return false, [];
      }
      if op == Encoding {
        var p := Padded(s);
        forall i | 0 <= i < k {
          data[pos + i] := p[i];
        }
        r := s;
      } else {
        r := data[..][pos..pos + n];
      }
      pos := pos + k;
      return true, r;
    }

    /** Counted bytes (`xdr_bytes`, `xdr_string`). */
    method CodeCounted(s: seq<Byte>, max: nat) returns (ok: bool, r: seq<Byte>)
      requires Valid() && (op == Encoding ==> |s| <= max && |s| < TWO32)
      modifies this`pos, data
      ensures Valid() && pos >= old(pos) && Kept(old(data[..]), old(pos), data[..])
      ensures op == Encoding ==> Wrote(ok, old(pos), pos, data[..], Word(|s|) + Padded(s)) && (ok ==> r == s)
      ensures op == Decoding ==>
                && data[..] == old(data[..])
                && ReadOff(DecodeCounted(old(data[..])[old(pos)..], max), ok, r, data[..][pos..])
    {
      ghost var d0, p0 := data[..], pos;
      var count;
      ok, count := CodeWord(|s|);
      ghost var d1, p1 := data[..], pos;
      r := [];
      if !ok {
        if op == Encoding {
          WroteNone(p0, pos, d1, Word(|s|), Padded(s));
        }
        return;
      }
      if op == Decoding {
        ReadCounted(d0[p0..], max, count, d1[p1..]);
      }
      if count > max {
        return false, [];
      }
      ok, r := CodeOctets(s, count);
      KeptBoth(d0, p0, d1, p1, data[..]);
      if op == Encoding {
        WroteBoth(ok, p0, d1, p1, data[..], pos, Word(|s|), Padded(s));
      }
    }

    // ----- the functions proper: one for every kind of type -----

    method CodeLeaf(t: Type, v: Value) returns (ok: bool, w: Value)
      requires Valid() && IsLeaf(t) && (op == Encoding ==> Fits(t, v))
      modifies this`pos, data
      ensures Valid() && pos >= old(pos) && Kept(old(data[..]), old(pos), data[..])
      ensures op == Encoding ==> Wrote(ok, old(pos), pos, data[..], EncodeLeaf(t, v)) && (ok ==> w == v)
      ensures op == Decoding ==>
                && data[..] == old(data[..])
                && ReadOff(DecodeLeaf(t, old(data[..])[old(pos)..]), ok, w, data[..][pos..])
    {
      var n;
      var s;
      match t
      case UInt32 =>
        ok, n := CodeWord(Int(v));
        w := Number(n);
      case UHyper =>
        ok, w := CodeHyper(v);
      case Enum =>
        ok, n := CodeWord(Unsign(Int(v)));
        w := Number(Sign(n));
      case Bool =>
        ok, n := CodeWord(if Int(v) == 0 then 0 else 1);
        w := Number(if n == 0 then 0 else 1);
      case Opaque(k) =>
        ok, s := CodeOctets(Chars(v), k);
        w := Octets(s);
      case Bytes(max) =>
        ok, s := CodeCounted(Chars(v), max);
        w := Octets(s);
      case CString(max) =>
        ok, s := CodeCounted(Chars(v), max);
        w := Octets(UpToNul(s));
      case Unit =>
        ok, w := true, Nil;
    }

    method CodeHyper(v: Value) returns (ok: bool, w: Value)
      requires Valid() && (op == Encoding ==> Fits(UHyper, v))
      modifies this`pos, data
      ensures Valid() && pos >= old(pos) && Kept(old(data[..]), old(pos), data[..])
      ensures op == Encoding ==> Wrote(ok, old(pos), pos, data[..], EncodeLeaf(UHyper, v)) && (ok ==> w == v)
      ensures op == Decoding ==>
                && data[..] == old(data[..])
                && ReadOff(DecodeLeaf(UHyper, old(data[..])[old(pos)..]), ok, w, data[..][pos..])
    {
      ghost var d0, p0, a, b := data[..], pos, Word(Int(v) / TWO32), Word(Int(v) % TWO32);
      var high, low;
      w := Nil;
      ok, high := CodeWord(Int(v) / TWO32);
      ghost var d1, p1 := data[..], pos;
      if !ok {
        if op == Encoding {
          WroteNone(p0, pos, d1, a, b);
        }
        return;
      }
      ok, low := CodeWord(Int(v) % TWO32);
      w := Number(high * TWO32 + low);
      KeptBoth(d0, p0, d1, p1, data[..]);
      if op == Encoding {
        WroteBoth(ok, p0, d1, p1, data[..], pos, a, b);
      } else {
        ReadHyper(d0[p0..], high, d1[p1..], ok, low, data[..][pos..]);
      }
    }

    method CodePair(a: Type, b: Type, v: Value) returns (ok: bool, w: Value)
      requires Valid() && (op == Encoding ==> Fits(Pair(a, b), v))
      modifies this`pos, data
      ensures Valid() && pos >= old(pos) && Kept(old(data[..]), old(pos), data[..])
      ensures op == Encoding ==> Wrote(ok, old(pos), pos, data[..], Encode(Pair(a, b), v)) && (ok ==> w == v)
      ensures op == Decoding ==>
                && data[..] == old(data[..])
                && ReadOff(Decode(Pair(a, b), old(data[..])[old(pos)..]), ok, w, data[..][pos..])
      decreases Pair(a, b), 0, 0
    {
      ghost var d0, p0 := data[..], pos;
      var x, y;
      w := Nil;
      ok, x := Code(a, Fst(v));
      ghost var d1, p1 := data[..], pos;
      if !ok {
        if op == Encoding {
          WroteNone(p0, pos, d1, Encode(a, v.fst), Encode(b, v.snd));
        }
        return;
      }
      ok, y := Code(b, Snd(v));
      w := Both(x, y);
      KeptBoth(d0, p0, d1, p1, data[..]);
      if op == Encoding {
        WroteBoth(ok, p0, d1, p1, data[..], pos, Encode(a, v.fst), Encode(b, v.snd));
      } else {
        ReadPair(a, b, d0[p0..], x, d1[p1..], ok, y, data[..][pos..]);
      }
    }

    /** A discriminated union: the tag, then the arm it selects; an unknown tag fails. */
    method CodeUnion(boolean: bool, arms: Arms, v: Value) returns (ok: bool, w: Value)
      requires Valid() && (op == Encoding ==> Fits(Union(boolean, arms), v))
      modifies this`pos, data
      ensures Valid() && pos >= old(pos) && Kept(old(data[..]), old(pos), data[..])
      ensures op == Encoding ==> Wrote(ok, old(pos), pos, data[..], Encode(Union(boolean, arms), v)) && (ok ==> w == v)
      ensures op == Decoding ==>
                && data[..] == old(data[..])
                && ReadOff(Decode(Union(boolean, arms), old(data[..])[old(pos)..]), ok, w, data[..][pos..])
      decreases Union(boolean, arms), 0, 0
    {
      ghost var d0, p0 := data[..], pos;
      var m, body;
      w := Nil;
      ok, m := CodeWord(Unsign(Int(v)));
      ghost var d1, p1 := data[..], pos;
      if !ok {
        if op == Encoding {
          WroteNone(p0, pos, d1, Word(Unsign(v.t)), Encode(Arm(arms, v.t).value, v.body));
        }
        return;
      }
      var n := if boolean then (if m == 0 then 0 else 1) else Sign(m);
      if op == Decoding {
        ReadUnion(boolean, arms, d0[p0..], m, n, d1[p1..]);
      }
      var arm := Arm(arms, n);
      if arm.None? {
        return false, Nil;
      }
      ok, body := Code(arm.value, Body(v));
      w := Tagged(n, body);
      KeptBoth(d0, p0, d1, p1, data[..]);
      if op == Encoding {
        WroteBoth(ok, p0, d1, p1, data[..], pos, Word(Unsign(v.t)), Encode(arm.value, v.body));
      }
    }

    method Code(t: Type, v: Value) returns (ok: bool, w: Value)
      requires Valid() && (op == Encoding ==> Fits(t, v))
      modifies this`pos, data
      ensures Valid() && pos >= old(pos) && Kept(old(data[..]), old(pos), data[..])
      ensures op == Encoding ==> Wrote(ok, old(pos), pos, data[..], Encode(t, v)) && (ok ==> w == v)
      ensures op == Decoding ==>
                && data[..] == old(data[..])
                && ReadOff(Decode(t, old(data[..])[old(pos)..]), ok, w, data[..][pos..])
      decreases t, 0, 1
    {
      match t
      case Pair(a, b) => ok, w := CodePair(a, b, v);
      case Union(boolean, arms) => ok, w := CodeUnion(boolean, arms, v);
      case Array(e, max) => ok, w := CodeArray(e, max, v);
      case Chain(node) => ok, w := CodeLink(node, v);
      case _ => ok, w := CodeLeaf(t, v);
    }

    /** A pointer to the first node of a list. */
    method CodeLink(node: Type, v: Value) returns (ok: bool, w: Value)
      requires Valid() && (op == Encoding ==> Fits(Chain(node), v))
      modifies this`pos, data
      ensures Valid() && pos >= old(pos) && Kept(old(data[..]), old(pos), data[..])
      ensures op == Encoding ==> Wrote(ok, old(pos), pos, data[..], Encode(Chain(node), v)) && (ok ==> w == v)
      ensures op == Decoding ==>
                && data[..] == old(data[..])
                && ReadOff(Decode(Chain(node), old(data[..])[old(pos)..]), ok, w, data[..][pos..])
      decreases Chain(node), 0, 0
    {
      var vs;
      ok, vs := CodeChain(node, Members(v));
      w := Items(vs);
    }

    method CodeArray(e: Type, max: nat, v: Value) returns (ok: bool, w: Value)
      requires Valid() && (op == Encoding ==> Fits(Array(e, max), v))
      modifies this`pos, data
      ensures Valid() && pos >= old(pos) && Kept(old(data[..]), old(pos), data[..])
      ensures op == Encoding ==> Wrote(ok, old(pos), pos, data[..], Encode(Array(e, max), v)) && (ok ==> w == v)
      ensures op == Decoding ==>
                && data[..] == old(data[..])
                && ReadOff(Decode(Array(e, max), old(data[..])[old(pos)..]), ok, w, data[..][pos..])
      decreases Array(e, max), 0, 0
    {
      ghost var d0, p0 := data[..], pos;
      var count, vs;
      w := Nil;
      ok, count := CodeWord(|Members(v)|);
      ghost var d1, p1 := data[..], pos;
      if !ok {
        if op == Encoding {
          WroteNone(p0, pos, d1, Word(|v.vs|), EncodeAll(e, v.vs));
        }
        return;
      }
      if op == Decoding {
        ReadArray(e, max, d0[p0..], count, d1[p1..]);
      }
      if count > max {
        return false, Nil;
      }
      ok, vs := CodeAll(e, count, Members(v));
      w := Items(vs);
      KeptBoth(d0, p0, d1, p1, data[..]);
      if op == Encoding {
        WroteBoth(ok, p0, d1, p1, data[..], pos, Word(|v.vs|), EncodeAll(e, v.vs));
      }
    }

    method CodeAll(t: Type, count: nat, vs: seq<Value>) returns (ok: bool, ws: seq<Value>)
      requires Valid() && (op == Encoding ==> |vs| == count && AllFit(t, vs))
      modifies this`pos, data
      ensures Valid() && pos >= old(pos) && Kept(old(data[..]), old(pos), data[..])
      ensures op == Encoding ==> Wrote(ok, old(pos), pos, data[..], EncodeAll(t, vs)) && (ok ==> ws == vs)
      ensures op == Decoding ==>
                && data[..] == old(data[..])
                && ReadOff(DecodeAll(t, count, old(data[..])[old(pos)..]), ok, ws, data[..][pos..])
      decreases t, 1, count, 0
    {
      ws := [];
      if count == 0 {
        return true, [];
      }
      ghost var d0, p0 := data[..], pos;
      if op == Encoding {
        FitsTail(t, vs);
      }
      var x, more;
      ok, x := Code(t, Head(vs));
      ghost var d1, p1 := data[..], pos;
      if !ok {
        if op == Encoding {
          WroteNone(p0, pos, d1, Encode(t, vs[0]), EncodeAll(t, vs[1..]));
        }
        return;
      }
      ok, more := CodeAll(t, count - 1, Tail(vs));
      ws := [x] + more;
      KeptBoth(d0, p0, d1, p1, data[..]);
      if op == Encoding {
        WroteBoth(ok, p0, d1, p1, data[..], pos, Encode(t, vs[0]), EncodeAll(t, vs[1..]));
      } else {
        ReadAll(t, count, d0[p0..], x, d1[p1..], ok, more, data[..][pos..]);
      }
    }

    /** A chain of nodes (`xdr_pointer`): a flag, and the node if there is one. */
    method CodeChain(t: Type, vs: seq<Value>) returns (ok: bool, ws: seq<Value>)
      requires Valid() && (op == Encoding ==> AllFit(t, vs))
      modifies this`pos, data
      ensures Valid() && pos >= old(pos) && Kept(old(data[..]), old(pos), data[..]) && (ok ==> pos > old(pos))
      ensures op == Encoding ==> Wrote(ok, old(pos), pos, data[..], EncodeChain(t, vs)) && (ok ==> ws == vs)
      ensures op == Decoding ==>
                && data[..] == old(data[..])
                && ReadOff(DecodeChain(t, old(data[..])[old(pos)..]), ok, ws, data[..][pos..])
      decreases t, 1, data.Length - pos, 1
    {
      ghost var d0, p0 := data[..], pos;
      ws := [];
      var more;
      ok, more := CodeWord(if vs == [] then 0 else 1);
      ghost var d1, p1 := data[..], pos;
      if !ok {
        if op == Encoding && vs != [] {
          WroteNone(p0, pos, d1, Word(1), EncodeNode(t, vs));
        }
        return;
      }
      if op == Decoding {
        ReadChain(t, d0[p0..], more, d1[p1..]);
      }
      if more == 0 {
        return;
      }
      ok, ws := CodeNode(t, vs);
      KeptBoth(d0, p0, d1, p1, data[..]);
      if op == Encoding {
        WroteBoth(ok, p0, d1, p1, data[..], pos, Word(1), EncodeNode(t, vs));
      }
    }

    /** A node and the chain its link begins, as `xdr_entry3`, `xdr_exportnode3` and their like. */
    method CodeNode(t: Type, vs: seq<Value>) returns (ok: bool, ws: seq<Value>)
      requires Valid() && (op == Encoding ==> vs != [] && AllFit(t, vs))
      modifies this`pos, data
      ensures Valid() && pos >= old(pos) && Kept(old(data[..]), old(pos), data[..])
      ensures op == Encoding ==> Wrote(ok, old(pos), pos, data[..], EncodeNode(t, vs)) && (ok ==> ws == vs)
      ensures op == Decoding ==>
                && data[..] == old(data[..])
                && ReadOff(DecodeNode(t, old(data[..])[old(pos)..]), ok, ws, data[..][pos..])
      decreases t, 1, data.Length - pos, 2
    {
      ghost var d0, p0 := data[..], pos;
      ws := [];
      if op == Encoding {
        FitsTail(t, vs);
      }
      var x, rest;
      ok, x := Code(t, Head(vs));
      ghost var d1, p1 := data[..], pos;
      if !ok {
        if op == Encoding {
          WroteNone(p0, pos, d1, Encode(t, vs[0]), EncodeChain(t, vs[1..]));
        }
        return;
      }
      ok, rest := CodeChain(t, Tail(vs));
      ws := [x] + rest;
      KeptBoth(d0, p0, d1, p1, data[..]);
      if op == Encoding {
        WroteBoth(ok, p0, d1, p1, data[..], pos, Encode(t, vs[0]), EncodeChain(t, vs[1..]));
      } else {
        ReadNode(t, d0[p0..], x, d1[p1..], ok, rest, data[..][pos..]);
      }
    }
  }
}
