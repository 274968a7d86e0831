/** The one function of nfs/rpc_nfs3_prot_xdr.c with a path of its own, `xdr_PATHCONF3resok`
    (1756-1843): where the stream offers room for four words at once its flags are copied as they
    are, and this is the protocol's format only for flags that are 0 or 1. */
module XdrPathconf {
  import opened Text
  import opened Xdr
  import opened XdrLaws
  import opened XdrStream
  import opened XdrMessages

  // ----- flags -----

  /** Words one after the other; an `int` in two's complement. */
  function Words(ns: seq<int>): (w: seq<Byte>)
    ensures |w| == 4 * |ns|
  {
    if ns == [] then [] else Word(Unsign(ns[0])) + Words(ns[1..])
  }

  function WordsAt(b: seq<Byte>, count: nat): (ns: seq<int>)
    requires |b| >= 4 * count
    ensures |ns| == count && forall i :: 0 <= i < count ==> Signed32(ns[i])
  {
    if count == 0 then [] else [Sign(WordValue(b[..4]))] + WordsAt(b[4..], count - 1)
  }

  function AsFlag(n: int): int {
    if n == 0 then 0 else 1
  }

  function AsFlags(ns: seq<int>): (fs: seq<int>)
    ensures |fs| == |ns| && forall i :: 0 <= i < |ns| ==> fs[i] == AsFlag(ns[i])
  {
    if ns == [] then [] else [AsFlag(ns[0])] + AsFlags(ns[1..])
  }

  predicate AllSigned(ns: seq<int>) {
    forall i :: 0 <= i < |ns| ==> Signed32(ns[i])
  }

  predicate AllFlags(ns: seq<int>) {
    forall i :: 0 <= i < |ns| ==> ns[i] == 0 || ns[i] == 1
  }

  lemma NormalFlags(ns: seq<int>)
    ensures AsFlags(ns) == ns <==> AllFlags(ns)
    ensures AllFlags(AsFlags(ns)) && AllSigned(AsFlags(ns))
  {
    if AllFlags(ns) {
      assert forall i :: 0 <= i < |ns| ==> AsFlags(ns)[i] == ns[i];
    }
  }

  lemma {:induction false} WordsRead(ns: seq<int>, rest: seq<Byte>)
    requires AllSigned(ns)
    ensures WordsAt(Words(ns) + rest, |ns|) == ns
  {
    if ns != [] {
      WordsRead(ns[1..], rest);
      Regroup(Word(Unsign(ns[0])), Words(ns[1..]), rest);
      var b := Words(ns) + rest;
      assert b[..4] == Word(Unsign(ns[0])) && b[4..] == Words(ns[1..]) + rest;
      WordRoundTrip(Unsign(ns[0]));
    }
  }

  lemma WordsAtMore(d: seq<Byte>, p: nat, count: nat)
    requires count > 0 && p + 4 * count <= |d|
    ensures WordsAt(d[p..], count) == [Sign(WordValue(d[p..p + 4]))] + WordsAt(d[p + 4..], count - 1)
  {
    ReadWord(d, p);
    assert d[p..][..4] == d[p..p + 4] && d[p..][4..] == d[p + 4..];
  }

  /** Flags as the inlined path stores and fetches them (`IXDR_PUT_BOOL`, `IXDR_GET_BOOL`): the
      plain words, for which there is room. */
  method InlineFlags(s: Stream, flags: seq<int>) returns (r: seq<int>)
    requires s.Valid() && s.pos + 4 * |flags| <= s.data.Length
    modifies s`pos, s.data
    ensures s.Valid() && s.pos == old(s.pos) + 4 * |flags| && Kept(old(s.data[..]), old(s.pos), s.data[..])
    ensures s.op == Encoding ==> Wrote(true, old(s.pos), s.pos, s.data[..], Words(flags)) && r == flags
    ensures s.op == Decoding ==>
              s.data[..] == old(s.data[..]) && r == WordsAt(old(s.data[..])[old(s.pos)..], |flags|)
    decreases |flags|
  {
    if flags == [] {
      return [];
    }
    ghost var d0, p0 := s.data[..], s.pos;
    var ok, n, more;
    if s.op == Encoding {
      ok := s.PutWord(Unsign(flags[0]));
      n := flags[0];
    } else {
      ReadWord(d0, p0);
      WordsAtMore(d0, p0, |flags|);
      ok, n := s.GetWord();
      n := Sign(n);
    }
    ghost var d1, p1 := s.data[..], s.pos;
    more := InlineFlags(s, flags[1..]);
    r := [n] + more;
    KeptBoth(d0, p0, d1, p1, s.data[..]);
    if s.op == Encoding {
      WroteBoth(true, p0, d1, p1, s.data[..], s.pos, Word(Unsign(flags[0])), Words(flags[1..]));
    }
  }

  /** `xdr_bool`: written and read, a flag is 0 or 1. */
  method CodeBool(s: Stream, n: int) returns (ok: bool, m: int)
    requires s.Valid()
    modifies s`pos, s.data
    ensures s.Valid() && s.pos >= old(s.pos) && Kept(old(s.data[..]), old(s.pos), s.data[..])
    ensures (ok <==> old(s.pos) + 4 <= s.data.Length) && (ok ==> s.pos == old(s.pos) + 4)
    ensures s.op == Encoding ==> Wrote(ok, old(s.pos), s.pos, s.data[..], Word(AsFlag(n))) && m == n
    ensures s.op == Decoding ==> s.data[..] == old(s.data[..])
    ensures s.op == Decoding && ok ==> m == AsFlag(Sign(WordValue(old(s.data[..])[old(s.pos)..old(s.pos) + 4])))
  {
    ReadWord(s.data[..], s.pos);
    ok, m := s.CodeWord(AsFlag(n));
    m := if s.op == Encoding then n else AsFlag(m);
  }

  lemma FlagsAtMore(d: seq<Byte>, p: nat, count: nat)
    requires count > 0 && p + 4 * count <= |d|
    ensures AsFlags(WordsAt(d[p..], count)) ==
            [AsFlag(Sign(WordValue(d[p..p + 4])))] + AsFlags(WordsAt(d[p + 4..], count - 1))
  {
    WordsAtMore(d, p, count);
    assert WordsAt(d[p..], count)[1..] == WordsAt(d[p + 4..], count - 1);
  }

  /** Flags by `xdr_bool`, one after the other. */
  method SlowFlags(s: Stream, flags: seq<int>) returns (ok: bool, r: seq<int>)
    requires s.Valid()
    modifies s`pos, s.data
    ensures s.Valid() && s.pos >= old(s.pos) && Kept(old(s.data[..]), old(s.pos), s.data[..])
    ensures ok <==> old(s.pos) + 4 * |flags| <= s.data.Length
    ensures s.op == Encoding ==>
              Wrote(ok, old(s.pos), s.pos, s.data[..], Words(AsFlags(flags))) && (ok ==> r == flags)
    ensures s.op == Decoding ==> s.data[..] == old(s.data[..])
    ensures s.op == Decoding && ok ==>
              && s.pos == old(s.pos) + 4 * |flags|
              && r == AsFlags(WordsAt(old(s.data[..])[old(s.pos)..], |flags|))
    decreases |flags|
  {
    if flags == [] {
      return true, [];
    }
    ghost var d0, p0 := s.data[..], s.pos;
    var n, more;
    r := [];
    ok, n := CodeBool(s, flags[0]);
    ghost var d1, p1 := s.data[..], s.pos;
    if !ok {
      if s.op == Encoding {
        WroteNone(p0, s.pos, d1, Word(AsFlag(flags[0])), Words(AsFlags(flags[1..])));
      }
      return;
    }
    ok, more := SlowFlags(s, flags[1..]);
    r := [n] + more;
    KeptBoth(d0, p0, d1, p1, s.data[..]);
    if s.op == Encoding {
      WroteBoth(ok, p0, d1, p1, s.data[..], s.pos, Word(AsFlag(flags[0])), Words(AsFlags(flags[1..])));
    } else if ok {
      FlagsAtMore(d0, p0, |flags|);
    }
  }

  // ----- the whole function -----

  const HEAD := Struct([POST_OP_ATTR, UInt32, UInt32])

  /** What it writes, `inlined` or not. */
  function PathconfBytes(head: Value, flags: seq<int>, inlined: bool): seq<Byte>
    requires Fits(HEAD, head)
  {
    Encode(HEAD, head) + Words(if inlined then flags else AsFlags(flags))
  }

  /** What it reads: the value in front of the flags, and the flags. */
  function DecodePathconf(b: seq<Byte>, inlined: bool): (r: Option<((Value, seq<int>), seq<Byte>)>)
    ensures r.Some? ==> |r.value.0.1| == 4
  {
    DecodeFlagged(HEAD, b, inlined)
  }

  function DecodeFlagged(t: Type, b: seq<Byte>, inlined: bool): (r: Option<((Value, seq<int>), seq<Byte>)>)
    ensures r.Some? ==> |r.value.0.1| == 4
  {
    match Decode(t, b)
    case None => None
    case Some(h) =>
      if |h.1| < 16 then None
      else
        var words := WordsAt(h.1, 4);
        Some(((h.0, if inlined then words else AsFlags(words)), h.1[16..]))
  }

  /** `xdr_PATHCONF3resok`: inlined if the stream offers its buffer and there is room, otherwise by
      `xdr_bool`. */
  method CodePathconf(s: Stream, head: Value, flags: seq<int>, offered: bool)
    returns (ok: bool, h: Value, fs: seq<int>)
    requires s.Valid() && |flags| == 4 && (s.op == Encoding ==> Fits(HEAD, head))
    modifies s`pos, s.data
    ensures s.Valid() && Kept(old(s.data[..]), old(s.pos), s.data[..])
    ensures s.op == Encoding ==>
              && Wrote(ok, old(s.pos), s.pos, s.data[..], PathconfBytes(head, flags, offered))
              && (ok ==> h == head && fs == flags)
    ensures s.op == Decoding ==>
              && s.data[..] == old(s.data[..])
              && ReadOff(DecodePathconf(old(s.data[..])[old(s.pos)..], offered), ok, (h, fs), s.data[..][s.pos..])
  {
    ghost var d0, p0 := s.data[..], s.pos;
    fs := [];
    ok, h := s.Code(HEAD, head);
    ghost var d1, p1, words := s.data[..], s.pos, Words(if offered then flags else AsFlags(flags));
    if !ok {
      if s.op == Encoding {
        WroteNone(p0, s.pos, d1, Encode(HEAD, head), words);
      }
      return;
    }
    ok, fs := CodeFlags(s, flags, offered);
    KeptBoth(d0, p0, d1, p1, s.data[..]);
    if s.op == Encoding {
      WroteBoth(ok, p0, d1, p1, s.data[..], s.pos, Encode(HEAD, head), words);
    } else {
      ReadFlagged(HEAD, d0[p0..], h, d1[p1..], offered, ok, fs, s.data[..][s.pos..]);
    }
  }

  lemma ReadFlagged(t: Type, s: seq<Byte>, h: Value, s2: seq<Byte>, inlined: bool, ok: bool, fs: seq<int>,
          rest: seq<Byte>)
    requires ReadOff(Decode(t, s), true, h, s2) && (ok <==> |s2| >= 16)
    requires ok ==> fs == (if inlined then WordsAt(s2, 4) else AsFlags(WordsAt(s2, 4))) && rest == s2[16..]
    ensures ReadOff(DecodeFlagged(t, s, inlined), ok, (h, fs), rest)
  {
  }

  /** The flags, inlined if that is offered and there is room. */
  method CodeFlags(s: Stream, flags: seq<int>, offered: bool) returns (ok: bool, fs: seq<int>)
    requires s.Valid() && |flags| == 4
    modifies s`pos, s.data
    ensures s.Valid() && s.pos >= old(s.pos) && Kept(old(s.data[..]), old(s.pos), s.data[..])
    ensures ok <==> old(s.pos) + 16 <= s.data.Length
    ensures s.op == Encoding ==>
              && Wrote(ok, old(s.pos), s.pos, s.data[..], Words(if offered then flags else AsFlags(flags)))
              && (ok ==> fs == flags)
    ensures s.op == Decoding ==> s.data[..] == old(s.data[..])
    ensures s.op == Decoding && ok ==>
              var words := WordsAt(old(s.data[..])[old(s.pos)..], 4);
              && fs == (if offered then words else AsFlags(words))
              && s.data[..][s.pos..] == old(s.data[..])[old(s.pos)..][16..]
  {
    ghost var d0, p0 := s.data[..], s.pos;
    if offered && s.data.Length - s.pos >= 16 {
      ok := true;
      fs := InlineFlags(s, flags);
    } else {
      ok, fs := SlowFlags(s, flags);
    }
    if ok {
      Behind(d0, p0, 16);
    }
  }

  lemma Behind(d: seq<Byte>, p: nat, n: nat)
    requires p + n <= |d|
    ensures d[p..][n..] == d[p + n..]
  {
  }

  // ----- what the two paths have to do with the format -----

  function FlagsType(count: nat): Type {
    if count == 0 then Unit else Pair(Bool, FlagsType(count - 1))
  }

  function FlagValues(fs: seq<int>): Value {
    if fs == [] then Nil else Both(Number(fs[0]), FlagValues(fs[1..]))
  }

  lemma {:induction false} FlagsEncoded(fs: seq<int>)
    ensures Fits(FlagsType(|fs|), FlagValues(fs)) <==> AllFlags(fs)
    ensures AllFlags(fs) ==> Encode(FlagsType(|fs|), FlagValues(fs)) == Words(fs)
  {
    if fs != [] {
      FlagsEncoded(fs[1..]);
    }
  }

  lemma {:induction false} FlagsDecoded(b: seq<Byte>, count: nat)
    ensures Decode(FlagsType(count), b) ==
            if |b| < 4 * count then None else Some((FlagValues(AsFlags(WordsAt(b, count))), b[4 * count..]))
  {
    if count > 0 && |b| >= 4 {
      FlagsDecoded(b[4..], count - 1);
      if |b| >= 4 * count {
        assert b[4..][4 * (count - 1)..] == b[4 * count..];
        assert AsFlags(WordsAt(b, count))[1..] == AsFlags(WordsAt(b[4..], count - 1));
      }
    }
  }

  lemma {:induction false} SameFlags(a: seq<int>, b: seq<int>)
    requires |a| == |b|
    ensures FlagValues(a) == FlagValues(b) <==> a == b
  {
    if a != [] {
      SameFlags(a[1..], b[1..]);
      assert a == [a[0]] + a[1..] && b == [b[0]] + b[1..];
    }
  }

  // a structure with more members behind its last one

  predicate Flat(t: Type) {
    t.Unit? || (t.Pair? && Flat(t.second))
  }

  function Then(t: Type, more: Type): Type {
    if t.Pair? then Pair(t.first, Then(t.second, more)) else more
  }

  function With(t: Type, v: Value, more: Value): Value {
    if t.Pair? then Both(Fst(v), With(t.second, Snd(v), more)) else more
  }

  lemma {:induction false} ThenEncoded(t: Type, more: Type, v: Value, w: Value)
    requires Flat(t) && Fits(t, v)
    ensures Fits(Then(t, more), With(t, v, w)) <==> Fits(more, w)
    ensures Fits(more, w) ==> Encode(Then(t, more), With(t, v, w)) == Encode(t, v) + Encode(more, w)
  {
    if t.Pair? {
      ThenEncoded(t.second, more, v.snd, w);
      if Fits(more, w) {
        Regroup(Encode(t.first, v.fst), Encode(t.second, v.snd), Encode(more, w));
      }
    }
  }

  lemma {:induction false} ThenDecoded(t: Type, more: Type, b: seq<Byte>)
    requires Flat(t)
    ensures Decode(Then(t, more), b) ==
            match Decode(t, b)
            case None => None
            case Some(h) =>
              match Decode(more, h.1)
              case None => None
              case Some(w) => Some((With(t, h.0, w.0), w.1))
  {
    if t.Pair? && Decode(t.first, b).Some? {
      ThenDecoded(t.second, more, Decode(t.first, b).value.1);
    }
  }

  /** The value of type PATHCONF3resok with these flags. */
  function Whole(head: Value, flags: seq<int>): Value {
    With(HEAD, head, FlagValues(flags))
  }

  lemma StructStep(t: Type, ts: seq<Type>)
    ensures Struct([t] + ts) == Pair(t, Struct(ts))
  {
    assert ([t] + ts)[1..] == ts;
  }

  lemma {:induction false} StructThen(ts: seq<Type>, us: seq<Type>)
    ensures Flat(Struct(ts)) && Struct(ts + us) == Then(Struct(ts), Struct(us))
  {
    if ts == [] {
      assert ts + us == us;
    } else {
      StructThen(ts[1..], us);
      assert ts + us == [ts[0]] + (ts[1..] + us);
      StructStep(ts[0], ts[1..] + us);
    }
  }

  lemma BoolStruct()
    ensures Struct([Bool, Bool, Bool, Bool]) == FlagsType(4)
  {
    StructStep(Bool, []);
    StructStep(Bool, [Bool]);
    StructStep(Bool, [Bool, Bool]);
    StructStep(Bool, [Bool, Bool, Bool]);
  }

  lemma ResokIsThen()
    ensures Flat(HEAD) && PATHCONF3RESOK == Then(HEAD, FlagsType(4))
  {
    var head, flags := [POST_OP_ATTR, UInt32, UInt32], [Bool, Bool, Bool, Bool];
    assert head + flags == [POST_OP_ATTR, UInt32, UInt32, Bool, Bool, Bool, Bool];
    StructThen(head, flags);
    BoolStruct();
  }

  /** What the slow path writes is always the format; what the inlined one writes is it exactly if every
      flag is 0 or 1. */
  lemma PathconfWritten(head: Value, flags: seq<int>)
    requires Fits(HEAD, head) && |flags| == 4 && AllSigned(flags)
    ensures Fits(PATHCONF3RESOK, Whole(head, AsFlags(flags)))
    ensures PathconfBytes(head, flags, false) == Encode(PATHCONF3RESOK, Whole(head, AsFlags(flags)))
    ensures PathconfBytes(head, flags, true) == Encode(PATHCONF3RESOK, Whole(head, AsFlags(flags))) <==> AllFlags(flags)
  {
    var fs := AsFlags(flags);
    ResokIsThen();
    NormalFlags(flags);
    FlagsEncoded(fs);
    ThenEncoded(HEAD, FlagsType(4), head, FlagValues(fs));
    SameWords(Encode(HEAD, head), flags, fs);
  }

  lemma SameWords(front: seq<Byte>, a: seq<int>, b: seq<int>)
    requires |a| == |b| && AllSigned(a) && AllSigned(b)
    ensures front + Words(a) == front + Words(b) <==> a == b
  {
    WordsRead(a, []);
    WordsRead(b, []);
    assert Words(a) + [] == Words(a) && Words(b) + [] == Words(b);
    assert (front + Words(a))[|front|..] == Words(a) && (front + Words(b))[|front|..] == Words(b);
  }

  lemma {:induction false} SameEnds(t: Type, v: Value, a: Value, b: Value)
    requires Flat(t)
    ensures With(t, v, a) == With(t, v, b) <==> a == b
  {
    if t.Pair? {
      SameEnds(t.second, Snd(v), a, b);
    }
  }

  /** The flags behind the members of `t`: what the two paths read and what decoding gives. */
  lemma FlaggedRead(t: Type, b: seq<Byte>)
    requires Flat(t)
    ensures var d, slow, inlined := Decode(Then(t, FlagsType(4)), b), DecodeFlagged(t, b, false),
          DecodeFlagged(t, b, true);
            && d.Some? == slow.Some? == inlined.Some?
            && (d.Some? ==>
                  && d.value.1 == slow.value.1 == inlined.value.1
                  && slow.value.0.0 == inlined.value.0.0 && Fits(t, inlined.value.0.0)
                  && slow.value.0.1 == AsFlags(inlined.value.0.1)
                  && d.value.0 == With(t, slow.value.0.0, FlagValues(slow.value.0.1)))
  {
    ThenDecoded(t, FlagsType(4), b);
    if Decode(t, b).Some? {
      DecodedFits(t, b);
      FlagsDecoded(Decode(t, b).value.1, 4);
    }
  }

  /** A value that ends in flags is canonical, and the same as with the flags normalised, exactly if
      every flag is 0 or 1. */
  lemma FlaggedFits(t: Type, v: Value, flags: seq<int>)
    requires Flat(t) && Fits(t, v) && |flags| == 4
    ensures Fits(Then(t, FlagsType(4)), With(t, v, FlagValues(flags))) <==> AllFlags(flags)
    ensures With(t, v, FlagValues(AsFlags(flags))) == With(t, v, FlagValues(flags)) <==> AllFlags(flags)
  {
    NormalFlags(flags);
    SameFlags(AsFlags(flags), flags);
    SameEnds(t, v, FlagValues(AsFlags(flags)), FlagValues(flags));
    FlagsEncoded(flags);
    ThenEncoded(t, FlagsType(4), v, FlagValues(flags));
  }

  /** Both paths read something exactly if decoding does, and leave the same rest. The slow one reads
      the value decoding gives; the inlined one does exactly if every flag word is 0 or 1, and otherwise
      its value is not canonical. */
  lemma PathconfRead(b: seq<Byte>)
    ensures var d, slow, inlined := Decode(PATHCONF3RESOK, b), DecodePathconf(b, false), DecodePathconf(b, true);
            && d.Some? == slow.Some? == inlined.Some?
            && (d.Some? ==>
                  var whole, flags := Whole(inlined.value.0.0, inlined.value.0.1), inlined.value.0.1;
                  && d.value.1 == slow.value.1 == inlined.value.1
                  && d.value.0 == Whole(slow.value.0.0, slow.value.0.1)
                  && (d.value.0 == whole <==> AllFlags(flags))
                  && (Fits(PATHCONF3RESOK, whole) <==> AllFlags(flags)))
  {
    ResokIsThen();
    FlaggedRead(HEAD, b);
    var inlined := DecodePathconf(b, true);
    if inlined.Some? {
      FlaggedFits(HEAD, inlined.value.0.0, inlined.value.0.1);
    }
  }
}
