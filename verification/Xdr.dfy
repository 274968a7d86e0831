/** External Data Representation (RFC 4506): how the types of the NFS and MOUNT protocols are
    written, one description serving both directions as in nfs/rpc_nfs3_prot_xdr.c. */
module Xdr {
  import opened Text

  type Byte = x: int | 0 <= x < 256

  const TWO32 := 0x1_0000_0000
  const TWO64 := 0x1_0000_0000_0000_0000

  /** The types. Structures are built from `Pair` and `Unit`, linked lists (a chain of optional
      nodes, section 4.19) are `Chain` of what a node holds besides its link. */
  datatype Type =
    | UInt32                        // 4.2
    | UHyper                        // 4.5
    | Enum                          // 4.3, any 32-bit signed value
    | Bool                          // 4.4
    | Opaque(size: nat)             // 4.9
    | Bytes(max: nat)               // 4.10
    | CString(max: nat)             // 4.11, up to its terminator
    | Array(element: Type, max: nat) // 4.13
    | Unit
    | Pair(first: Type, second: Type) // 4.14
    | Union(boolean: bool, arms: Arms) // 4.15, over a boolean or an enumeration
    | Chain(node: Type)             // 4.19

  datatype Arms = Case(on: int, arm: Type, others: Arms) | Default(otherwise: Type) | Nothing

  datatype Value =
    | Number(n: int)
    | Octets(s: seq<Byte>)
    | Nil
    | Both(fst: Value, snd: Value)
    | Tagged(t: int, body: Value)
    | Items(vs: seq<Value>)

  function Arm(arms: Arms, on: int): Option<Type>
    ensures Arm(arms, on).Some? ==> Arm(arms, on).value < arms
  {
    match arms
    case Case(c, t, others) => if c == on then Some(t) else Arm(others, on)
    case Default(t) => Some(t)
    case Nothing => None
  }

  predicate Signed32(n: int) {
    -0x8000_0000 <= n < 0x8000_0000
  }

  /** The canonical values of a type. */
  ghost predicate Fits(t: Type, v: Value)
    decreases t, 0
  {
    match (t, v)
    case (UInt32, Number(n)) => 0 <= n < TWO32
    case (UHyper, Number(n)) => 0 <= n < TWO64
    case (Enum, Number(n)) => Signed32(n)
    case (Bool, Number(n)) => n == 0 || n == 1
    case (Opaque(k), Octets(s)) => |s| == k
    case (Bytes(max), Octets(s)) => |s| <= max && |s| < TWO32
    case (CString(max), Octets(s)) => |s| <= max && |s| < TWO32 && 0 !in s
    case (Array(e, max), Items(vs)) => |vs| <= max && |vs| < TWO32 && AllFit(e, vs)
    case (Unit, Nil) => true
    case (Pair(a, b), Both(x, y)) => Fits(a, x) && Fits(b, y)
    case (Union(boolean, arms), Tagged(n, body)) =>
      (if boolean then n == 0 || n == 1 else Signed32(n)) && Arm(arms, n).Some? && Fits(Arm(arms, n).value, body)
    case (Chain(node), Items(vs)) => AllFit(node, vs)
    case _ => false
  }

  ghost predicate AllFit(t: Type, vs: seq<Value>)
    decreases t, 1
  {
    forall x :: x in vs ==> Fits(t, x)
  }

  // ----- words -----

  function Word(n: int): (w: seq<Byte>)
    ensures |w| == 4
  {
    [n / 0x100_0000 % 0x100, n / 0x1_0000 % 0x100, n / 0x100 % 0x100, n % 0x100]
  }

  function WordValue(w: seq<Byte>): (n: nat)
    requires |w| == 4
    ensures n < TWO32
  {
    (w[0] as int) * 0x100_0000 + (w[1] as int) * 0x1_0000 + (w[2] as int) * 0x100 + (w[3] as int)
  }

  lemma WordRoundTrip(n: nat)
    requires n < TWO32
    ensures WordValue(Word(n)) == n
  {
    var a := n / 0x100;
    var b := a / 0x100;
    assert n == a * 0x100 + n % 0x100 && a == b * 0x100 + a % 0x100 && b == b / 0x100 * 0x100 + b % 0x100;
    assert n / 0x1_0000 == b && n / 0x100_0000 == b / 0x100;
  }

  function Unsign(n: int): int {
    if n < 0 then n + TWO32 else n
  }

  function Sign(n: int): int {
    if n < 0x8000_0000 then n else n - TWO32
  }

  function Padding(n: nat): nat {
    (4 - n % 4) % 4
  }

  function Zeros(n: nat): (z: seq<Byte>)
    ensures |z| == n
  {
    seq(n, i => 0)
  }

  function Padded(s: seq<Byte>): (p: seq<Byte>)
    ensures |p| % 4 == 0
  {
    s + Zeros(Padding(|s|))
  }

  // ----- encoding -----

  predicate IsLeaf(t: Type) {
    !t.Array? && !t.Pair? && !t.Union? && !t.Chain?
  }

  function EncodeLeaf(t: Type, v: Value): seq<Byte>
    requires IsLeaf(t) && Fits(t, v)
  {
    match t
    case UInt32 => Word(v.n)
    case UHyper => Word(v.n / TWO32) + Word(v.n % TWO32)
    case Enum => Word(Unsign(v.n))
    case Bool => Word(v.n)
    case Opaque(_) => Padded(v.s)
    case Bytes(_) => Word(|v.s|) + Padded(v.s)
    case CString(_) => Word(|v.s|) + Padded(v.s)
    case Unit => []
  }

  function Encode(t: Type, v: Value): seq<Byte>
    requires Fits(t, v)
    decreases t, 0, 0
  {
    match t
    case Array(e, _) => Word(|v.vs|) + EncodeAll(e, v.vs)
    case Pair(a, b) => Encode(a, v.fst) + Encode(b, v.snd)
    case Union(_, arms) => Word(Unsign(v.t)) + Encode(Arm(arms, v.t).value, v.body)
    case Chain(node) => EncodeChain(node, v.vs)
    case _ => EncodeLeaf(t, v)
  }

  function EncodeAll(t: Type, vs: seq<Value>): seq<Byte>
    requires AllFit(t, vs)
    decreases t, 1, |vs|
  {
    if vs == [] then [] else Encode(t, vs[0]) + EncodeAll(t, vs[1..])
  }

  function EncodeChain(t: Type, vs: seq<Value>): seq<Byte>
    requires AllFit(t, vs)
    decreases t, 1, |vs|, 1
  {
    if vs == [] then Word(0) else Word(1) + EncodeNode(t, vs)
  }

  function EncodeNode(t: Type, vs: seq<Value>): seq<Byte>
    requires vs != [] && AllFit(t, vs)
    decreases t, 1, |vs|, 0
  {
    Encode(t, vs[0]) + EncodeChain(t, vs[1..])
  }

  // ----- decoding: the value and what follows it -----

  function DecodeWord(b: seq<Byte>): (r: Option<(nat, seq<Byte>)>)
    ensures r.Some? ==> |r.value.1| < |b| && r.value.0 < TWO32
  {
    if |b| < 4 then None else Some((WordValue(b[..4]), b[4..]))
  }

  /** `n` bytes and their padding, which is not looked at. */
  function DecodeOctets(b: seq<Byte>, n: nat): (r: Option<(seq<Byte>, seq<Byte>)>)
    ensures r.Some? ==> |r.value.1| <= |b| && |r.value.0| == n
  {
    if |b| < n + Padding(n) then None else Some((b[..n], b[n + Padding(n)..]))
  }

  /** What C takes a buffer of characters for. */
  function UpToNul(s: seq<Byte>): (c: seq<Byte>)
    ensures |c| <= |s| && 0 !in c && (0 !in s ==> c == s)
  {
    if s == [] || s[0] == 0 then [] else [s[0]] + UpToNul(s[1..])
  }

  function DecodeCounted(b: seq<Byte>, max: nat): (r: Option<(seq<Byte>, seq<Byte>)>)
    ensures r.Some? ==> |r.value.1| <= |b| && |r.value.0| <= max && |r.value.0| < TWO32
  {
    match DecodeWord(b)
    case None => None
    case Some(w) => if w.0 > max then None else DecodeOctets(w.1, w.0)
  }

  function DecodeLeaf(t: Type, b: seq<Byte>): (r: Option<(Value, seq<Byte>)>)
    requires IsLeaf(t)
    ensures r.Some? ==> |r.value.1| <= |b|
  {
    match t
    case UInt32 => (match DecodeWord(b) case None => None case Some(w) => Some((Number(w.0), w.1)))
    case UHyper =>
      (match DecodeWord(b)
       case None => None
       case Some(high) =>
         match DecodeWord(high.1)
         case None => None
         case Some(low) => Some((Number(high.0 * TWO32 + low.0), low.1)))
    case Enum => (match DecodeWord(b) case None => None case Some(w) => Some((Number(Sign(w.0)), w.1)))
    case Bool => (match DecodeWord(b) case None => None case Some(w) => Some((Number(if w.0 == 0 then 0 else 1), w.1)))
    case Opaque(n) => (match DecodeOctets(b, n) case None => None case Some(o) => Some((Octets(o.0), o.1)))
    case Bytes(max) =>
      (match DecodeCounted(b, max) case None => None case Some(o) => Some((Octets(o.0), o.1)))
    case CString(max) =>
      (match DecodeCounted(b, max) case None => None case Some(o) => Some((Octets(UpToNul(o.0)), o.1)))
    case Unit => Some((Nil, b))
  }

  function Decode(t: Type, b: seq<Byte>): (r: Option<(Value, seq<Byte>)>)
    ensures r.Some? ==> |r.value.1| <= |b|
    decreases t, 0, 0
  {
    match t
    case Array(e, max) =>
      (match DecodeWord(b)
       case None => None
       case Some(count) =>
         if count.0 > max then None
         else match DecodeAll(e, count.0, count.1)
           case None => None
           case Some(vs) => Some((Items(vs.0), vs.1)))
    case Pair(a, c) =>
      (match Decode(a, b)
       case None => None
       case Some(x) =>
         match Decode(c, x.1)
         case None => None
         case Some(y) => Some((Both(x.0, y.0), y.1)))
    case Union(boolean, arms) =>
      (match DecodeWord(b)
       case None => None
       case Some(w) =>
         var n := if boolean then (if w.0 == 0 then 0 else 1) else Sign(w.0);
         match Arm(arms, n)
         case None => None
         case Some(arm) =>
           match Decode(arm, w.1)
           case None => None
           case Some(body) => Some((Tagged(n, body.0), body.1)))
    case Chain(node) => (match DecodeChain(node, b) case None => None case Some(vs) => Some((Items(vs.0), vs.1)))
    case _ => DecodeLeaf(t, b)
  }

  function DecodeAll(t: Type, count: nat, b: seq<Byte>): (r: Option<(seq<Value>, seq<Byte>)>)
    ensures r.Some? ==> |r.value.1| <= |b|
    decreases t, 1, count
  {
    if count == 0 then Some(([], b))
    else
      match Decode(t, b)
      case None => None
      case Some(x) =>
        match DecodeAll(t, count - 1, x.1)
        case None => None
        case Some(vs) => Some(([x.0] + vs.0, vs.1))
  }

  function DecodeChain(t: Type, b: seq<Byte>): (r: Option<(seq<Value>, seq<Byte>)>)
    ensures r.Some? ==> |r.value.1| < |b|
    decreases t, 1, 2 * |b|
  {
    match DecodeWord(b)
    case None => None
    case Some(more) => if more.0 == 0 then Some(([], more.1)) else DecodeNode(t, more.1)
  }

  function DecodeNode(t: Type, b: seq<Byte>): (r: Option<(seq<Value>, seq<Byte>)>)
    ensures r.Some? ==> |r.value.1| <= |b|
    decreases t, 1, 2 * |b| + 1
  {
    match Decode(t, b)
    case None => None
    case Some(x) =>
      match DecodeChain(t, x.1)
      case None => None
      case Some(vs) => Some(([x.0] + vs.0, vs.1))
  }
}
