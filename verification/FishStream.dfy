/** The byte stream of replies: what reading it in pieces has in common, whatever the engine
    makes of a byte (`run` and its carry-over, fish/fish.cpp:1469-1580). */
module FishStream {
  import opened Text
  import opened FishModel

  /** The engine and the unfinished reply line that waits for more bytes. */
  datatype Conn = Conn(s: State, partial: string)

  /** What the engine makes of a byte. */
  type Step = (Conn, char) -> Conn

  /** The meaning of a stream of replies. */
  function Feed(h: Step, c: Conn, bytes: string): Conn
    decreases |bytes|
  {
    if bytes == "" then c else Feed(h, h(c, bytes[0]), bytes[1..])
  }

  lemma {:induction false} FeedAppend(h: Step, c: Conn, a: string, b: string)
    ensures Feed(h, c, a + b) == Feed(h, Feed(h, c, a), b)
    decreases |a|
  {
    if a == "" {
      assert a + b == b;
    } else {
      assert (a + b)[1..] == a[1..] + b;
      FeedAppend(h, h(c, a[0]), a[1..], b);
    }
  }

  lemma FeedSnoc(h: Step, c: Conn, a: string, b: char)
    ensures Feed(h, c, a + [b]) == h(Feed(h, c, a), b)
  {
    FeedAppend(h, c, a, [b]);
    var d := Feed(h, c, a);
    assert [b][1..] == "";
    assert Feed(h, h(d, b), "") == h(d, b);
  }

  /** The stream from `at` on, taken `n` bytes at a time. */
  lemma FeedSplit(h: Step, c: Conn, all: string, at: nat, n: nat)
    requires at + n <= |all|
    ensures Feed(h, c, all[at..]) == Feed(h, Feed(h, c, all[at..at + n]), all[at + n..])
  {
    assert all[at..] == all[at..at + n] + all[at + n..];
    FeedAppend(h, c, all[at..at + n], all[at + n..]);
  }

  // ----- what is known of the reading of one byte -----

  /** A waiting partial line holds no newline, and none waits while counted data is read. */
  predicate Orderly(c: Conn) {
    && Free('\n', c.partial)
    && (c.s.input.rawRead > 0 ==> c.partial == "")
    && (c.s.failed.None? ==> c.s.connected)
    && (c.s.isRunning ==> c.s.failed.None?)
  }

  /** Reading a byte keeps the invariants, notices the byte unless the connection has
      failed, restarts no chain, and lets a partial line grow by at most that byte. */
  ghost predicate ReadsWell(c: Conn, d: Conn) {
    && Valid(d.s)
    && (d == c <==> c.s.failed.Some?)
    && (d.s.isRunning ==> c.s.isRunning)
    && |d.partial| <= |c.partial| + 1
    && (Orderly(c) ==> Orderly(d))
  }

  ghost predicate Reads(h: Step) {
    forall c: Conn, b: char :: Valid(c.s) ==> ReadsWell(c, h(c, b))
  }

  lemma {:induction false} FeedReads(h: Step, c: Conn, bytes: string)
    requires Reads(h) && Valid(c.s)
    ensures var d := Feed(h, c, bytes);
            && Valid(d.s)
            && (c.s.failed.Some? ==> d == c)
            && (d.s.isRunning ==> c.s.isRunning)
            && |d.partial| <= |c.partial| + |bytes|
            && (Orderly(c) ==> Orderly(d))
    decreases |bytes|
  {
    if bytes != "" {
      assert ReadsWell(c, h(c, bytes[0]));
      FeedReads(h, h(c, bytes[0]), bytes[1..]);
    }
  }

  // ----- chunk independence -----

  /** The reads `run` performs: it stops at a read boundary once the chain is over. */
  function RunReads(h: Step, c: Conn, cuts: seq<string>): Conn
    decreases |cuts|
  {
    if cuts == [] || !c.s.isRunning then c else RunReads(h, Feed(h, c, cuts[0]), cuts[1..])
  }

  predicate Alive(s: State) {
    s.isRunning || s.failed.Some?
  }

  /** Nothing follows the reply that ends the chain, unless it ended in an error. */
  ghost predicate EndsWithChain(h: Step, c: Conn, stream: string) {
    forall k :: 0 <= k < |stream| ==> Alive(Feed(h, c, stream[..k]).s)
  }

  lemma EndsWithChainRest(h: Step, c: Conn, head: string, rest: string)
    requires EndsWithChain(h, c, head + rest)
    ensures EndsWithChain(h, Feed(h, c, head), rest)
  {
    var d, stream := Feed(h, c, head), head + rest;
    forall k | 0 <= k < |rest| ensures Alive(Feed(h, d, rest[..k]).s) {
      var n := |head| + k;
      assert stream[..n] == head + rest[..k];
      FeedAppend(h, c, head, rest[..k]);
      assert Alive(Feed(h, c, stream[..n]).s);
    }
  }

  lemma {:induction false} RunReadsAll(h: Step, c: Conn, cuts: seq<string>)
    requires Reads(h) && Valid(c.s) && EndsWithChain(h, c, Concat(cuts))
    ensures RunReads(h, c, cuts) == Feed(h, c, Concat(cuts))
    decreases |cuts|
  {
    if cuts == [] {
    } else if !c.s.isRunning {
      var stream := Concat(cuts);
      if stream != "" {
        assert stream[..0] == "";
        assert Alive(Feed(h, c, stream[..0]).s);
        FeedReads(h, c, stream);
      }
    } else {
      EndsWithChainRest(h, c, cuts[0], Concat(cuts[1..]));
      FeedAppend(h, c, cuts[0], Concat(cuts[1..]));
      FeedReads(h, c, cuts[0]);
      RunReadsAll(h, Feed(h, c, cuts[0]), cuts[1..]);
    }
  }

  ghost predicate SameForAllCuts(h: Step, c: Conn, stream: string) {
    forall cuts: seq<string>, cuts': seq<string> :: Concat(cuts) == stream && Concat(cuts') == stream ==>
      RunReads(h, c, cuts) == RunReads(h, c, cuts')
  }

  lemma TwoReads(h: Step, c: Conn, stream: string, k: nat)
    requires c.s.isRunning && k <= |stream| && !Feed(h, c, stream[..k]).s.isRunning
    ensures Concat([stream[..k], stream[k..]]) == stream
    ensures RunReads(h, c, [stream[..k], stream[k..]]) == Feed(h, c, stream[..k])
  {
    var cuts := [stream[..k], stream[k..]];
    assert cuts[1..] == [stream[k..]] && cuts[1..][1..] == [];
    assert Concat(cuts[1..]) == stream[k..] + Concat([]);
    assert Concat(cuts) == stream[..k] + stream[k..];
  }

  lemma CutsDiffer(h: Step, c: Conn, stream: string, k: nat)
    requires Reads(h) && Valid(c.s) && c.s.isRunning && k < |stream| && !Alive(Feed(h, c, stream[..k]).s)
    ensures !SameForAllCuts(h, c, stream)
  {
    var d := Feed(h, c, stream[..k]);
    FeedReads(h, c, stream[..k]);
    assert stream[..k + 1] == stream[..k] + [stream[k]];
    FeedSnoc(h, c, stream[..k], stream[k]);
    assert ReadsWell(d, h(d, stream[k]));
    TwoReads(h, c, stream, k);
    TwoReads(h, c, stream, k + 1);
  }

  /** Chunk independence, exactly: the way the network cuts the replies into reads makes no
      difference for the lines, the data, or any other part of the state, just when no byte
      follows the reply that ends the chain. */
  lemma ChunkIndependence(h: Step, c: Conn, stream: string)
    requires Reads(h) && Valid(c.s) && c.s.isRunning
    ensures SameForAllCuts(h, c, stream) <==> EndsWithChain(h, c, stream)
  {
    if EndsWithChain(h, c, stream) {
      forall cuts: seq<string>, cuts': seq<string> | Concat(cuts) == stream && Concat(cuts') == stream
        ensures RunReads(h, c, cuts) == RunReads(h, c, cuts')
      {
        RunReadsAll(h, c, cuts);
        RunReadsAll(h, c, cuts');
      }
    } else {
      var k :| 0 <= k < |stream| && !Alive(Feed(h, c, stream[..k]).s);
      CutsDiffer(h, c, stream, k);
    }
  }

  // ----- the loop of `run` -----

  /** Room in `run`'s receive buffer, `char buf[32768]` (fish/fish.cpp:1482). */
  const BUFFER_SIZE := 32768

  /** What `select` offers: the child takes up to `k` bytes, or has up to `k` for us. */
  datatype Io = Write(k: nat) | Read(k: nat)

  function Min(a: int, b: int): int {
    if a < b then a else b
  }

  /** The engine inside `run`, and the replies it has not read yet. */
  datatype Session = Session(c: Conn, rest: string)

  /** Bytes the next read(2) yields: it never asks for more than the free room. */
  function ReadSize(p: Session, k: nat): int {
    Min(k, Min(BUFFER_SIZE - |p.c.partial|, |p.rest|))
  }

  /** A read; an empty one is a broken connection (fish/fish.cpp:1541-1571). */
  function ReadStep(h: Step, p: Session, k: nat): Session {
    var n := ReadSize(p, k);
    if n <= 0 then p.(c := p.c.(s := Fail(Shutdown(p.c.s), ConnectionBroken)))
    else Session(Feed(h, p.c, p.rest[..n]), p.rest[n..])
  }

  function WriteStep(s: State, k: nat): State {
    if s.out.outBufPos < 0 then s else Flush(s, k)
  }

  /** One round of the loop of `run`; it does nothing once the chain is over. */
  function RunStep(h: Step, p: Session, io: Io): Session {
    if !p.c.s.isRunning then p
    else match io
      case Write(k) => p.(c := p.c.(s := WriteStep(p.c.s, k)))
      case Read(k) => ReadStep(h, p, k)
  }

  function RunLoop(h: Step, p: Session, script: seq<Io>): Session
    decreases |script|
  {
    if script == [] then p else RunLoop(h, RunStep(h, p, script[0]), script[1..])
  }

  lemma {:induction false} OverStays(h: Step, p: Session, script: seq<Io>)
    requires !p.c.s.isRunning
    ensures RunLoop(h, p, script) == p
    decreases |script|
  {
    if script != [] {
      OverStays(h, p, script[1..]);
    }
  }

  // ----- chunk independence of the loop -----

  /** The reads that take exactly these pieces. */
  function ReadsOf(cuts: seq<string>): seq<Io>
    decreases |cuts|
  {
    if cuts == [] then [] else [Read(|cuts[0]|)] + ReadsOf(cuts[1..])
  }

  /** The pieces are not empty and there is room for each behind the unfinished line. */
  predicate Fitting(h: Step, c: Conn, cuts: seq<string>)
    decreases |cuts|
  {
    cuts == [] || !c.s.isRunning
    || (cuts[0] != "" && |c.partial| + |cuts[0]| <= BUFFER_SIZE && Fitting(h, Feed(h, c, cuts[0]), cuts[1..]))
  }

  /** For such pieces the loop does what reading without a buffer does. */
  lemma {:induction false} LoopIsReads(h: Step, c: Conn, cuts: seq<string>)
    requires Fitting(h, c, cuts)
    ensures RunLoop(h, Session(c, Concat(cuts)), ReadsOf(cuts)).c == RunReads(h, c, cuts)
    decreases |cuts|
  {
    var p := Session(c, Concat(cuts));
    if cuts == [] {
    } else if !c.s.isRunning {
      OverStays(h, p, ReadsOf(cuts));
    } else {
      var rest := Concat(cuts[1..]);
      assert p.rest == cuts[0] + rest;
      assert p.rest[..|cuts[0]|] == cuts[0] && p.rest[|cuts[0]|..] == rest;
      LoopIsReads(h, Feed(h, c, cuts[0]), cuts[1..]);
      assert ReadsOf(cuts)[0] == Read(|cuts[0]|) && ReadsOf(cuts)[1..] == ReadsOf(cuts[1..]);
    }
  }

  /** No line fills the buffer. */
  ghost predicate ShortLines(h: Step, c: Conn, stream: string) {
    forall k :: 0 <= k <= |stream| ==> |Feed(h, c, stream[..k]).partial| < BUFFER_SIZE
  }

  lemma ShortRest(h: Step, c: Conn, stream: string, n: nat)
    requires n <= |stream| && ShortLines(h, c, stream)
    ensures ShortLines(h, Feed(h, c, stream[..n]), stream[n..])
  {
    forall k | 0 <= k <= |stream[n..]|
      ensures |Feed(h, Feed(h, c, stream[..n]), stream[n..][..k]).partial| < BUFFER_SIZE
    {
      assert stream[..n + k] == stream[..n] + stream[n..][..k];
      FeedAppend(h, c, stream[..n], stream[n..][..k]);
    }
  }

  /** Only reads, of at least one byte, and none when nothing is there. */
  predicate Offered(h: Step, p: Session, script: seq<Io>)
    decreases |script|
  {
    script == [] || !p.c.s.isRunning
    || (script[0].Read? && script[0].k > 0 && p.rest != "" && Offered(h, RunStep(h, p, script[0]), script[1..]))
  }

  /** Whatever the reads, the loop has fed the engine what they took from the stream. */
  lemma {:induction false} LoopFeeds(h: Step, p: Session, script: seq<Io>) returns (n: nat)
    requires ShortLines(h, p.c, p.rest) && Offered(h, p, script)
    ensures n <= |p.rest|
    ensures RunLoop(h, p, script) == Session(Feed(h, p.c, p.rest[..n]), p.rest[n..])
    decreases |script|
  {
    n := 0;
    assert p.rest[..0] == "" && p.rest[0..] == p.rest;
    if script != [] {
      if p.c.s.isRunning {
        assert |Feed(h, p.c, p.rest[..0]).partial| < BUFFER_SIZE;
        var a := ReadSize(p, script[0].k);
        assert a > 0;
        ShortRest(h, p.c, p.rest, a);
        var b := LoopFeeds(h, RunStep(h, p, script[0]), script[1..]);
        n := a + b;
        assert p.rest[a..][..b] == p.rest[a..n] && p.rest[a..][b..] == p.rest[n..];
        assert p.rest[..n] == p.rest[..a] + p.rest[a..][..b];
        FeedAppend(h, p.c, p.rest[..a], p.rest[a..][..b]);
      } else {
        OverStays(h, p, script);
      }
    }
  }

  /** Chunk independence of the loop that `run` is: for lines shorter than the buffer, and nothing behind
      the reply that ends the chain, every session that reads the stream to its end, or ends before, is in
      the state one pass over the whole stream leaves. */
  lemma LoopIndependence(h: Step, p: Session, script: seq<Io>)
    requires Reads(h) && Valid(p.c.s)
    requires ShortLines(h, p.c, p.rest) && EndsWithChain(h, p.c, p.rest) && Offered(h, p, script)
    ensures var q := RunLoop(h, p, script);
            q.rest == "" || !q.c.s.isRunning ==> q.c == Feed(h, p.c, p.rest)
  {
    var n := LoopFeeds(h, p, script);
    var d, rest := Feed(h, p.c, p.rest[..n]), p.rest[n..];
    assert p.rest == p.rest[..n] + rest;
    FeedAppend(h, p.c, p.rest[..n], rest);
    if rest != "" && !d.s.isRunning {
      assert Alive(d.s);
      FeedReads(h, p.c, p.rest[..n]);
      FeedReads(h, d, rest);
    }
  }

  /** A read that could take bytes breaks the connection exactly if an unfinished line fills the buffer. */
  lemma FullBufferBreaks(h: Step, p: Session, k: nat)
    requires k > 0 && p.rest != ""
    ensures if |p.c.partial| >= BUFFER_SIZE then ReadStep(h, p, k)
          == p.(c := p.c.(s := Fail(Shutdown(p.c.s), ConnectionBroken)))
            else exists n :: 0 < n <= |p.rest| && ReadStep(h, p, k) == Session(Feed(h, p.c, p.rest[..n]), p.rest[n..])
  {
    var n := ReadSize(p, k);
    if n > 0 {
      assert ReadStep(h, p, k) == Session(Feed(h, p.c, p.rest[..n]), p.rest[n..]);
    }
  }

  /** One large read does what two smaller ones do, as long as the chain is not over:
      between the writes of a session, too, the cutting makes no difference. */
  lemma SplitRead(h: Step, p: Session, a: nat, b: nat)
    requires Reads(h) && Valid(p.c.s) && 0 < a && 0 < b
    requires a + b <= |p.rest| && |p.c.partial| + a + b <= BUFFER_SIZE
    ensures ReadStep(h, p, a + b) == ReadStep(h, ReadStep(h, p, a), b)
  {
    var x, y := p.rest[..a], p.rest[a..][..b];
    FeedReads(h, p.c, x);
    assert p.rest[..a + b] == x + y && p.rest[a..][b..] == p.rest[a + b..];
    FeedAppend(h, p.c, x, y);
  }

  // ----- reads between writes -----

  /** As many reads of one byte. */
  function Ones(n: nat): seq<Io> {
    if n == 0 then [] else [Read(1)] + Ones(n - 1)
  }

  /** The rounds of a session with every read taken byte by byte: what is left of a session when the
      sizes of its reads are forgotten. */
  function Bytewise(h: Step, p: Session, script: seq<Io>): seq<Io>
    decreases |script|
  {
    if script == [] || !p.c.s.isRunning then []
    else
      var n := if script[0].Read? then ReadSize(p, script[0].k) else 0;
      (if n > 0 then Ones(n) else [script[0]]) + Bytewise(h, RunStep(h, p, script[0]), script[1..])
  }

  /** No byte of these is behind the reply that ends the chain, unless it ended in an error. */
  ghost predicate WithinChain(h: Step, c: Conn, bytes: string) {
    forall i :: 0 <= i < |bytes| ==> Alive(Feed(h, c, bytes[..i]).s)
  }

  /** No read of the session takes such bytes. */
  ghost predicate Punctual(h: Step, p: Session, script: seq<Io>)
    decreases |script|
  {
    || script == [] || !p.c.s.isRunning
    || (&& (script[0].Read? && ReadSize(p, script[0].k) > 0 ==>
              WithinChain(h, p.c, p.rest[..ReadSize(p, script[0].k)]))
        && Punctual(h, RunStep(h, p, script[0]), script[1..]))
  }

  lemma {:induction false} RunLoopAppend(h: Step, p: Session, a: seq<Io>, b: seq<Io>)
    ensures RunLoop(h, p, a + b) == RunLoop(h, RunLoop(h, p, a), b)
    decreases |a|
  {
    if a == [] {
      assert a + b == b;
    } else {
      assert (a + b)[1..] == a[1..] + b;
      RunLoopAppend(h, RunStep(h, p, a[0]), a[1..], b);
    }
  }

  lemma WithinRest(h: Step, c: Conn, bytes: string)
    requires bytes != "" && WithinChain(h, c, bytes)
    ensures WithinChain(h, h(c, bytes[0]), bytes[1..])
    ensures |bytes| > 1 ==> Alive(h(c, bytes[0]).s)
  {
    var d := h(c, bytes[0]);
    forall i | 0 <= i < |bytes[1..]| ensures Alive(Feed(h, d, bytes[1..][..i]).s) {
      assert bytes[..i + 1][1..] == bytes[1..][..i];
      assert Alive(Feed(h, c, bytes[..i + 1]).s);
    }
    if |bytes| > 1 {
      assert bytes[1..][..0] == "" && Feed(h, d, "") == d;
    }
  }

  /** Byte by byte the engine comes to the same state; the rest of the stream is the same while the chain
      is not over. */
  lemma {:induction false} OnesAreRead(h: Step, p: Session, n: nat)
    requires Reads(h) && Valid(p.c.s) && p.c.s.isRunning
    requires n <= |p.rest| && |p.c.partial| + n <= BUFFER_SIZE && WithinChain(h, p.c, p.rest[..n])
    ensures var q, r := RunLoop(h, p, Ones(n)), Session(Feed(h, p.c, p.rest[..n]), p.rest[n..]);
            q.c == r.c && (r.c.s.isRunning ==> q == r)
    decreases n
  {
    if n == 0 {
      assert p.rest[..0] == "" && p.rest[0..] == p.rest;
    } else {
      var b, bytes := p.rest[0], p.rest[..n];
      var q := Session(h(p.c, b), p.rest[1..]);
      assert p.rest[..1] == [b] && [b][1..] == "" && Feed(h, h(p.c, b), "") == h(p.c, b);
      assert RunStep(h, p, Read(1)) == q;
      assert Ones(n)[0] == Read(1) && Ones(n)[1..] == Ones(n - 1);
      assert bytes[1..] == q.rest[..n - 1] && p.rest[n..] == q.rest[n - 1..];
      WithinRest(h, p.c, bytes);
      assert ReadsWell(p.c, q.c);
      if q.c.s.isRunning {
        OnesAreRead(h, q, n - 1);
      } else {
        OverStays(h, q, Ones(n - 1));
        FeedReads(h, q.c, bytes[1..]);
        assert n == 1 ==> bytes[1..] == "";
      }
    }
  }

  lemma WriteValid(s: State, k: nat)
    requires Valid(s)
    ensures Valid(WriteStep(s, k))
  {
  }

  /** A read taken byte by byte, and what comes behind it. */
  lemma ReadBytewise(h: Step, p: Session, n: nat, later: seq<Io>)
    requires Reads(h) && Valid(p.c.s) && p.c.s.isRunning && n > 0
    requires n <= |p.rest| && |p.c.partial| + n <= BUFFER_SIZE && WithinChain(h, p.c, p.rest[..n])
    ensures var r := Session(Feed(h, p.c, p.rest[..n]), p.rest[n..]);
            && Valid(r.c.s) && RunLoop(h, p, Ones(n) + later).c == RunLoop(h, r, later).c
  {
    var q, r := RunLoop(h, p, Ones(n)), Session(Feed(h, p.c, p.rest[..n]), p.rest[n..]);
    OnesAreRead(h, p, n);
    RunLoopAppend(h, p, Ones(n), later);
    FeedReads(h, p.c, p.rest[..n]);
    if !r.c.s.isRunning {
      OverStays(h, q, later);
      OverStays(h, r, later);
    }
  }

  /** With writes between the reads, too: how large the reads are makes no difference. */
  lemma {:induction false} BytewiseSame(h: Step, p: Session, script: seq<Io>)
    requires Reads(h) && Valid(p.c.s) && Punctual(h, p, script)
    ensures RunLoop(h, p, script).c == RunLoop(h, p, Bytewise(h, p, script)).c
    decreases |script|
  {
    if script != [] {
      if !p.c.s.isRunning {
        OverStays(h, p, script);
      } else {
        var io, q := script[0], RunStep(h, p, script[0]);
        var later := Bytewise(h, q, script[1..]);
        if io.Read? && ReadSize(p, io.k) > 0 {
          ReadBytewise(h, p, ReadSize(p, io.k), later);
        } else {
          WriteValid(p.c.s, io.k);
          assert ([io] + later)[1..] == later;
          assert Valid(q.c.s);
        }
        BytewiseSame(h, q, script[1..]);
      }
    }
  }

  /** Chunk independence of whole sessions: two that write between the same bytes, and read no byte behind
      the reply that ends the chain, come to the same state. */
  lemma SameSchedule(h: Step, p: Session, script: seq<Io>, script': seq<Io>)
    requires Reads(h) && Valid(p.c.s) && Punctual(h, p, script) && Punctual(h, p, script')
    requires Bytewise(h, p, script) == Bytewise(h, p, script')
    ensures RunLoop(h, p, script).c == RunLoop(h, p, script').c
  {
    BytewiseSame(h, p, script);
    BytewiseSame(h, p, script');
  }
}
