/** An upload driven by the loop that `run` is, which reads whole buffers: each read(2) does what as many
    single bytes do, so what holds of every interleaving of bytes holds of every session
    (fish/fish.cpp:1484-1578). */
module FishRounds {
  import opened Text
  import opened FishModel
  import opened FishStream
  import opened FishBytes
  import opened FishUpload
  import S = FishServer

  /** A round of the engine's loop, or the server reads a byte. */
  datatype Round = Engine(io: Io) | Serving

  /** What `select` may offer: room to write while something is left, bytes to read when nothing is. */
  predicate Offers(y: System, r: Round) {
    match r
    case Engine(Write(k)) => Enabled(y, Send(k))
    case Engine(Read(k)) => Enabled(y, Hear) && k > 0
    case Serving => Enabled(y, Work)
  }

  /** The bytes a round puts on the wire. */
  function Taken(o: Output, io: Io): string {
    if io.Write? && 0 <= o.outBufPos && o.outBufPos + io.k <= |o.outBuf| then o.outBuf[o.outBufPos..o.outBufPos + io.k]
    else ""
  }

  function Turn(env: Env, y: System, r: Round): System {
    if !Offers(y, r) then y
    else match r
      case Engine(io) =>
        var p := RunStep(ByteStep(env), Session(y.c, y.srv.out), io);
        System(p.c, y.wire + Taken(y.c.s.out, io), y.srv.(out := p.rest))
      case Serving => Next(env, y, Work)
  }

  function RunRounds(env: Env, y: System, rs: seq<Round>): System
    decreases |rs|
  {
    if rs == [] then y else RunRounds(env, Turn(env, y, rs[0]), rs[1..])
  }

  /** No line of the answer to the check fills the receive buffer. */
  predicate Short(ls: seq<string>) {
    forall i :: 0 <= i < |ls| ==> |ls[i]| < BUFFER_SIZE
  }

  predicate ShortAnswer(ph: Phase) {
    ph.Check? ==> Short(ph.ls)
  }

  // ----- one read is as many bytes -----

  /** A line that makes the engine write, or ends the chain, is the last one to come. */
  lemma LineLeaves(env: Env, j: Job, c: Conn, a: S.Server, ph: Phase)
    requires In(env, j, c, a, ph) && c.s.isRunning && c.s.out.outBuf == "" && a.out != "" && a.out[0] == '\n'
    ensures var t := ManageLine(env, c.s, c.partial); (t.isRunning && t.out.outBuf == "") || a.out[1..] == ""
  {
    var ls := ToCome(ph);
    NextByte(c.partial, a.out, ls);
    if |ls| == 1 {
      assert ls[1..] == [] && "" + a.out[1..] == a.out[1..];
    } else if ph.Check? {
      HearInterim(env, j, c, a, ls);
    } else {
      HearPreliminary(env, c.s);
    }
  }

  lemma MoreToHear(srv: S.Server, bytes: string)
    requires |srv.out| > 1
    ensures S.Serve(srv, bytes).out != "" && S.Serve(srv, bytes).out[1..] != ""
  {
    S.ServeAfterRead(srv, bytes);
    S.ServeAfterRead(srv.(out := srv.out[1..]), bytes);
  }

  /** After a byte that is not the last one there, the engine may read on. */
  lemma HearsOn(env: Env, j: Job, y: System, ph: Phase)
    requires In(env, j, y.c, Ahead(y), ph) && Enabled(y, Hear) && |y.srv.out| > 1
    ensures Enabled(Next(env, y, Hear), Hear)
  {
    HearAhead(env, y);
    MoreToHear(y.srv, y.wire);
    assert Unsent(y.c.s.out) == "" && y.wire + "" == y.wire;
    assert Sound(y.c.s) && y.c.s.failed.None?;
    if y.srv.out[0] == '\n' {
      LineLeaves(env, j, y.c, Ahead(y), ph);
    }
  }

  /** The upload is in this phase, and the answer to its check is short. */
  ghost predicate On(env: Env, j: Job, y: System, ph: Phase) {
    In(env, j, y.c, Ahead(y), ph) && ShortAnswer(ph)
  }

  /** There is room for more behind the unfinished line. */
  lemma Room(env: Env, j: Job, c: Conn, a: S.Server, ph: Phase)
    requires In(env, j, c, a, ph) && c.s.isRunning && a.out != "" && ShortAnswer(ph)
    ensures |c.partial| < BUFFER_SIZE
  {
    var ls := ToCome(ph);
    assert c.partial + a.out == Render(ls);
    var all := c.partial + a.out;
    assert all == ls[0] + "\n" + Render(ls[1..]);
    assert all[|ls[0]|] == '\n';
    assert forall k :: 0 <= k < |c.partial| ==> all[k] == c.partial[k];
  }

  /** The moves are all possible when their turn comes. */
  predicate AllEnabled(env: Env, y: System, ms: seq<Move>)
    decreases |ms|
  {
    ms == [] || (Enabled(y, ms[0]) && AllEnabled(env, Next(env, y, ms[0]), ms[1..]))
  }

  lemma Pieces(out: string, n: nat)
    requires 0 < n <= |out|
    ensures out[..n] != "" && out[..n][0] == out[0] && out[..n][1..] == out[1..][..n - 1]
    ensures out[1..][n - 1..] == out[n..]
  {
  }

  /** The state of things after the engine has been fed the next `n` bytes. */
  function Fed(env: Env, y: System, n: nat): System
    requires n <= |y.srv.out|
  {
    System(Feed(ByteStep(env), y.c, y.srv.out[..n]), y.wire, y.srv.(out := y.srv.out[n..]))
  }

  lemma FedNone(env: Env, y: System)
    ensures Fed(env, y, 0) == y
  {
    assert y.srv.out[..0] == "" && y.srv.out[0..] == y.srv.out;
  }

  lemma FedOne(env: Env, y: System, n: nat)
    requires 0 < n <= |y.srv.out| && Enabled(y, Hear)
    ensures var z := Next(env, y, Hear); n - 1 <= |z.srv.out| && Fed(env, z, n - 1) == Fed(env, y, n)
  {
    Pieces(y.srv.out, n);
    assert ByteStep(env)(y.c, y.srv.out[0]) == FeedByte(env, y.c, y.srv.out[0]);
  }

  /** These moves, each possible when its turn comes, lead there. */
  predicate Leads(env: Env, y: System, ms: seq<Move>, z: System) {
    AllEnabled(env, y, ms) && RunAll(env, y, ms) == z
  }

  lemma OneMore(env: Env, y: System, m: Move, ms: seq<Move>, z: System)
    requires Enabled(y, m) && Leads(env, Next(env, y, m), ms, z)
    ensures Leads(env, y, [m] + ms, z)
  {
    assert ([m] + ms)[1..] == ms;
  }

  lemma NoMove(env: Env, y: System)
    ensures Leads(env, y, [], y)
  {
  }

  lemma OneMove(env: Env, y: System, m: Move)
    requires Enabled(y, m)
    ensures Leads(env, y, [m], Next(env, y, m))
  {
    assert [m][1..] == [];
  }

  lemma ShortAfter(env: Env, s: State, ph: Phase)
    requires ShortAnswer(ph)
    ensures ShortAnswer(AfterLine(env, s, ph))
  {
  }

  lemma HearOne(env: Env, j: Job, y: System, ph: Phase) returns (next: Phase)
    requires Spelled(env) && On(env, j, y, ph) && Enabled(y, Hear)
    ensures On(env, j, Next(env, y, Hear), next)
  {
    next := HearKeeps(env, j, y, ph);
    ShortAfter(env, y.c.s, ph);
  }

  lemma {:induction false} ReadIsHears(env: Env, j: Job, y: System, ph: Phase, n: nat)
    returns (ms: seq<Move>, last: Phase)
    requires Spelled(env) && On(env, j, y, ph) && n <= |y.srv.out| && (n > 0 ==> Enabled(y, Hear))
    ensures Leads(env, y, ms, Fed(env, y, n)) && On(env, j, Fed(env, y, n), last)
    decreases n
  {
    ms, last := [], ph;
    if n == 0 {
      FedNone(env, y);
      NoMove(env, y);
    } else {
      var next := HearOne(env, j, y, ph);
      if n > 1 {
        HearsOn(env, j, y, ph);
      }
      FedOne(env, y, n);
      var rest;
      rest, last := ReadIsHears(env, j, Next(env, y, Hear), next, n - 1);
      OneMore(env, y, Hear, rest, Fed(env, y, n));
      ms := [Hear] + rest;
    }
  }

  // ----- a round is a run of moves -----

  lemma WriteIsSend(env: Env, j: Job, y: System, ph: Phase, k: nat) returns (next: Phase)
    requires On(env, j, y, ph) && Offers(y, Engine(Write(k)))
    ensures Turn(env, y, Engine(Write(k))) == Next(env, y, Send(k)) && On(env, j, Next(env, y, Send(k)), next)
  {
    next := SendKeeps(env, j, y, ph, k);
  }

  /** A read that is offered takes at least one byte. */
  lemma ReadIsFed(env: Env, j: Job, y: System, ph: Phase, k: nat) returns (n: nat)
    requires On(env, j, y, ph) && Offers(y, Engine(Read(k)))
    ensures 0 < n <= |y.srv.out| && Turn(env, y, Engine(Read(k))) == Fed(env, y, n)
  {
    HearAhead(env, y);
    Room(env, j, y.c, Ahead(y), ph);
    n := ReadSize(Session(y.c, y.srv.out), k);
    assert y.wire + "" == y.wire;
  }

  lemma TurnIsMoves(env: Env, j: Job, y: System, ph: Phase, r: Round) returns (ms: seq<Move>, last: Phase)
    requires Spelled(env) && On(env, j, y, ph)
    ensures Leads(env, y, ms, Turn(env, y, r)) && On(env, j, Turn(env, y, r), last)
  {
    ms, last := [], ph;
    if !Offers(y, r) {
      NoMove(env, y);
    } else {
      match r {
        case Engine(Write(k)) =>
          last := WriteIsSend(env, j, y, ph, k);
          OneMove(env, y, Send(k));
          ms := [Send(k)];
        case Engine(Read(k)) =>
          var n := ReadIsFed(env, j, y, ph, k);
          ms, last := ReadIsHears(env, j, y, ph, n);
        case Serving =>
          WorkAhead(env, y);
          OneMove(env, y, Work);
          ms := [Work];
      }
    }
  }

  lemma {:induction false} LeadsOn(env: Env, y: System, a: seq<Move>, x: System, b: seq<Move>, z: System)
    requires Leads(env, y, a, x) && Leads(env, x, b, z)
    ensures Leads(env, y, a + b, z)
    decreases |a|
  {
    if a == [] {
      assert a + b == b;
    } else {
      assert (a + b)[1..] == a[1..] + b;
      LeadsOn(env, Next(env, y, a[0]), a[1..], x, b, z);
    }
  }

  /** Every session of `run`, its reads as large as they may be, is a run of single moves, each possible when
      its turn comes. */
  lemma {:induction false} RoundsAreMoves(env: Env, j: Job, y: System, ph: Phase, rs: seq<Round>)
    returns (ms: seq<Move>, last: Phase)
    requires Spelled(env) && On(env, j, y, ph)
    ensures Leads(env, y, ms, RunRounds(env, y, rs)) && On(env, j, RunRounds(env, y, rs), last)
    decreases |rs|
  {
    ms, last := [], ph;
    if rs == [] {
      NoMove(env, y);
    } else {
      var first, next := TurnIsMoves(env, j, y, ph, rs[0]);
      var rest;
      rest, last := RoundsAreMoves(env, j, Turn(env, y, rs[0]), next, rs[1..]);
      LeadsOn(env, y, first, Turn(env, y, rs[0]), rest, RunRounds(env, y, rs));
      ms := first + rest;
    }
  }

  /** So a whole upload, read in buffers: nothing is discarded, the only error is the one for an existing
      file, which stays as it was, and a finished upload equals all the data. */
  lemma SessionIsExact(env: Env, y: System, permissions: int, overwrite: bool, ls: seq<string>, rs: seq<Round>)
    requires Spelled(env) && env.path != "" && AtRest(env, y, ls) && Short(ls)
    ensures var z := RunRounds(env, Begin(env, y, permissions, overwrite), rs);
            && z.c.s.out.lost == 0
            && z.c.s.failed in {None, Some(FileAlreadyExist)}
            && (z.c.s.failed.Some? ==> Ahead(z).file == y.srv.file)
            && (!z.c.s.isRunning && z.c.s.failed.None? ==> Ahead(z).file == Concat(y.c.s.put.uploads))
  {
    BeginsInCheck(env, y, permissions, overwrite, ls);
    var start := Begin(env, y, permissions, overwrite);
    var ms, last := RoundsAreMoves(env, JobOf(y), start, Check(ls), rs);
    UploadIsExact(env, y, permissions, overwrite, ls, ms);
  }

  // ----- between two bytes of the server the rounds are the loop of `run` -----

  function Engines(script: seq<Io>): seq<Round>
    decreases |script|
  {
    if script == [] then [] else [Engine(script[0])] + Engines(script[1..])
  }

  predicate AllOffered(env: Env, y: System, rs: seq<Round>)
    decreases |rs|
  {
    rs == [] || (Offers(y, rs[0]) && AllOffered(env, Turn(env, y, rs[0]), rs[1..]))
  }

  lemma {:induction false} EnginesAreTheLoop(env: Env, y: System, script: seq<Io>)
    requires AllOffered(env, y, Engines(script))
    ensures var z := RunRounds(env, y, Engines(script));
            RunLoop(ByteStep(env), Session(y.c, y.srv.out), script) == Session(z.c, z.srv.out)
    decreases |script|
  {
    if script != [] {
      var rs := Engines(script);
      assert rs[0] == Engine(script[0]) && rs[1..] == Engines(script[1..]);
      EnginesAreTheLoop(env, Turn(env, y, rs[0]), script[1..]);
    }
  }
}
