/** That an upload ends: every move that does something brings the engine and the server closer to the
    end of the chain, in whatever order the moves are made (fish/fish.cpp:1469-1578). */
module FishEnding {
  import opened Text
  import opened FishModel
  import opened FishStream
  import opened FishUpload
  import S = FishServer

  /** Bytes are heard, read, or written, or an emptied buffer is reported to `sent`. */
  predicate Productive(y: System, m: Move) {
    Enabled(y, m) && (m.Send? ==> m.k > 0 || y.c.s.out.outBufPos + m.k == |y.c.s.out.outBuf|)
  }

  // ----- the measure -----

  function StageRank(stage: Stage): nat {
    match stage case Announced => 3 case Told => 2 case Data => 1 case Padded => 0
  }

  /** What is left of the chain. */
  function Rank(j: Job, ph: Phase): int {
    match ph
    case Check(ls) => |ls| + 4 * |j.total| + 20
    case Create(stage) => 4 * |j.total| + 10 + StageRank(stage)
    case Block(done, stage) => 4 * (|j.total| - |done|) + 2 + StageRank(stage)
    case Perm => 1
    case Closed => 0
    case Turned => 0
  }

  /** What is left to write of the buffer, being told that it is empty included. */
  function ToWrite(o: Output): nat {
    |Unsent(o)| + if o.outBufPos >= 0 then 1 else 0
  }

  /** Fewer steps of the chain, or fewer bytes to write, to carry over, or to hear, in this order. */
  predicate Closer(j: Job, y: System, ph: Phase, z: System, next: Phase) {
    || 0 <= Rank(j, next) < Rank(j, ph)
    || (next == ph
        && (|| ToWrite(z.c.s.out) < ToWrite(y.c.s.out)
            || (z.c.s.out == y.c.s.out
                && (|z.wire| < |y.wire| || (|z.wire| == |y.wire| && |z.srv.out| < |y.srv.out|)))))
  }

  lemma RankPositive(env: Env, j: Job, c: Conn, a: S.Server, ph: Phase)
    requires In(env, j, c, a, ph)
    ensures Rank(j, ph) >= 0
    ensures ph.Block? ==> |ph.done| + |c.s.put.rawData| <= |j.total| && c.s.put.rawData != ""
  {
  }

  lemma DrainedCloser(env: Env, j: Job, c: Conn, a: S.Server, ph: Phase)
    requires In(env, j, c, a, ph) && c.s.isRunning && c.s.out.outBufPos >= 0
    ensures var next := Drained(j, c.s, ph);
            0 <= Rank(j, next) < Rank(j, ph) || (next == ph && ToWrite(Sent(Emptied(c.s)).out) == 0)
  {
    RankPositive(env, j, c, a, ph);
    if Drained(j, c.s, ph) == ph {
      SentQuiet(Emptied(c.s));
    }
  }

  lemma SendCloser(env: Env, j: Job, y: System, ph: Phase, k: nat) returns (next: Phase)
    requires In(env, j, y.c, Ahead(y), ph) && Productive(y, Send(k))
    ensures var z := Next(env, y, Send(k)); In(env, j, z.c, Ahead(z), next) && Closer(j, y, ph, z, next)
  {
    next := SendKeeps(env, j, y, ph, k);
    var o := y.c.s.out;
    if o.outBufPos + k == |o.outBuf| {
      DrainedCloser(env, j, y.c, Ahead(y), ph);
    }
  }

  lemma LineCloser(env: Env, j: Job, c: Conn, a: S.Server, ph: Phase)
    requires In(env, j, c, a, ph) && c.s.isRunning
    ensures 0 <= Rank(j, AfterLine(env, c.s, ph)) < Rank(j, ph)
  {
    RankPositive(env, j, c, a, ph);
  }

  lemma HearCloser(env: Env, j: Job, y: System, ph: Phase) returns (next: Phase)
    requires Spelled(env) && In(env, j, y.c, Ahead(y), ph) && Enabled(y, Hear)
    ensures var z := Next(env, y, Hear); In(env, j, z.c, Ahead(z), next) && Closer(j, y, ph, z, next)
  {
    next := HearKeeps(env, j, y, ph);
    if y.srv.out[0] == '\n' {
      LineCloser(env, j, y.c, Ahead(y), ph);
    } else {
      assert Sound(y.c.s) && y.c.s.failed.None?;
    }
  }

  /** Every productive move brings the end closer. */
  lemma MoveCloser(env: Env, j: Job, y: System, ph: Phase, m: Move) returns (next: Phase)
    requires Spelled(env) && In(env, j, y.c, Ahead(y), ph) && Productive(y, m)
    ensures var z := Next(env, y, m); In(env, j, z.c, Ahead(z), next) && Closer(j, y, ph, z, next)
  {
    match m {
      case Send(k) => next := SendCloser(env, j, y, ph, k);
      case Work =>
        WorkAhead(env, y);
        next := ph;
      case Hear => next := HearCloser(env, j, y, ph);
    }
  }

  // ----- whole runs -----

  /** Chooses a productive move whenever there is one. */
  ghost predicate Chooses(pick: System -> Move) {
    forall y: System, m: Move {:trigger Productive(y, m)} :: Productive(y, m) ==> Productive(y, pick(y))
  }

  /** For example: hear before anything else, and write all there is. */
  function Eager(y: System): Move {
    if Enabled(y, Hear) then Hear
    else if Enabled(y, Work) then Work
    else Send(if y.c.s.out.outBufPos <= |y.c.s.out.outBuf| then |y.c.s.out.outBuf| - y.c.s.out.outBufPos else 0)
  }

  lemma EagerChooses()
    ensures Chooses(Eager)
  {
    forall y: System, m: Move {:trigger Productive(y, m)} | Productive(y, m) ensures Productive(y, Eager(y)) {
    }
  }

  /** The moves are the ones chosen. */
  predicate Follows(env: Env, y: System, pick: System -> Move, ms: seq<Move>)
    decreases |ms|
  {
    ms == [] || (ms[0] == pick(y) && Follows(env, Next(env, y, ms[0]), pick, ms[1..]))
  }

  lemma Something(env: Env, j: Job, y: System, ph: Phase, pick: System -> Move)
    requires In(env, j, y.c, Ahead(y), ph) && y.c.s.isRunning && Chooses(pick)
    ensures Productive(y, pick(y))
  {
    CanMove(env, j, y, ph);
    var left := |y.c.s.out.outBuf| - y.c.s.out.outBufPos;
    if Enabled(y, Hear) {
      assert Productive(y, Hear);
    } else if Enabled(y, Work) {
      assert Productive(y, Work);
    } else {
      assert Productive(y, Send(left));
    }
  }

  lemma {:induction false} Ends(env: Env, j: Job, y: System, ph: Phase, pick: System -> Move) returns (ms: seq<Move>)
    requires Spelled(env) && In(env, j, y.c, Ahead(y), ph) && Chooses(pick)
    ensures Follows(env, y, pick, ms) && !RunAll(env, y, ms).c.s.isRunning
    decreases Rank(j, ph), ToWrite(y.c.s.out), |y.wire|, |y.srv.out|
  {
    RankPositive(env, j, y.c, Ahead(y), ph);
    ms := [];
    if y.c.s.isRunning {
      Something(env, j, y, ph, pick);
      var next := MoveCloser(env, j, y, ph, pick(y));
      var z := Next(env, y, pick(y));
      var rest := Ends(env, j, z, next, pick);
      ms := [pick(y)] + rest;
      assert ms[1..] == rest;
    }
  }

  /** Whatever productive moves are made, a `put` ends after finitely many: without discarding anything, and
      with the remote file equal to all the data, or untouched if it exists and must not be replaced. */
  lemma UploadEnds(env: Env, y: System, permissions: int, overwrite: bool, ls: seq<string>, pick: System -> Move)
    returns (ms: seq<Move>)
    requires Spelled(env) && env.path != "" && AtRest(env, y, ls) && Chooses(pick)
    ensures Follows(env, Begin(env, y, permissions, overwrite), pick, ms)
    ensures var z := RunAll(env, Begin(env, y, permissions, overwrite), ms);
            && !z.c.s.isRunning && z.c.s.out.lost == 0
            && (if z.c.s.failed.None? then Ahead(z).file == Concat(y.c.s.put.uploads)
                else z.c.s.failed == Some(FileAlreadyExist) && Ahead(z).file == y.srv.file)
  {
    BeginsInCheck(env, y, permissions, overwrite, ls);
    ms := Ends(env, JobOf(y), Begin(env, y, permissions, overwrite), Check(ls), pick);
    UploadIsExact(env, y, permissions, overwrite, ls, ms);
  }

  /** So it does if the engine reads as soon as it may, and writes all it has. */
  lemma EagerUploadEnds(env: Env, y: System, permissions: int, overwrite: bool, ls: seq<string>)
    returns (ms: seq<Move>)
    requires Spelled(env) && env.path != "" && AtRest(env, y, ls)
    ensures Follows(env, Begin(env, y, permissions, overwrite), Eager, ms)
    ensures var z := RunAll(env, Begin(env, y, permissions, overwrite), ms);
            && !z.c.s.isRunning && z.c.s.out.lost == 0
            && (if z.c.s.failed.None? then Ahead(z).file == Concat(y.c.s.put.uploads)
                else z.c.s.failed == Some(FileAlreadyExist) && Ahead(z).file == y.srv.file)
  {
    EagerChooses();
    ms := UploadEnds(env, y, permissions, overwrite, ls, Eager);
  }
}
