/** What a copy on the server comes to when a WRITE is acknowledged without taking all its bytes, as section
    3.3.7 of RFC 1813 allows: the loop goes on by what it has read (nfs/nfsv3.cpp:1109-1159, 1156). */
module NfsShortWrites {
  import opened Text
  import opened NfsFiles
  import opened NfsCopy

  /** How a READ or WRITE of the loop goes: whether it is answered, and how many bytes the server prefers to
      give, or takes whether it answers or not. */
  datatype Reply = Reply(answered: bool, count: nat)

  /** When the list is used up every call is answered, and every WRITE whole. */
  function ReadReply(rs: seq<Reply>): Reply {
    if rs == [] then Reply(true, 0) else rs[0]
  }

  function WriteReply(rs: seq<Reply>, n: nat): Reply {
    if rs == [] then Reply(true, n) else rs[0]
  }

  function Rest(rs: seq<Reply>): seq<Reply> {
    if rs == [] then [] else rs[1..]
  }

  function Took(r: Reply, n: nat): (k: nat)
    ensures k <= n && (k == n <==> r.count >= n)
  {
    if r.count < n then r.count else n
  }

  /** Taking nothing leaves the file as it is. */
  function Put(file: Data, offset: nat, data: Data): Data {
    if data == [] then file else WriteAt(file, offset, data)
  }

  /** How the loop ends: its last write offset, the target, and the replies not used. */
  datatype Loop = Loop(ok: bool, offset: nat, file: Data, rest: seq<Reply>)

  function Left(source: Data, offset: nat): nat {
    if offset < |source| then |source| - offset else 0
  }

  /** One READ and the WRITE behind it: how many bytes came, and how many were taken. */
  datatype Turn = Turn(read: nat, took: nat)

  /** What is next: the end, by a READ that fails or gives nothing, or a turn, its WRITE answered or not. */
  datatype Step = Over(ok: bool, rest: seq<Reply>) | Wrote(ok: bool, turn: Turn, rest: seq<Reply>)

  predicate Fits(source: Data, offset: nat, t: Turn) {
    t.took <= t.read && 0 < t.read && offset + t.read <= |source|
  }

  function Next(source: Data, offset: nat, bufferSize: nat, rs: seq<Reply>): (s: Step)
    ensures s.Over? && s.ok && bufferSize > 0 ==> offset >= |source|
    ensures s.Wrote? ==> Fits(source, offset, s.turn)
  {
    var n := |ReadAt(source, offset, bufferSize, ReadReply(rs).count)|;
    if !ReadReply(rs).answered || n == 0 then Over(ReadReply(rs).answered, Rest(rs))
    else
      var b := WriteReply(Rest(rs), n);
      Wrote(b.answered, Turn(n, Took(b, n)), Rest(Rest(rs)))
  }

  /** What the WRITE of a turn leaves of the file. */
  function Written(source: Data, file: Data, offset: nat, t: Turn): Data
    requires Fits(source, offset, t)
  {
    Put(file, offset, source[offset..offset + t.took])
  }

  function Moves(source: Data, file: Data, offset: nat, bufferSize: nat, rs: seq<Reply>): Loop
    decreases Left(source, offset)
  {
    match Next(source, offset, bufferSize, rs)
    case Over(ok, rest) => Loop(ok, offset, file, rest)
    case Wrote(ok, t, rest) =>
      var written := Written(source, file, offset, t);
      if ok then Moves(source, written, offset + t.read, bufferSize, rest) else Loop(false, offset, written, rest)
  }

  lemma FrontOfSlice(source: Data, offset: nat, n: nat, k: nat)
    requires offset + n <= |source| && k <= n
    ensures source[offset..offset + n][..k] == source[offset..offset + k]
  {
  }

  /** The turn that two calls make. */
  lemma CallsMakeTurn(source: Data, file: Data, offset: nat, bufferSize: nat, rs: seq<Reply>, data: Data)
    requires ReadReply(rs).answered && data == ReadAt(source, offset, bufferSize, ReadReply(rs).count) && data != []
    ensures var b := WriteReply(Rest(rs), |data|);
            var t := Turn(|data|, Took(b, |data|));
            && Fits(source, offset, t) && Next(source, offset, bufferSize, rs) == Wrote(b.answered, t, Rest(Rest(rs)))
            && Put(file, offset, data[..t.took]) == Written(source, file, offset, t)
  {
    FrontOfSlice(source, offset, |data|, Took(WriteReply(Rest(rs), |data|), |data|));
  }

  class Mover {
    const source: Data
    var file: Data
    var replies: seq<Reply>

    constructor (source: Data, file: Data, replies: seq<Reply>)
      ensures this.source == source && this.file == file && this.replies == replies
    {
      this.source, this.file, this.replies := source, file, replies;
    }

    method Read(offset: nat, count: nat) returns (ok: bool, data: Data)
      modifies this`replies
      ensures ok == ReadReply(old(replies)).answered && replies == Rest(old(replies))
      ensures data == ReadAt(source, offset, count, ReadReply(old(replies)).count)
    {
      var r := ReadReply(replies);
      replies := Rest(replies);
      return r.answered, ReadAt(source, offset, count, r.count);
    }

    method Write(offset: nat, data: Data) returns (ok: bool)
      modifies this
      ensures var r := WriteReply(old(replies), |data|);
              && ok == r.answered && file == Put(old(file), offset, data[..Took(r, |data|)])
              && replies == Rest(old(replies))
    {
      var r := WriteReply(replies, |data|);
      file := Put(file, offset, data[..Took(r, |data|)]);
      replies := Rest(replies);
      return r.answered;
    }

    /** nfs/nfsv3.cpp:1109-1159, with one offset for READ and WRITE, which go up together. */
    method TransferData(start: nat, bufferSize: nat) returns (ok: bool, offset: nat)
      modifies this
      ensures Loop(ok, offset, file, replies) == Moves(source, old(file), start, bufferSize, old(replies))
    {
      offset := start;
      while true
        invariant Moves(source, file, offset, bufferSize, replies)
               == Moves(source, old(file), start, bufferSize, old(replies))
        decreases Left(source, offset)
      {
        ghost var rs := replies;
        var answered, data := Read(offset, bufferSize);
        if !answered {
          return false, offset;
        }
        if |data| == 0 {
          return true, offset;
        }
        CallsMakeTurn(source, file, offset, bufferSize, rs, data);
        var written := Write(offset, data);
        if !written {
          return false, offset;
        }
        offset := offset + |data|;
      }
    }
  }

  // ----- what the loop has stored -----

  function Turns(source: Data, offset: nat, bufferSize: nat, rs: seq<Reply>): seq<Turn>
    decreases Left(source, offset)
  {
    match Next(source, offset, bufferSize, rs)
    case Over(_, _) => []
    case Wrote(ok, t, rest) => [t] + if ok then Turns(source, offset + t.read, bufferSize, rest) else []
  }

  /** The turns go through the rest of the source. */
  predicate Covers(source: Data, offset: nat, ts: seq<Turn>)
    decreases |ts|
  {
    if ts == [] then offset == |source|
    else Fits(source, offset, ts[0]) && Covers(source, offset + ts[0].read, ts[1..])
  }

  function Stores(source: Data, file: Data, offset: nat, ts: seq<Turn>): Data
    requires Covers(source, offset, ts)
    decreases |ts|
  {
    if ts == [] then file
    else Stores(source, Written(source, file, offset, ts[0]), offset + ts[0].read, ts[1..])
  }

  lemma FirstTurn(source: Data, file: Data, offset: nat, t: Turn, ts: seq<Turn>)
    requires Fits(source, offset, t)
    ensures Covers(source, offset, [t] + ts) <==> Covers(source, offset + t.read, ts)
    ensures Covers(source, offset, [t] + ts) ==>
              Stores(source, file, offset, [t] + ts)
              == Stores(source, Written(source, file, offset, t), offset + t.read, ts)
  {
    assert ([t] + ts)[1..] == ts;
  }

  /** A loop that ends well has gone through the source and stored what was taken. */
  predicate Leaves(source: Data, offset: nat, file: Data, r: Loop, ts: seq<Turn>) {
    r.ok ==> Covers(source, offset, ts) && r.file == Stores(source, file, offset, ts)
  }

  lemma TurnLeaves(source: Data, offset: nat, file: Data, r: Loop, t: Turn, ts: seq<Turn>)
    requires Fits(source, offset, t) && Leaves(source, offset + t.read, Written(source, file, offset, t), r, ts)
    ensures Leaves(source, offset, file, r, [t] + ts)
  {
    FirstTurn(source, file, offset, t, ts);
  }

  lemma {:induction false} LoopStores(source: Data, file: Data, offset: nat, bufferSize: nat, rs: seq<Reply>)
    requires offset <= |source| && bufferSize > 0
    ensures Leaves(source, offset, file, Moves(source, file, offset, bufferSize, rs),
                   Turns(source, offset, bufferSize, rs))
    decreases Left(source, offset)
  {
    match Next(source, offset, bufferSize, rs) {
      case Over(_, _) =>
      case Wrote(ok, t, rest) =>
        var written, end := Written(source, file, offset, t), offset + t.read;
        if ok {
          LoopStores(source, written, end, bufferSize, rest);
          TurnLeaves(source, offset, file, Moves(source, written, end, bufferSize, rest), t,
                     Turns(source, end, bufferSize, rest));
        }
    }
  }

  // ----- when that is the source -----

  /** The file with zeros behind its end. */
  function Padded(file: Data, n: nat): (d: Data)
    requires |file| <= n
    ensures |d| == n
  {
    file + Zeros(n - |file|)
  }

  predicate Blank(d: Data) {
    forall i :: 0 <= i < |d| ==> d[i] == ZERO
  }

  /** The file is no longer than the offset, and as long at the end of the source. */
  predicate Reached(source: Data, file: Data, offset: nat) {
    |file| <= offset <= |source| && (offset == |source| ==> |file| == offset)
  }

  /** Up to the offset the padded file is the source. */
  predicate Agreed(source: Data, file: Data, offset: nat)
    requires |file| <= offset <= |source|
  {
    Padded(file, offset) == source[..offset]
  }

  /** One WRITE of `took` bytes out of `read`, padded before and after. */
  lemma PutPadded(source: Data, file: Data, offset: nat, t: Turn)
    requires |file| <= offset && Fits(source, offset, t)
    ensures var f := Written(source, file, offset, t);
            && |f| <= offset + t.took && (t.took > 0 ==> |f| == offset + t.took)
            && Padded(f, offset + t.read)
            == Padded(file, offset) + source[offset..offset + t.took] + Zeros(t.read - t.took)
  {
  }

  /** What is there is as in the source exactly if it was before and what was left is zero. */
  lemma PutAgrees(source: Data, file: Data, offset: nat, t: Turn)
    requires |file| <= offset && Fits(source, offset, t)
    ensures var f := Written(source, file, offset, t);
            && |f| <= offset + t.read
            && (Agreed(source, f, offset + t.read) <==>
                Agreed(source, file, offset) && Blank(source[offset + t.took..offset + t.read]))
  {
    PutPadded(source, file, offset, t);
    Joined(source, Padded(file, offset), source[offset..offset + t.took], offset + t.read);
  }

  /** The beginning of the source, from what it was, what came, and zeros. */
  lemma Joined(source: Data, front: Data, took: Data, end: nat)
    requires |front| + |took| <= end <= |source| && took == source[|front|..|front| + |took|]
    ensures front + took + Zeros(end - |front| - |took|) == source[..end]
         <==> front == source[..|front|] && Blank(source[|front| + |took|..end])
  {
    var all := front + took + Zeros(end - |front| - |took|);
    if all == source[..end] {
      assert front == all[..|front|] == source[..|front|];
      assert forall i :: |front| + |took| <= i < end ==> source[i] == all[i] == ZERO;
    }
    if front == source[..|front|] && Blank(source[|front| + |took|..end]) {
      forall i | 0 <= i < end ensures all[i] == source[i] {
        if i >= |front| + |took| {
          assert source[i] == source[|front| + |took|..end][i - |front| - |took|];
        }
      }
    }
  }

  /** Every byte a WRITE leaves is zero, and the WRITE that reaches the end of the source leaves none. */
  predicate Harmless(source: Data, offset: nat, ts: seq<Turn>)
    requires Covers(source, offset, ts)
    decreases |ts|
  {
    ts == [] ||
    (&& Blank(source[offset + ts[0].took..offset + ts[0].read])
     && (offset + ts[0].read == |source| ==> ts[0].took == ts[0].read)
     && Harmless(source, offset + ts[0].read, ts[1..]))
  }

  /** Nothing before the offset is changed any more. */
  lemma {:induction false} EarlierStays(source: Data, file: Data, offset: nat, ts: seq<Turn>)
    requires Covers(source, offset, ts) && |file| <= offset && !Agreed(source, file, offset)
    ensures Stores(source, file, offset, ts) != source
    decreases |ts|
  {
    if ts == [] {
      assert source[..|source|] == source;
    } else {
      PutAgrees(source, file, offset, ts[0]);
      EarlierStays(source, Written(source, file, offset, ts[0]), offset + ts[0].read, ts[1..]);
    }
  }

  /** The turns leave the source exactly if they began with its beginning and did no harm. */
  lemma {:induction false} StoresExactly(source: Data, file: Data, offset: nat, ts: seq<Turn>)
    requires Covers(source, offset, ts) && Reached(source, file, offset)
    ensures Stores(source, file, offset, ts) == source <==> Agreed(source, file, offset) && Harmless(source, offset, ts)
    decreases |ts|
  {
    if ts == [] {
      assert source[..|source|] == source && Padded(file, offset) == file;
    } else {
      var t := ts[0];
      var f, end := Written(source, file, offset, t), offset + t.read;
      PutPadded(source, file, offset, t);
      PutAgrees(source, file, offset, t);
      if end == |source| {
        assert ts[1..] == [];
        if t.took == t.read {
          StoresExactly(source, f, end, ts[1..]);
        }
      } else {
        StoresExactly(source, f, end, ts[1..]);
      }
    }
  }

  // ----- a whole attempt -----

  /** An attempt whose loop goes by `rs`; all other calls go by the server's own list. */
  function ShortCopy(source: Data, s: Server, p: Plan, rs: seq<Reply>): Attempt {
    var destExists := Look(s, s.dest);
    if destExists.ok && !p.overwrite then Attempt(AlreadyExists, false, destExists.s)
    else
      var ready := Prepare(destExists.s, p);
      if !ready.ok then Attempt(Broken, false, ready.s)
      else
        PreparedTarget(destExists.s, p);
        var file := Target(ready.s, p.marked).value;
        var r := Moves(source, file, |file|, p.bufferSize, rs);
        Finish(Moved(r.ok, r.offset, WithTarget(ready.s, p.marked, r.file)), p, ready.resumed)
  }

  lemma PreparedTarget(s: Server, p: Plan)
    ensures var r := Prepare(s, p);
            && (r.resumed ==> r.ok && p.marked && s.part.Some? && r.s.part == s.part)
            && (r.ok && !r.resumed ==> Target(r.s, p.marked) == Some([]))
  {
  }

  /** nfs/nfsv3.cpp:970-1185, the WRITEs of the loop taking what they take. */
  method Copy(c: Copier, p: Plan, rs: seq<Reply>) returns (outcome: Outcome, resumed: bool)
    modifies c
    ensures Attempt(outcome, resumed, c.Now()) == ShortCopy(c.source, old(c.Now()), p, rs)
  {
    var destExists := c.LookFor(c.dest);
    if destExists && !p.overwrite {
      return AlreadyExists, false;
    }
    PreparedTarget(c.Now(), p);
    var ready;
    ready, resumed := c.PrepareTarget(p);
    if !ready {
      return Broken, false;
    }
    var start := if p.marked then c.part.value else c.dest.value;
    var mover := new Mover(c.source, start, rs);
    var ok, offset := mover.TransferData(|start|, p.bufferSize);
    c.ChangeTarget(p.marked, mover.file);
    if !ok {
      if p.marked && offset < p.minimumKeepSize {
        var removed := c.CallRemovePart();
      }
      return Broken, resumed;
    }
    if p.marked {
      var renamed := c.ReplaceDest();
      if !renamed {
        return CannotRenamePartial, resumed;
      }
    }
    return Copied, resumed;
  }

  /** Where the loop of an attempt begins. */
  function Start(part: Option<Data>, resumed: bool): Data {
    if resumed && part.Some? then part.value else []
  }

  /** The loop begins with the source's beginning, and its WRITEs do no harm. */
  predicate Safe(source: Data, start: Data, bufferSize: nat, rs: seq<Reply>) {
    var ts := Turns(source, |start|, bufferSize, rs);
    start <= source && Covers(source, |start|, ts) && Harmless(source, |start|, ts)
  }

  lemma StartExactly(source: Data, start: Data, bufferSize: nat, rs: seq<Reply>)
    requires bufferSize > 0
    ensures var r := Moves(source, start, |start|, bufferSize, rs);
            r.ok ==> (r.file == source <==> Safe(source, start, bufferSize, rs))
  {
    if |start| <= |source| {
      LoopStores(source, start, |start|, bufferSize, rs);
      assert Padded(start, |start|) == start;
      assert Agreed(source, start, |start|) <==> start <= source;
      if Moves(source, start, |start|, bufferSize, rs).ok {
        StoresExactly(source, start, |start|, Turns(source, |start|, bufferSize, rs));
      }
    }
  }

  lemma FinishedAs(m: NfsCopy.Moved, p: Plan, resumed: bool, file: Data)
    requires Target(m.s, p.marked) == Some(file)
    ensures var r := Finish(m, p, resumed);
            r.resumed == resumed && (r.outcome == Copied ==> m.ok && r.s.dest == Some(file))
  {
    if m.ok && p.marked {
      ReplaceResult(m.s);
    }
  }

  /** A copy reported as done is the source exactly if what it resumed was the source's beginning, every byte
      its WRITEs left is zero, and the last one left none. */
  lemma CopyExactly(source: Data, s: Server, p: Plan, rs: seq<Reply>)
    requires p.bufferSize > 0
    ensures var r := ShortCopy(source, s, p, rs);
            r.outcome == Copied ==>
              (r.s.dest == Some(source) <==> Safe(source, Start(s.part, r.resumed), p.bufferSize, rs))
  {
    var destExists := Look(s, s.dest);
    if !(destExists.ok && !p.overwrite) {
      var ready := Prepare(destExists.s, p);
      PreparedTarget(destExists.s, p);
      if ready.ok {
        var start := Target(ready.s, p.marked).value;
        assert start == Start(s.part, ready.resumed);
        var r := Moves(source, start, |start|, p.bufferSize, rs);
        StartExactly(source, start, p.bufferSize, rs);
        FinishedAs(Moved(r.ok, r.offset, WithTarget(ready.s, p.marked, r.file)), p, ready.resumed, r.file);
      }
    }
  }

  // ----- WRITEs that are whole -----

  predicate AllWhole(ts: seq<Turn>) {
    forall i :: 0 <= i < |ts| ==> ts[i].took == ts[i].read
  }

  lemma {:induction false} WholeIsHarmless(source: Data, offset: nat, ts: seq<Turn>)
    requires Covers(source, offset, ts) && AllWhole(ts)
    ensures Harmless(source, offset, ts)
    decreases |ts|
  {
    if ts != [] {
      WholeIsHarmless(source, offset + ts[0].read, ts[1..]);
    }
  }

  /** The calls of the loop as module NfsCopy takes them: every acknowledged WRITE is whole. */
  function Plain(answers: seq<Answer>, bufferSize: nat): seq<Reply>
    decreases |answers|
  {
    if answers == [] then []
    else if |answers| == 1 then [Reply(answers[0].answered, answers[0].wish)]
    else
      var w := answers[1];
      var count := if w.answered then bufferSize else if w.done then w.wish else 0;
      [Reply(answers[0].answered, answers[0].wish), Reply(w.answered, count)] + Plain(answers[2..], bufferSize)
  }

  lemma PlainReplies(s: Server, bufferSize: nat, data: Data)
    requires |data| <= bufferSize
    ensures var rs := Plain(s.answers, bufferSize);
            var b, w := WriteReply(Rest(rs), |data|), Answered(After(s));
            && ReadReply(rs).answered == Answered(s).answered && ReadReply(rs).count == Answered(s).wish
            && b.answered == w.answered && data[..Took(b, |data|)] == Stored(w, data)
            && Rest(Rest(rs)) == Plain(After(After(s)).answers, bufferSize)
  {
  }

  lemma PutAtEnd(file: Data, data: Data)
    ensures Put(file, |file|, data) == WriteAt(file, |file|, data) == file + data
  {
  }

  /** What both loops come to. */
  predicate Same(m: NfsCopy.Moved, r: Loop, marked: bool) {
    m.ok == r.ok && m.offset == r.offset && Target(m.s, marked) == Some(r.file)
  }

  lemma SameTurn(source: Data, s: Server, marked: bool, bufferSize: nat, data: Data)
    requires Begun(source, s, marked) && Answered(s).answered && data != []
    requires data == ReadAt(source, |Target(s, marked).value|, bufferSize, Answered(s).wish)
    ensures var file, rs := Target(s, marked).value, Plain(s.answers, bufferSize);
            var w, t := Append(After(s), marked, data), Next(source, |file|, bufferSize, rs);
            && t.Wrote? && t.turn.read == |data| && t.ok == w.ok && (t.ok ==> t.turn.took == |data|)
            && Target(w.s, marked) == Some(Written(source, file, |file|, t.turn))
            && t.rest == Plain(w.s.answers, bufferSize)
            && (w.ok ==> Begun(source, w.s, marked) && |Target(w.s, marked).value| == |file| + |data|)
  {
    var file, rs := Target(s, marked).value, Plain(s.answers, bufferSize);
    PlainReplies(s, bufferSize, data);
    CallsMakeTurn(source, file, |file|, bufferSize, rs, data);
    PutAtEnd(file, Stored(Answered(After(s)), data));
    Extends(file, source, data);
  }

  predicate SameWhole(m: NfsCopy.Moved, r: Loop, ts: seq<Turn>, marked: bool) {
    Same(m, r, marked) && (r.ok ==> AllWhole(ts))
  }

  lemma OneMoreWhole(m: NfsCopy.Moved, r: Loop, t: Turn, ts: seq<Turn>, marked: bool)
    requires SameWhole(m, r, ts, marked) && t.took == t.read
    ensures SameWhole(m, r, [t] + ts, marked)
  {
  }

  /** Then the loop is the one of NfsCopy. */
  lemma {:induction false} WholeIsTransfer(source: Data, s: Server, marked: bool, bufferSize: nat)
    requires Begun(source, s, marked)
    ensures var file, rs := Target(s, marked).value, Plain(s.answers, bufferSize);
            SameWhole(Transfer(source, s, marked, bufferSize), Moves(source, file, |file|, bufferSize, rs),
                      Turns(source, |file|, bufferSize, rs), marked)
    decreases |source| - |Target(s, marked).value|
  {
    var file, rs := Target(s, marked).value, Plain(s.answers, bufferSize);
    var data := ReadAt(source, |file|, bufferSize, Answered(s).wish);
    PlainReplies(s, bufferSize, data);
    if Answered(s).answered && data != [] {
      SameTurn(source, s, marked, bufferSize, data);
      var w, t := Append(After(s), marked, data), Next(source, |file|, bufferSize, rs).turn;
      if w.ok {
        WholeIsTransfer(source, w.s, marked, bufferSize);
        var written, later := Target(w.s, marked).value, Plain(w.s.answers, bufferSize);
        OneMoreWhole(Transfer(source, w.s, marked, bufferSize), Moves(source, written, |written|, bufferSize, later), t,
                     Turns(source, |written|, bufferSize, later), marked);
      }
    }
  }
}
