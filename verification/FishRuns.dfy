/** Whole runs of the command queue: commands leave in the order they were queued, one per
    final reply, and a check before a write guards it (fish/fish.cpp:1100-1236, 1407-1467,
    1655-1753). A run is any interleaving of reply lines with partial writes. */
module FishRuns {
  import opened Text
  import opened FishCommands
  import opened FishModel

  datatype Event = Reply(line: string) | Wrote(k: nat)

  /** The chain has ended in an error, or the connection is gone. */
  predicate Over(s: State) {
    s.failed.Some? || !s.connected
  }

  /** One event; nothing happens any more when it is over. */
  function Advance(env: Env, s: State, e: Event): State {
    if Over(s) then s
    else match e
      case Reply(line) => ManageLine(env, s, line)
      case Wrote(k) => if s.out.outBufPos < 0 then s else Flush(s, k)
  }

  function Run(env: Env, s: State, es: seq<Event>): State
    decreases |es|
  {
    if es == [] then s else Run(env, Advance(env, s, es[0]), es[1..])
  }

  /** The event is a result that ends a command. */
  predicate IsFinal(s: State, e: Event) {
    e.Reply? && !Over(s) && Code(e.line, s.errorCount) !in {0, 100}
  }

  function Finals(env: Env, s: State, es: seq<Event>): nat
    decreases |es|
  {
    if es == [] then 0 else (if IsFinal(s, es[0]) then 1 else 0) + Finals(env, Advance(env, s, es[0]), es[1..])
  }

  // ----- order -----

  /** Issued and waiting commands together are the queued ones, in order; after an error or
      a shutdown the issued ones are still a prefix of them. */
  ghost predicate InOrder(q: Queue) {
    && Paired(q)
    && (q.commandList != [] ==> q.issued + q.commandList == q.queued)
    && q.issued <= q.queued
  }

  /** How one step may change the queue: nothing goes out, or the first waiting command. */
  ghost predicate QueueStep(q: Queue, r: Queue, final: bool) {
    && InOrder(r)
    && q.queued <= r.queued
    && (r.issued == q.issued || (final && |r.issued| == |q.issued| + 1 && q.issued <= r.issued))
  }

  lemma FinishedOrder(s: State)
    requires InOrder(s.queue)
    ensures QueueStep(s.queue, Finished(s).queue, true)
  {
    var q := s.queue;
    if q.commandList != [] {
      assert q.issued + q.commandList == (q.issued + [q.commandList[0]]) + q.commandList[1..];
      assert PopCommand(q).issued <= q.queued;
    }
  }

  lemma SendOrder(env: Env, q: Queue, cmd: Command, args: seq<string>)
    requires InOrder(q) && (q.commandList == [] ==> q.issued == q.queued)
    ensures var r := SendCommand(env, q, cmd, args);
            InOrder(r) && r.issued == q.issued && q.queued <= r.queued
  {
    var text := env.text(cmd, args);
    assert (q.issued + q.commandList) + [text] == q.issued + (q.commandList + [text]);
    assert q.issued <= q.queued + [text];
  }

  /** While the chain runs, nothing was dropped: issued and waiting are all there is. */
  ghost predicate Complete(s: State) {
    !Over(s) ==> s.queue.issued + s.queue.commandList == s.queue.queued
  }

  lemma NextQueueOrder(env: Env, cmd: Command, q: Queue, p: Put)
    requires InOrder(q) && q.issued + q.commandList == q.queued
    ensures var r := NextQueue(env, cmd, q, p);
            InOrder(r) && r.issued + r.commandList == r.queued && r.issued == q.issued && q.queued <= r.queued
  {
    var n := |p.rawData|;
    if n > 0 {
      if cmd == APPEND {
        SendOrder(env, q, APPEND, [Dec(n), env.path]);
      } else {
        SendOrder(env, q, WRITE, [Dec(p.putPos), Dec(n), env.path]);
      }
    } else if !p.checkExist && p.putPerm > -1 {
      SendOrder(env, q, CHMOD, [Octal(p.putPerm), env.path]);
    }
  }

  lemma FinishedComplete(s: State)
    requires InOrder(s.queue) && s.queue.issued + s.queue.commandList == s.queue.queued
    ensures Finished(s).queue.issued + Finished(s).queue.commandList == Finished(s).queue.queued
    ensures Finished(s).queue.queued == s.queue.queued
  {
    var q := s.queue;
    if q.commandList != [] {
      assert q.issued + q.commandList == (q.issued + [q.commandList[0]]) + q.commandList[1..];
    }
  }

  lemma DoneOrder(env: Env, s: State)
    requires InOrder(s.queue) && Complete(s) && !Over(s)
    ensures QueueStep(s.queue, Done(env, s).queue, true) && Complete(Done(env, s))
  {
    var t := Promoted(s);
    if Blocked(t) {
    } else if t.fishCommand == APPEND || t.fishCommand == WRITE {
      NextQueueOrder(env, t.fishCommand, t.queue, ReadData(t.put));
      FinishedOrder(NextBlock(env, t));
      FinishedComplete(NextBlock(env, t));
    } else {
      var u := t.(calls := t.calls + DoneCalls(t.fishCommand));
      FinishedOrder(u);
      FinishedComplete(u);
    }
  }

  lemma RefusedOrder(s: State, code: int)
    requires InOrder(s.queue) && Complete(s) && !Over(s)
    ensures QueueStep(s.queue, Refused(s, code).queue, true) && Complete(Refused(s, code))
  {
    var a := s.(calls := s.calls + [MimeType("inode/directory")],
          input := s.input.(mimeTypeSent := true, recvLen := 0));
    var b := s.(put := s.put.(checkExist := false));
    FinishedOrder(a);
    FinishedComplete(a);
    FinishedOrder(b);
    FinishedComplete(b);
  }

  lemma BodyOrder(s: State, line: string)
    requires InOrder(s.queue) && Complete(s) && !Over(s)
    ensures QueueStep(s.queue, Body(s, line).queue, false) && Complete(Body(s, line))
  {
  }

  lemma PreliminaryOrder(env: Env, s: State)
    requires InOrder(s.queue) && Complete(s) && !Over(s)
    ensures QueueStep(s.queue, Preliminary(env, s).queue, false) && Complete(Preliminary(env, s))
  {
  }

  lemma AdvanceOrder(env: Env, s: State, e: Event)
    requires InOrder(s.queue) && Complete(s)
    ensures var t := Advance(env, s, e);
            QueueStep(s.queue, t.queue, IsFinal(s, e)) && Complete(t)
  {
    if !Over(s) && e.Reply? {
      var code, t := Code(e.line, s.errorCount), Heard(s, e.line);
      if code == 0 {
        BodyOrder(t, e.line);
      } else if code == 100 {
        PreliminaryOrder(env, t);
      } else if Success(code) {
        DoneOrder(env, t);
      } else {
        RefusedOrder(t, code);
      }
    }
  }

  /** Over every run: the queue stays paired and in order, nothing that was issued is taken
      back, and never more commands go out than final replies have come in. */
  lemma {:induction false} RunInOrder(env: Env, s: State, es: seq<Event>)
    requires InOrder(s.queue) && Complete(s)
    ensures var t := Run(env, s, es);
            && InOrder(t.queue) && Complete(t)
            && s.queue.issued <= t.queue.issued
            && |t.queue.issued| <= |s.queue.issued| + Finals(env, s, es)
    decreases |es|
  {
    if es != [] {
      AdvanceOrder(env, s, es[0]);
      RunInOrder(env, Advance(env, s, es[0]), es[1..]);
    }
  }

  // ----- the check before a write -----

  /** A CHECK LIST is out, nothing may be overwritten, and the write waits behind it. */
  predicate Checking(s: State) {
    && !Over(s)
    && s.fishCommand == LIST && s.put.listCheck && !s.put.checkOverwrite
    && s.out.rawWrite < 0
    && Paired(s.queue) && s.queue.commandList != []
  }

  /** A blank line in the reply: the end of the description of an entry. */
  predicate EntryEnds(e: Event) {
    e == Reply("")
  }

  predicate NoFinals(env: Env, s: State, es: seq<Event>)
    decreases |es|
  {
    es == [] || (!IsFinal(s, es[0]) && NoFinals(env, Advance(env, s, es[0]), es[1..]))
  }

  lemma CheckingStep(env: Env, s: State, e: Event)
    requires Checking(s) && !IsFinal(s, e)
    ensures var t := Advance(env, s, e);
            && Checking(t) && t.queue == s.queue
            && (t.put.checkExist <==> s.put.checkExist || EntryEnds(e))
  {
    match e {
      case Reply(line) =>
        if line == "" { assert !IsResult(""); }
      case Wrote(k) =>
    }
  }

  lemma {:induction false} CheckingRun(env: Env, s: State, es: seq<Event>)
    requires Checking(s) && NoFinals(env, s, es)
    ensures var t := Run(env, s, es);
            && Checking(t) && t.queue == s.queue
            && (t.put.checkExist <==> s.put.checkExist || exists i :: 0 <= i < |es| && EntryEnds(es[i]))
    decreases |es|
  {
    if es != [] {
      CheckingStep(env, s, es[0]);
      CheckingRun(env, Advance(env, s, es[0]), es[1..]);
      assert forall i :: 0 < i < |es| ==> es[i] == es[1..][i - 1];
    }
  }

  lemma {:induction false} OverStays(env: Env, s: State, es: seq<Event>)
    requires Over(s)
    ensures Run(env, s, es) == s
    decreases |es|
  {
    if es != [] {
      OverStays(env, s, es[1..]);
    }
  }

  /** The guard, exactly. Let the reply to the CHECK LIST be `es` and the result line. The
      guarded command goes out just when the result is no success or no entry is known to
      exist; otherwise the chain fails and nothing goes out any more, whatever follows. */
  lemma GuardedWrite(env: Env, s: State, es: seq<Event>, line: string, rest: seq<Event>)
    requires Checking(s) && NoFinals(env, s, es)
    requires IsFinal(Run(env, s, es), Reply(line))
    ensures var before := Run(env, s, es);
            var after := Advance(env, before, Reply(line));
            var found := s.put.checkExist || exists i :: 0 <= i < |es| && EntryEnds(es[i]);
            if Success(Code(line, before.errorCount)) && found then
              && after.failed == Some(FileAlreadyExist)
              && Run(env, after, rest).queue.issued == s.queue.issued
            else
              && after.failed.None?
              && after.queue.issued == s.queue.issued + [s.queue.commandList[0]]
              && after.fishCommand == s.queue.commandCodes[0]
  {
    CheckingRun(env, s, es);
    var after := Advance(env, Run(env, s, es), Reply(line));
    if after.failed.Some? {
      OverStays(env, after, rest);
    }
  }

  // ----- the operations that queue -----

  /** `put` (fish/fish.cpp:1407-1437) */
  function QueuePut(env: Env, s: State, permissions: int, overwrite: bool): State {
    if env.path == "" then s.(queue := SendCommand(env, s.queue, PWD, []))
    else
      s.(put := s.put.(putPerm := permissions, checkOverwrite := overwrite, checkExist := false, putPos := 0,
            listCheck := true),
         queue := SendCommand(env, SendCommand(env, s.queue, LIST, [env.path]), STOR, ["0", env.path]))
  }

  /** `rename`, `symlink` and `copy` (fish/fish.cpp:1655-1680, 1682-1702, 1725-1753); `copy`
      tests its source for the empty path instead of the target. */
  function QueueGuarded(env: Env, s: State, cmd: Command, source: string, permissions: int, overwrite: bool): State
    requires cmd in {RENAME, SYMLINK, COPY}
  {
    if (if cmd == COPY then source else env.path) == "" then s.(queue := SendCommand(env, s.queue, PWD, []))
    else
      var t := if overwrite then s
               else s.(put := s.put.(listCheck := true, checkOverwrite := false),
                       queue := SendCommand(env, s.queue, LIST, [env.path]));
      var u := t.(queue := SendCommand(env, t.queue, cmd, [source, env.path]));
      if cmd == COPY && permissions > -1 then
        u.(queue := SendCommand(env, u.queue, CHMOD, [Octal(permissions), env.path]))
      else u
  }

  /** Between operations. */
  ghost predicate Idle(s: State) {
    && !Over(s) && !s.isRunning && s.queue.commandList == [] && s.queue.commandCodes == []
    && s.queue.issued == s.queue.queued
  }

  function Start(s: State): State {
    Finished(s.(isRunning := true))
  }

  /** The queue `q` holds the check and behind it `cmd`, and nothing of it has been sent. */
  predicate CheckFirst(q: Queue, issued: seq<string>, text: string, cmd: Command) {
    && |q.commandList| == |q.commandCodes| && q.issued == issued && q.queued == issued + q.commandList
    && |q.commandList| > 1 && q.commandList[0] == text && q.commandCodes[0] == LIST && q.commandCodes[1] == cmd
  }

  lemma TwoQueued(env: Env, q: Queue, cmd: Command, args: seq<string>)
    requires q.commandList == [] && q.commandCodes == [] && q.issued == q.queued
    ensures CheckFirst(SendCommand(env, SendCommand(env, q, LIST, [env.path]), cmd, args), q.issued,
          env.text(LIST, [env.path]), cmd)
  {
  }

  lemma OneMore(env: Env, q: Queue, issued: seq<string>, text: string, cmd: Command, more: Command, args: seq<string>)
    requires CheckFirst(q, issued, text, cmd)
    ensures CheckFirst(SendCommand(env, q, more, args), issued, text, cmd)
  {
  }

  lemma CheckStarts(q: State, issued: seq<string>, text: string, cmd: Command)
    requires !Over(q) && q.put.listCheck && !q.put.checkOverwrite && CheckFirst(q.queue, issued, text, cmd)
    ensures var t := Start(q);
            && Checking(t) && InOrder(t.queue) && Complete(t) && t.put == q.put
            && t.queue.issued == issued + [text] && t.queue.commandCodes[0] == cmd
  {
    assert q.queue.commandList == [text] + q.queue.commandList[1..];
  }

  /** Without Overwrite, each of the four operations starts with its check, the write being
      next; only `put` forgets what an earlier check found. */
  lemma GuardedOperations(env: Env, s: State, cmd: Command, source: string, permissions: int)
    requires Idle(s) && env.path != "" && source != "" && cmd in {STOR, RENAME, SYMLINK, COPY}
    ensures var q := if cmd == STOR then QueuePut(env, s, permissions, false)
          else QueueGuarded(env, s, cmd, source, permissions, false);
            var t := Start(q);
            && Checking(t) && InOrder(t.queue) && Complete(t)
            && t.queue.issued == s.queue.issued + [env.text(LIST, [env.path])]
            && t.queue.commandCodes[0] == cmd
            && t.put.checkExist == (if cmd == STOR then false else s.put.checkExist)
  {
    var q := if cmd == STOR then QueuePut(env, s, permissions, false)
          else QueueGuarded(env, s, cmd, source, permissions, false);
    var text := env.text(LIST, [env.path]);
    if cmd == STOR {
      TwoQueued(env, s.queue, STOR, ["0", env.path]);
    } else {
      TwoQueued(env, s.queue, cmd, [source, env.path]);
      OneMore(env, SendCommand(env, SendCommand(env, s.queue, LIST, [env.path]), cmd, [source, env.path]),
            s.queue.issued, text, cmd,
              CHMOD, [Octal(if permissions > -1 then permissions else 0), env.path]);
    }
    CheckStarts(q, s.queue.issued, text, cmd);
  }

  /** So a `rename` after a `put` onto an existing file is refused although its own target
      does not exist: no entry is listed, and yet the chain fails. */
  lemma StaleCheck(env: Env, s: State)
    requires Checking(s) && s.put.checkExist && s.errorCount == 0
    ensures Advance(env, s, Reply("### 200")).failed == Some(FileAlreadyExist)
  {
    var line := "### 200";
    assert line[4..7] == "200";
    Code200(s.errorCount);
  }

  lemma Code200(errorCount: int)
    ensures Code("### 200", errorCount) == 200
  {
    var line := "### 200";
    assert line[..4] == "### " && line[4..7] == "200";
    assert Trim("200") == "200";
    assert "200"[..2] == "20" && "20"[..1] == "2" && "2"[..0] == "";
    assert DecValue("2") == 2 && DecValue("20") == 20 && DecValue("200") == 200;
  }
}
