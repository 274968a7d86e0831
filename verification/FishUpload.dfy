/** A whole `put`: the engine and the server of fish/fish.pl, joined by two byte streams and
    interleaved in every way. `writeChild` never discards anything, the two never wait for
    each other, and what ends up in the remote file is what `readData` delivered
    (fish/fish.cpp:602-609, 1157-1163, 1229-1256, 1262-1306, 1407-1437, 1509-1540). */
module FishUpload {
  import opened Text
  import opened FishCommands
  import opened FishModel
  import opened FishStream
  import opened FishBytes
  import R = FishRuns
  import S = FishServer

  /** The engine with its partial line, the bytes on their way to the server, the server. */
  datatype System = System(c: Conn, wire: string, srv: S.Server)

  datatype Move = Send(k: nat) | Work | Hear

  /** The engine reads only when nothing is left to write: `run` prefers writing
      (fish/fish.cpp:1509, 1541). */
  predicate Enabled(y: System, m: Move) {
    var o := y.c.s.out;
    match m
    case Send(k) => y.c.s.isRunning && 0 <= o.outBufPos && o.outBufPos + k <= |o.outBuf|
    case Work => y.wire != ""
    case Hear => y.c.s.isRunning && y.srv.out != "" && o.outBuf == ""
  }

  function Next(env: Env, y: System, m: Move): System {
    if !Enabled(y, m) then y
    else match m
      case Send(k) =>
        var o := y.c.s.out;
        y.(c := y.c.(s := Flush(y.c.s, k)), wire := y.wire + o.outBuf[o.outBufPos..o.outBufPos + k])
      case Work => y.(srv := S.ServeByte(y.srv, y.wire[0]), wire := y.wire[1..])
      case Hear => y.(c := FeedByte(env, y.c, y.srv.out[0]), srv := y.srv.(out := y.srv.out[1..]))
  }

  function RunAll(env: Env, y: System, ms: seq<Move>): System
    decreases |ms|
  {
    if ms == [] then y else RunAll(env, Next(env, y, ms[0]), ms[1..])
  }

  function Unsent(o: Output): string {
    if 0 <= o.outBufPos <= |o.outBuf| then o.outBuf[o.outBufPos..] else ""
  }

  /** The server as it will be when it has read all that is on its way or about to be. */
  function Ahead(y: System): S.Server {
    S.Serve(y.srv, y.wire + Unsent(y.c.s.out))
  }

  // ----- the texts of the commands -----

  predicate OneLineText(env: Env, cmd: Command, args: seq<string>) {
    S.OneLine(env.text(cmd, args), Head(cmd, args))
  }

  predicate Answered(env: Env, cmd: Command, args: seq<string>) {
    var text := env.text(cmd, args);
    S.Framed(text, Head(cmd, args)) && S.Ignorable(S.ShellPart(text, Head(cmd, args)))
  }

  predicate NumbersSpelled(env: Env, a: string, b: string) {
    && OneLineText(env, APPEND, [a, env.path])
    && OneLineText(env, WRITE, [a, b, env.path])
    && Answered(env, CHMOD, [a, env.path])
  }

  /** The commands of an upload are spelled so that the server finds its way: one line each,
      and behind it shell text that holds no other command. */
  ghost predicate Spelled(env: Env) {
    && OneLineText(env, STOR, ["0", env.path])
    && Answered(env, LIST, [env.path])
    && (forall a: string, b: string {:trigger NumbersSpelled(env, a, b)} ::
          AllDigits(a) && AllDigits(b) && a != "" && b != "" ==> NumbersSpelled(env, a, b))
  }

  const P100 := S.PRELIMINARY + "\n"
  const P200 := S.COMPLETE + "\n"

  lemma StorText(env: Env, srv: S.Server)
    requires Spelled(env) && srv.mode == S.Lines("")
    ensures env.text(STOR, ["0", env.path]) != ""
    ensures S.Serve(srv, env.text(STOR, ["0", env.path])) == srv.(file := "", pos := 0, out := srv.out + P100 + P200)
  {
    var args := ["0", env.path];
    var text := env.text(STOR, args);
    assert OneLineText(env, STOR, args);
    S.FrameOf(text, Head(STOR, args));
    S.ParseStor(env.path);
    var tail := S.ShellPart(text, Head(STOR, args));
    S.ServeStored(srv, Head(STOR, args), tail[..|tail| - 1]);
  }

  /** The command that announces the block `n` bytes long behind `done` bytes. */
  function BlockText(env: Env, append: bool, done: nat, n: nat): string {
    if append then env.text(APPEND, [Dec(n), env.path]) else env.text(WRITE, [Dec(done), Dec(n), env.path])
  }

  lemma BlockTextServed(env: Env, srv: S.Server, append: bool, n: nat)
    requires Spelled(env) && srv.mode == S.Lines("") && n > 0
    ensures BlockText(env, append, |srv.file|, n) != ""
    ensures S.Serve(srv, BlockText(env, append, |srv.file|, n))
         == srv.(pos := |srv.file|, mode := S.Raw(n), out := srv.out + P100)
  {
    if append {
      S.ParseAppend(n, env.path);
      assert NumbersSpelled(env, Dec(n), Dec(n));
      AnnouncementServed(srv, env.text(APPEND, [Dec(n), env.path]), Head(APPEND, [Dec(n), env.path]), n);
    } else {
      S.ParseWrite(|srv.file|, n, env.path);
      assert NumbersSpelled(env, Dec(|srv.file|), Dec(n));
      AnnouncementServed(srv, env.text(WRITE, [Dec(|srv.file|), Dec(n), env.path]),
            Head(WRITE, [Dec(|srv.file|), Dec(n), env.path]), n);
    }
  }

  lemma AnnouncementServed(srv: S.Server, text: string, head: string, n: nat)
    requires srv.mode == S.Lines("") && S.OneLine(text, head) && n > 0
    requires S.Parse(head) in {S.Append(n), S.WriteAt(|srv.file|, n)}
    ensures text != "" && S.Serve(srv, text) == srv.(pos := |srv.file|, mode := S.Raw(n), out := srv.out + P100)
  {
    S.FrameOf(text, head);
    var tail := S.ShellPart(text, head);
    S.ServeStored(srv, head, tail[..|tail| - 1]);
  }

  lemma AnsweredServed(env: Env, srv: S.Server, cmd: Command, args: seq<string>)
    requires Answered(env, cmd, args) && srv.mode == S.Lines("")
    requires S.Parse(Head(cmd, args)) in {S.ListIt, S.Other}
    ensures env.text(cmd, args) != ""
    ensures S.Serve(srv, env.text(cmd, args)) == S.Obey(srv, Head(cmd, args))
  {
    var text := env.text(cmd, args);
    S.FrameOf(text, Head(cmd, args));
    S.ServeAnswered(srv, Head(cmd, args), S.ShellPart(text, Head(cmd, args)));
  }

  // ----- replies to come -----

  function Render(ls: seq<string>): string {
    if ls == [] then "" else ls[0] + "\n" + Render(ls[1..])
  }

  predicate Clean(ls: seq<string>) {
    forall i :: 0 <= i < |ls| ==> Free('\n', ls[i])
  }

  /** What the engine has not read yet, its partial line first, are the lines `ls`. */
  predicate Awaits(c: Conn, out: string, ls: seq<string>) {
    c.partial + out == Render(ls) && Clean(ls) && Free('\n', c.partial)
  }

  lemma NextByte(partial: string, out: string, ls: seq<string>)
    requires out != "" && partial + out == Render(ls) && Clean(ls) && Free('\n', partial)
    ensures ls != []
    ensures out[0] == '\n' ==> partial == ls[0] && "" + out[1..] == Render(ls[1..])
    ensures out[0] != '\n' ==> (partial + [out[0]]) + out[1..] == Render(ls)
  {
    var all := partial + out;
    assert all[|partial|] == out[0];
    var first, n := ls[0] + "\n", |partial|;
    assert all == first + Render(ls[1..]);
    assert forall k :: 0 <= k < n ==> all[k] == partial[k];
    assert forall k :: 0 <= k < |ls[0]| ==> all[k] == ls[0][k];
    assert all[|ls[0]|] == '\n';
    if out[0] == '\n' {
      assert n == |ls[0]|;
      assert all[..n] == partial && all[..n] == ls[0];
      assert all[n + 1..] == out[1..];
      assert all[n + 1..] == Render(ls[1..]);
    } else {
      assert out == [out[0]] + out[1..];
    }
  }

  lemma OneLineToCome(line: string)
    ensures Render([line]) == line + "\n"
  {
    assert [line][1..] == [];
  }

  lemma FreshAwaits(s: State, line: string)
    requires Free('\n', line)
    ensures Awaits(Conn(s, ""), "" + (line + "\n"), [line])
  {
    OneLineToCome(line);
    assert "" + ("" + (line + "\n")) == line + "\n";
  }

  lemma TwoLinesToCome(a: string, b: string)
    ensures Render([a, b]) == (a + "\n") + (b + "\n")
  {
    assert [a, b][1..] == [b];
    OneLineToCome(b);
  }

  lemma Codes(e: int)
    ensures Code(S.PRELIMINARY, e) == 100 && Code(S.COMPLETE, e) == 200
    ensures IsResult(S.PRELIMINARY) && IsResult(S.COMPLETE)
    ensures Free('\n', S.PRELIMINARY) && Free('\n', S.COMPLETE)
  {
    R.Code200(e);
    var line := S.PRELIMINARY;
    assert line[..4] == "### " && line[4..7] == "100";
    assert Trim("100") == "100";
    assert "100"[..2] == "10" && "10"[..1] == "1" && "1"[..0] == "";
    assert DecValue("1") == 1 && DecValue("10") == 10 && DecValue("100") == 100;
    assert S.COMPLETE[..4] == "### ";
  }

  lemma FreshAwaitsTwo(s: State)
    ensures Awaits(Conn(s, ""), "" + P100 + P200, [S.PRELIMINARY, S.COMPLETE])
  {
    TwoLinesToCome(S.PRELIMINARY, S.COMPLETE);
    Codes(0);
    assert "" + ("" + P100 + P200) == P100 + P200;
  }

  // ----- the phases of an upload -----

  datatype Stage =
    | Announced   // the command is out or on its way, its first answer not read
    | Told        // "### 100" is read
    | Data        // the block is being written
    | Padded      // only "### 200" is to come

  datatype Phase =
    | Check(ls: seq<string>)               // LIST, with the lines of its answer still to come
    | Create(stage: Stage)                 // STOR, which makes the file empty
    | Block(done: string, stage: Stage)    // a block behind `done`
    | Perm                                 // CHMOD
    | Closed                               // all done
    | Turned                               // the check found the file

  predicate Quiet(o: Output) {
    o.outBuf == "" && o.outBufPos == -1 && o.qlist == [] && o.writeReady && o.rawWrite == -1
  }

  /** A command is being written, or has been. */
  predicate Announcing(o: Output, text: string) {
    || Quiet(o)
    || (o.outBuf == text && 0 <= o.outBufPos < |text| && o.qlist == [text] && !o.writeReady && o.rawWrite == -1)
  }

  /** `data` is being written outside of the list of commands; `raw` counts what follows. */
  predicate Pouring(o: Output, data: string, raw: int) {
    && o.outBuf == data && 0 <= o.outBufPos && (o.outBufPos < |data| || (data == "" && o.outBufPos == 0))
    && o.qlist == [] && o.writeReady && o.rawWrite == raw
  }

  predicate Padding(o: Output) {
    Quiet(o) || Pouring(o, Newlines(), -1)
  }

  /** What is fixed for a whole upload. */
  datatype Job = Job(before: string, total: string, append: bool)

  ghost predicate Sound(s: State) {
    && s.connected && s.input.rawRead <= 0 && s.out.lost == 0 && Paired(s.queue)
  }

  ghost predicate Running(s: State, cmd: Command) {
    Sound(s) && s.failed.None? && s.isRunning && s.fishCommand == cmd
  }

  predicate Uploads(p: Put) {
    forall i :: 0 <= i < |p.uploads| ==> p.uploads[i] != ""
  }

  function BlockCommand(j: Job): Command {
    if j.append then APPEND else WRITE
  }

  /** Nothing of the upload has been read from the worker yet. */
  ghost predicate Untouched(j: Job, p: Put) {
    && Uploads(p) && Concat(p.uploads) == j.total
    && -1 <= p.sendLen <= 0 && p.putPos == 0 && p.hasAppend == j.append
  }

  /** The answer to the check: body and preliminary lines, then one final line. */
  ghost predicate Answer(ls: seq<string>) {
    && ls != []
    && (forall i :: 0 <= i < |ls| - 1 ==> Interim(ls[i]))
    && Ends(ls[|ls| - 1])
  }

  ghost predicate Interim(line: string) {
    (forall e: int :: Code(line, e) == 0) || (forall e: int :: Code(line, e) == 100)
  }

  ghost predicate Ends(line: string) {
    forall e: int :: Code(line, e) !in {0, 100}
  }

  ghost predicate InCheck(env: Env, j: Job, c: Conn, a: S.Server, ls: seq<string>) {
    var stor := env.text(STOR, ["0", env.path]);
    && Running(c.s, LIST) && c.s.put.listCheck && Untouched(j, c.s.put)
    && c.s.queue.commandList == [stor] && c.s.queue.commandCodes == [STOR]
    && Announcing(c.s.out, env.text(LIST, [env.path]))
    && Answer(ls) && Awaits(c, a.out, ls)
    && a.mode == S.Lines("") && a.file == j.before
  }

  ghost predicate InCreate(env: Env, j: Job, c: Conn, a: S.Server, stage: Stage) {
    && Running(c.s, STOR) && Untouched(j, c.s.put) && c.s.queue.commandList == []
    && a.mode == S.Lines("") && a.file == ""
    && (match stage
        case Announced =>
          Announcing(c.s.out, env.text(STOR, ["0", env.path])) && Awaits(c, a.out, [S.PRELIMINARY, S.COMPLETE])
        case Told => Pouring(c.s.out, "", c.s.put.sendLen) && Awaits(c, a.out, [S.COMPLETE])
        case Data => false
        case Padded => Padding(c.s.out) && Awaits(c, a.out, [S.COMPLETE]))
  }

  ghost predicate InBlock(env: Env, j: Job, c: Conn, a: S.Server, done: string, stage: Stage) {
    var p := c.s.put;
    var n := |p.rawData|;
    && Running(c.s, BlockCommand(j)) && c.s.queue.commandList == []
    && Uploads(p) && done + p.rawData + Concat(p.uploads) == j.total
    && n > 0 && p.sendLen == n && p.hasAppend == j.append && (!j.append ==> p.putPos == |done| + n)
    && (stage in {Announced, Told} ==> a.mode == S.Raw(n) && a.file == done && a.pos == |done|)
    && (stage in {Data, Padded} ==> a.mode == S.Lines("") && a.file == done + p.rawData)
    && (match stage
        case Announced => Announcing(c.s.out, BlockText(env, j.append, |done|, n)) && Awaits(c, a.out, [S.PRELIMINARY])
        case Told => Pouring(c.s.out, "", n) && Awaits(c, a.out, [])
        case Data => Pouring(c.s.out, p.rawData, 0) && Awaits(c, a.out, [S.COMPLETE])
        case Padded => Padding(c.s.out) && Awaits(c, a.out, [S.COMPLETE]))
  }

  ghost predicate InPerm(env: Env, j: Job, c: Conn, a: S.Server) {
    && Running(c.s, CHMOD) && c.s.queue.commandList == []
    && c.s.put.putPerm >= 0 && c.s.put.sendLen == 0
    && Announcing(c.s.out, env.text(CHMOD, [Octal(c.s.put.putPerm), env.path]))
    && Awaits(c, a.out, [S.COMPLETE])
    && a.mode == S.Lines("") && a.file == j.total
  }

  ghost predicate In(env: Env, j: Job, c: Conn, a: S.Server, ph: Phase) {
    match ph
    case Check(ls) => InCheck(env, j, c, a, ls)
    case Create(stage) => InCreate(env, j, c, a, stage)
    case Block(done, stage) => InBlock(env, j, c, a, done, stage)
    case Perm => InPerm(env, j, c, a)
    case Closed => Sound(c.s) && c.s.failed.None? && !c.s.isRunning && a.file == j.total
    case Turned => Sound(c.s) && c.s.failed == Some(FileAlreadyExist) && !c.s.isRunning && a.file == j.before
  }

  // ----- moves that change nothing ahead -----

  lemma WorkAhead(env: Env, y: System)
    requires y.wire != ""
    ensures Ahead(Next(env, y, Work)) == Ahead(y)
  {
    var rest := Unsent(y.c.s.out);
    assert (y.wire + rest)[1..] == y.wire[1..] + rest;
  }

  /** A write moves bytes from the buffer to the wire; only what `sent` then starts to write
      lies further ahead. */
  lemma SendAhead(env: Env, y: System, k: nat)
    requires Enabled(y, Send(k))
    ensures var z := Next(env, y, Send(k));
            var o := y.c.s.out;
            && z.c.s == Flush(y.c.s, k)
            && (o.outBufPos + k < |o.outBuf| ==> Ahead(z) == Ahead(y))
            && (o.outBufPos + k == |o.outBuf| ==> Ahead(z) == S.Serve(Ahead(y), Unsent(z.c.s.out)))
  {
    var z, o := Next(env, y, Send(k)), y.c.s.out;
    var gone, left := o.outBuf[o.outBufPos..o.outBufPos + k], o.outBuf[o.outBufPos + k..];
    assert Unsent(o) == gone + left;
    if left == "" {
      assert gone + left == gone;
      S.ServeAppend(y.srv, y.wire + gone, Unsent(z.c.s.out));
    } else {
      assert y.wire + (gone + left) == y.wire + gone + left;
      assert Unsent(z.c.s.out) == left;
    }
  }

  /** A byte heard is the first byte of what the engine has yet to hear. */
  lemma HearAhead(env: Env, y: System)
    requires Enabled(y, Hear)
    ensures var a := Ahead(y);
            var z := Next(env, y, Hear);
            && a.out != "" && a.out[0] == y.srv.out[0] && z.c == FeedByte(env, y.c, a.out[0])
            && Ahead(z) == S.Serve(a.(out := a.out[1..]), Unsent(z.c.s.out))
  {
    var z := Next(env, y, Hear);
    assert Unsent(y.c.s.out) == "" && y.wire + "" == y.wire;
    S.ServeAfterRead(y.srv, y.wire);
    S.ServeAppend(z.srv, y.wire, Unsent(z.c.s.out));
  }

  // ----- writing -----

  /** The phase after the buffer has gone out. */
  function Drained(j: Job, s: State, ph: Phase): Phase {
    match ph
    case Create(Told) => Create(Padded)
    case Block(done, Told) => Block(done, Data)
    case Block(done, Data) => Block(done, Padded)
    case _ => ph
  }

  /** `sent` with nothing raw to write: the command that went out leaves the list. */
  lemma SentQuiet(s: State)
    requires s.out.outBuf == "" && s.out.outBufPos == -1 && s.out.rawWrite == -1 && |s.out.qlist| <= 1
    ensures Quiet(Sent(s).out) && Sent(s) == s.(out := Sent(s).out) && Sent(s).out.lost == s.out.lost
  {
  }

  /** `sent` when a block is due. */
  lemma SentBlock(s: State)
    requires s.out.outBuf == "" && s.out.outBufPos == -1 && s.out.rawWrite == |s.put.rawData| > 0
    requires s.out.qlist == [] && s.out.writeReady
    ensures Pouring(Sent(s).out, s.put.rawData, 0) && Sent(s) == s.(out := Sent(s).out)
    ensures Unsent(Sent(s).out) == s.put.rawData && Sent(s).out.lost == s.out.lost
  {
    assert s.put.rawData[..|s.put.rawData|] == s.put.rawData;
  }

  /** `sent` when the newlines are due. */
  lemma SentNewlines(s: State)
    requires s.out.outBuf == "" && s.out.outBufPos == -1 && s.out.rawWrite == 0
    requires s.out.qlist == [] && s.out.writeReady
    ensures Pouring(Sent(s).out, Newlines(), -1) && Sent(s) == s.(out := Sent(s).out)
    ensures Unsent(Sent(s).out) == Newlines() && Sent(s).out.lost == s.out.lost
  {
  }

  lemma ServeNewlines(a: S.Server)
    requires a.mode == S.Lines("")
    ensures S.Serve(a, Newlines()) == a
  {
    S.NewlinesIgnorable(15);
    S.ServeIgnorable(a, Newlines());
  }

  /** The engine right before `sent` is told. */
  function Emptied(s: State): State {
    s.(out := s.out.(outBufPos := -1, outBuf := ""))
  }

  lemma DrainCreate(env: Env, j: Job, c: Conn, a: S.Server, stage: Stage)
    requires InCreate(env, j, c, a, stage) && c.s.out.outBufPos >= 0
    ensures var t := Sent(Emptied(c.s));
            In(env, j, c.(s := t), S.Serve(a, Unsent(t.out)), Drained(j, c.s, Create(stage)))
  {
    var s := Emptied(c.s);
    if stage == Told && s.put.sendLen == 0 {
      SentNewlines(s);
      ServeNewlines(a);
    } else {
      SentQuiet(s);
    }
  }

  /** The block itself goes to the pipe and the server stores it. */
  lemma DrainTold(env: Env, j: Job, c: Conn, a: S.Server, done: string)
    requires InBlock(env, j, c, a, done, Told) && c.s.out.outBufPos >= 0
    ensures var t := Sent(Emptied(c.s));
            In(env, j, c.(s := t), S.Serve(a, Unsent(t.out)), Block(done, Data))
  {
    var s := Emptied(c.s);
    SentBlock(s);
    S.ServeRaw(a, s.put.rawData);
    S.OverlaidAtEnd(a.file, s.put.rawData);
    assert c.partial == "" && a.out == "";
    OneLineToCome(S.COMPLETE);
    Codes(0);
    assert a.out + P200 == Render([S.COMPLETE]);
  }

  lemma DrainData(env: Env, j: Job, c: Conn, a: S.Server, done: string)
    requires InBlock(env, j, c, a, done, Data) && c.s.out.outBufPos >= 0
    ensures var t := Sent(Emptied(c.s));
            In(env, j, c.(s := t), S.Serve(a, Unsent(t.out)), Block(done, Padded))
  {
    SentNewlines(Emptied(c.s));
    ServeNewlines(a);
  }

  lemma DrainQuiet(env: Env, j: Job, c: Conn, a: S.Server, done: string, stage: Stage)
    requires InBlock(env, j, c, a, done, stage) && stage in {Announced, Padded} && c.s.out.outBufPos >= 0
    ensures var t := Sent(Emptied(c.s));
            In(env, j, c.(s := t), S.Serve(a, Unsent(t.out)), Block(done, stage))
  {
    SentQuiet(Emptied(c.s));
  }

  lemma DrainBlock(env: Env, j: Job, c: Conn, a: S.Server, done: string, stage: Stage)
    requires InBlock(env, j, c, a, done, stage) && c.s.out.outBufPos >= 0
    ensures var t := Sent(Emptied(c.s));
            In(env, j, c.(s := t), S.Serve(a, Unsent(t.out)), Drained(j, c.s, Block(done, stage)))
  {
    match stage {
      case Told => DrainTold(env, j, c, a, done);
      case Data => DrainData(env, j, c, a, done);
      case _ => DrainQuiet(env, j, c, a, done, stage);
    }
  }

  lemma DrainStep(env: Env, j: Job, c: Conn, a: S.Server, ph: Phase)
    requires In(env, j, c, a, ph) && c.s.isRunning && c.s.out.outBufPos >= 0
    ensures var t := Sent(Emptied(c.s));
            In(env, j, c.(s := t), S.Serve(a, Unsent(t.out)), Drained(j, c.s, ph))
  {
    match ph {
      case Check(ls) => SentQuiet(Emptied(c.s));
      case Create(stage) => DrainCreate(env, j, c, a, stage);
      case Block(done, stage) => DrainBlock(env, j, c, a, done, stage);
      case Perm => SentQuiet(Emptied(c.s));
      case Closed =>
      case Turned =>
    }
  }

  /** A write that leaves something in the buffer changes only the position. */
  lemma PartlySent(env: Env, j: Job, c: Conn, a: S.Server, ph: Phase, pos: int)
    requires In(env, j, c, a, ph) && c.s.isRunning
    requires 0 <= c.s.out.outBufPos <= pos < |c.s.out.outBuf|
    ensures In(env, j, c.(s := c.s.(out := c.s.out.(outBufPos := pos))), a, ph)
  {
  }

  lemma SendKeeps(env: Env, j: Job, y: System, ph: Phase, k: nat) returns (next: Phase)
    requires In(env, j, y.c, Ahead(y), ph) && Enabled(y, Send(k))
    ensures var z := Next(env, y, Send(k)); In(env, j, z.c, Ahead(z), next)
    ensures next == if y.c.s.out.outBufPos + k < |y.c.s.out.outBuf| then ph else Drained(j, y.c.s, ph)
  {
    SendAhead(env, y, k);
    var o := y.c.s.out;
    if o.outBufPos + k < |o.outBuf| {
      PartlySent(env, j, y.c, Ahead(y), ph, o.outBufPos + k);
      next := ph;
    } else {
      DrainStep(env, j, y.c, Ahead(y), ph);
      next := Drained(j, y.c.s, ph);
    }
  }

  // ----- reading -----

  lemma HearText(env: Env, j: Job, c: Conn, a: S.Server, ph: Phase)
    requires In(env, j, c, a, ph) && c.s.isRunning && a.out != "" && a.out[0] != '\n'
    ensures In(env, j, c.(partial := c.partial + [a.out[0]]), a.(out := a.out[1..]), ph)
  {
    var ls := ToCome(ph);
    assert Awaits(c, a.out, ls);
    NextByte(c.partial, a.out, ls);
    assert Awaits(c.(partial := c.partial + [a.out[0]]), a.out[1..], ls);
  }

  /** The lines each phase has yet to hear. */
  function ToCome(ph: Phase): seq<string> {
    match ph
    case Check(ls) => ls
    case Create(Announced) => [S.PRELIMINARY, S.COMPLETE]
    case Create(_) => [S.COMPLETE]
    case Block(_, Announced) => [S.PRELIMINARY]
    case Block(_, Told) => []
    case Block(_, _) => [S.COMPLETE]
    case _ => [S.COMPLETE]
  }

  /** A line of the answer to the check that does not end it. */
  lemma HearInterim(env: Env, j: Job, c: Conn, a: S.Server, ls: seq<string>)
    requires InCheck(env, j, c, a, ls) && |ls| > 1 && c.s.out.outBuf == ""
    requires c.partial == ls[0] && "" + a.out[1..] == Render(ls[1..]) && a.out != ""
    ensures var t := ManageLine(env, c.s, ls[0]);
            t.out == c.s.out && InCheck(env, j, Conn(t, ""), a.(out := a.out[1..]), ls[1..])
  {
    var rest := ls[1..];
    assert Interim(ls[0]);
    assert rest[|rest| - 1] == ls[|ls| - 1];
    assert forall i :: 0 <= i < |rest| - 1 ==> rest[i] == ls[i + 1];
    assert Answer(rest);
    var t := ManageLine(env, c.s, ls[0]);
    assert Code(ls[0], c.s.errorCount) in {0, 100};
    InterimState(env, c.s, ls[0]);
    assert Awaits(Conn(t, ""), a.out[1..], rest);
  }

  lemma InterimState(env: Env, s: State, line: string)
    requires s.fishCommand == LIST && s.put.listCheck && Code(line, s.errorCount) in {0, 100}
    ensures var t := ManageLine(env, s, line);
            t == s.(lines := t.lines, errorCount := t.errorCount, put := s.put.(checkExist := t.put.checkExist))
  {
    var t := Heard(s, line);
    if Code(line, s.errorCount) == 0 {
      assert ListLine(t, line) == t.(errorCount := ListLine(t, line).errorCount,
            put := t.put.(checkExist := ListLine(t, line).put.checkExist));
    }
  }

  /** The next command goes to an empty buffer. */
  lemma NextCommand(s: State, text: string, cmd: Command)
    requires s.queue.commandList == [text] && s.queue.commandCodes == [cmd] && text != ""
    requires s.out.outBuf == "" && s.out.qlist == [] && s.out.writeReady
    ensures var t := Finished(s);
            && Announcing(t.out, text) && Unsent(t.out) == text && t.out.lost == s.out.lost
            && t.queue.commandList == [] && t.queue.commandCodes == [] && t.fishCommand == cmd
            && t == s.(fishCommand := cmd, errorCount := t.errorCount, input := t.input, out := t.out, queue := t.queue)
            && t.input == s.input.(rawRead := 0)
  {
    var o := s.out.(rawWrite := -1);
    assert [] + [text] == [text];
    assert WriteStdin(o, text) == Output(text, 0, [text], false, -1, o.lost);
  }

  /** What the final line of the check does to the engine. */
  lemma VerdictState(env: Env, s: State, line: string)
    requires s.fishCommand == LIST && s.put.listCheck && Code(line, s.errorCount) !in {0, 100}
    ensures var h := Heard(s, line);
            ManageLine(env, s, line) ==
              if !Success(Code(line, s.errorCount)) then Finished(h.(put := h.put.(checkExist := false)))
              else if Blocked(h) then Fail(h, FileAlreadyExist)
              else Finished(h.(calls := h.calls + DoneCalls(LIST)))
  {
  }

  lemma CreateFollows(env: Env, j: Job, s: State, a: S.Server)
    requires Spelled(env) && Running(s, LIST) && Untouched(j, s.put) && Quiet(s.out)
    requires s.queue.commandList == [env.text(STOR, ["0", env.path])] && s.queue.commandCodes == [STOR]
    requires a.mode == S.Lines("") && a.out == ""
    ensures var t := Finished(s);
            InCreate(env, j, Conn(t, ""), S.Serve(a, Unsent(t.out)), Announced)
  {
    var stor := env.text(STOR, ["0", env.path]);
    StorText(env, a);
    NextCommand(s, stor, STOR);
    FreshAwaitsTwo(Finished(s));
  }

  /** The line that ends the check. */
  lemma HearVerdict(env: Env, j: Job, c: Conn, a: S.Server, ls: seq<string>)
    requires Spelled(env) && InCheck(env, j, c, a, ls) && |ls| == 1 && c.s.out.outBuf == ""
    requires c.partial == ls[0] && "" + a.out[1..] == Render(ls[1..]) && a.out != ""
    ensures var t := ManageLine(env, c.s, ls[0]);
            In(env, j, Conn(t, ""), S.Serve(a.(out := a.out[1..]), Unsent(t.out)),
               if t.failed.Some? then Turned else Create(Announced))
  {
    var line, b := ls[0], a.(out := "");
    assert Ends(line);
    assert a.out[1..] == "" && ls[1..] == [];
    var h := Heard(c.s, line);
    VerdictState(env, c.s, line);
    if !Success(Code(line, c.s.errorCount)) {
      CreateFollows(env, j, h.(put := h.put.(checkExist := false)), b);
    } else if !Blocked(h) {
      CreateFollows(env, j, h.(calls := h.calls + DoneCalls(LIST)), b);
    }
  }

  /** Preliminary success: the raw count is taken over and an empty write is started, so that
      `sent` is told next. */
  lemma HearPreliminary(env: Env, s: State)
    requires s.fishCommand in {STOR, WRITE, APPEND} && Quiet(s.out)
    ensures var t := ManageLine(env, s, S.PRELIMINARY);
            && Pouring(t.out, "", s.put.sendLen) && Unsent(t.out) == "" && t.out.lost == s.out.lost
            && t == s.(lines := t.lines, errorCount := t.errorCount, out := t.out)
  {
    Codes(s.errorCount);
  }

  /** What `finished` goes on with when STOR or a block is complete. */
  function Following(content: string, p: Put): Phase {
    if p.uploads != [] then Block(content, Announced)
    else if !p.checkExist && p.putPerm > -1 then Perm else Closed
  }

  /** A STOR or a block is complete: `content` is in the remote file, the rest is to come,
      and the engine is free to write. */
  ghost predicate Ready(j: Job, s: State, a: S.Server, content: string) {
    && Sound(s) && s.failed.None? && s.isRunning
    && s.out.outBuf == "" && s.out.qlist == [] && s.out.writeReady && s.queue.commandList == []
    && Uploads(s.put) && s.put.hasAppend == j.append && content + Concat(s.put.uploads) == j.total
    && (!j.append ==> s.put.putPos == |content|)
    && a.mode == S.Lines("") && a.out == "" && a.file == content
  }

  lemma CompleteState(env: Env, s: State)
    requires s.fishCommand in {STOR, WRITE, APPEND}
    ensures ManageLine(env, s, S.COMPLETE) == Finished(NextBlock(env, Promoted(Heard(s, S.COMPLETE))))
  {
    Codes(s.errorCount);
  }

  /** The engine with its next command queued. */
  ghost predicate Queued(s: State, text: string, cmd: Command) {
    && Sound(s) && s.failed.None? && s.isRunning
    && s.out.outBuf == "" && s.out.qlist == [] && s.out.writeReady
    && s.queue.commandList == [text] && s.queue.commandCodes == [cmd]
  }

  lemma BlockQueued(env: Env, j: Job, s: State, a: S.Server, content: string)
    requires Ready(j, s, a, content) && s.fishCommand == BlockCommand(j) && s.put.uploads != []
    ensures var p, n := s.put, |s.put.uploads[0]|;
            var v := NextBlock(env, s);
            && Queued(v, BlockText(env, j.append, |content|, n), BlockCommand(j))
            && v.put == p.(rawData := p.uploads[0], uploads := p.uploads[1..], sendLen := n,
                           putPos := if j.append then p.putPos else p.putPos + n)
  {
    var text := BlockText(env, j.append, |content|, |s.put.uploads[0]|);
    assert s.queue.commandCodes == [];
    assert [] + [text] == [text] && [] + [BlockCommand(j)] == [BlockCommand(j)];
  }

  lemma BlockAnnounced(env: Env, j: Job, s: State, a: S.Server, done: string)
    requires Spelled(env) && a.mode == S.Lines("") && a.out == "" && a.file == done
    requires var p, n := s.put, |s.put.rawData|;
             && n > 0 && Queued(s, BlockText(env, j.append, |done|, n), BlockCommand(j))
             && Uploads(p) && done + p.rawData + Concat(p.uploads) == j.total
             && p.sendLen == n && p.hasAppend == j.append && (!j.append ==> p.putPos == |done| + n)
    ensures var t := Finished(s);
            InBlock(env, j, Conn(t, ""), S.Serve(a, Unsent(t.out)), done, Announced)
  {
    var n := |s.put.rawData|;
    BlockTextServed(env, a, j.append, n);
    NextCommand(s, BlockText(env, j.append, |done|, n), BlockCommand(j));
    Codes(0);
    FreshAwaits(Finished(s), S.PRELIMINARY);
  }

  lemma BlockFollows(env: Env, j: Job, s: State, a: S.Server, content: string)
    requires Spelled(env) && Ready(j, s, a, content) && s.fishCommand == BlockCommand(j) && s.put.uploads != []
    ensures var t := Finished(NextBlock(env, s));
            InBlock(env, j, Conn(t, ""), S.Serve(a, Unsent(t.out)), content, Announced)
  {
    var up := s.put.uploads;
    BlockQueued(env, j, s, a, content);
    assert content + up[0] + Concat(up[1..]) == content + Concat(up);
    assert forall i :: 0 <= i < |up[1..]| ==> up[1..][i] == up[i + 1];
    BlockAnnounced(env, j, NextBlock(env, s), a, content);
  }

  lemma PermQueued(env: Env, j: Job, s: State, a: S.Server, content: string)
    requires Ready(j, s, a, content) && s.fishCommand == BlockCommand(j)
    requires s.put.uploads == [] && !s.put.checkExist && s.put.putPerm > -1
    ensures var v := NextBlock(env, s);
            && Queued(v, env.text(CHMOD, [Octal(s.put.putPerm), env.path]), CHMOD)
            && v.put == s.put.(rawData := "", sendLen := 0)
  {
    var text := env.text(CHMOD, [Octal(s.put.putPerm), env.path]);
    assert s.queue.commandCodes == [];
    assert [] + [text] == [text] && [] + [CHMOD] == [CHMOD];
  }

  lemma PermServed(env: Env, a: S.Server, mode: string)
    requires Spelled(env) && a.mode == S.Lines("") && AllDigits(mode) && mode != ""
    ensures var text := env.text(CHMOD, [mode, env.path]);
            text != "" && S.Serve(a, text) == a.(out := a.out + P200)
  {
    S.ParseChmod(mode, env.path);
    assert NumbersSpelled(env, mode, mode);
    AnsweredServed(env, a, CHMOD, [mode, env.path]);
  }

  lemma PermAnnounced(env: Env, j: Job, s: State, a: S.Server)
    requires Spelled(env) && a.mode == S.Lines("") && a.out == "" && a.file == j.total
    requires s.put.putPerm >= 0 && s.put.sendLen == 0
    requires Queued(s, env.text(CHMOD, [Octal(s.put.putPerm), env.path]), CHMOD)
    ensures var t := Finished(s);
            InPerm(env, j, Conn(t, ""), S.Serve(a, Unsent(t.out)))
  {
    var text := env.text(CHMOD, [Octal(s.put.putPerm), env.path]);
    PermServed(env, a, Octal(s.put.putPerm));
    NextCommand(s, text, CHMOD);
    Codes(0);
    FreshAwaits(Finished(s), S.COMPLETE);
    PermAwaited(env, j, s, Finished(s), S.Serve(a, text));
  }

  lemma PermAwaited(env: Env, j: Job, s: State, t: State, a: S.Server)
    requires Sound(s) && s.failed.None? && s.isRunning && s.put.putPerm >= 0 && s.put.sendLen == 0
    requires Announcing(t.out, env.text(CHMOD, [Octal(s.put.putPerm), env.path])) && t.out.lost == s.out.lost
    requires t.queue.commandList == [] && t.queue.commandCodes == [] && t.fishCommand == CHMOD && Running(t, CHMOD)
    requires t.put == s.put && Awaits(Conn(t, ""), a.out, [S.COMPLETE])
    requires a.mode == S.Lines("") && a.file == j.total
    ensures InPerm(env, j, Conn(t, ""), a)
  {
  }

  lemma HearComplete(env: Env, j: Job, s: State, a: S.Server, content: string)
    requires Spelled(env) && Ready(j, s, a, content) && s.fishCommand in {STOR, WRITE, APPEND}
    requires s.fishCommand != STOR ==> s.fishCommand == BlockCommand(j)
    ensures var t := ManageLine(env, s, S.COMPLETE);
            In(env, j, Conn(t, ""), S.Serve(a, Unsent(t.out)), Following(content, s.put))
  {
    CompleteState(env, s);
    var u := Promoted(Heard(s, S.COMPLETE));
    assert Ready(j, u, a, content);
    if s.put.uploads != [] {
      BlockFollows(env, j, u, a, content);
    } else if !s.put.checkExist && s.put.putPerm > -1 {
      PermQueued(env, j, u, a, content);
      assert content + "" == content;
      PermAnnounced(env, j, NextBlock(env, u), a);
    } else {
      assert content + "" == content;
    }
  }

  // ----- one move, all moves -----

  /** The phase after a whole line has been heard. */
  function AfterLine(env: Env, s: State, ph: Phase): Phase {
    match ph
    case Check(ls) =>
      if |ls| > 1 then Check(ls[1..])
      else if ls != [] && ManageLine(env, s, ls[0]).failed.Some? then Turned else Create(Announced)
    case Create(Announced) => Create(Told)
    case Create(_) => Following("", s.put)
    case Block(done, Announced) => Block(done, Told)
    case Block(done, _) => Following(done + s.put.rawData, s.put)
    case Perm => Closed
    case _ => ph
  }

  lemma HearCreate(env: Env, j: Job, c: Conn, a: S.Server, stage: Stage)
    requires Spelled(env) && InCreate(env, j, c, a, stage) && c.s.out.outBuf == "" && a.out != "" && a.out[0] == '\n'
    ensures var t := ManageLine(env, c.s, c.partial);
            In(env, j, Conn(t, ""), S.Serve(a.(out := a.out[1..]), Unsent(t.out)), AfterLine(env, c.s, Create(stage)))
  {
    var ls, b := ToCome(Create(stage)), a.(out := a.out[1..]);
    NextByte(c.partial, a.out, ls);
    assert "" + a.out[1..] == a.out[1..];
    if stage == Announced {
      assert ls[1..] == [S.COMPLETE];
      Codes(0);
      HearPreliminary(env, c.s);
    } else {
      assert ls[1..] == [] && Render([]) == "";
      assert "" + Concat(c.s.put.uploads) == j.total;
      HearComplete(env, j, c.s, b, "");
    }
  }

  lemma HearBlock(env: Env, j: Job, c: Conn, a: S.Server, done: string, stage: Stage)
    requires Spelled(env) && InBlock(env, j, c, a, done, stage) && c.s.out.outBuf == "" && a.out != ""
          && a.out[0] == '\n'
    ensures var t := ManageLine(env, c.s, c.partial);
            In(env, j, Conn(t, ""), S.Serve(a.(out := a.out[1..]), Unsent(t.out)),
                  AfterLine(env, c.s, Block(done, stage)))
  {
    var ls, b := ToCome(Block(done, stage)), a.(out := a.out[1..]);
    NextByte(c.partial, a.out, ls);
    assert "" + a.out[1..] == a.out[1..];
    assert ls[1..] == [] && Render([]) == "";
    if stage == Announced {
      HearPreliminary(env, c.s);
      assert Awaits(Conn(ManageLine(env, c.s, c.partial), ""), "", []);
    } else {
      HearComplete(env, j, c.s, b, done + c.s.put.rawData);
    }
  }

  lemma HearPerm(env: Env, j: Job, c: Conn, a: S.Server)
    requires InPerm(env, j, c, a) && c.s.out.outBuf == "" && a.out != "" && a.out[0] == '\n'
    ensures var t := ManageLine(env, c.s, c.partial);
            In(env, j, Conn(t, ""), S.Serve(a.(out := a.out[1..]), Unsent(t.out)), Closed)
  {
    NextByte(c.partial, a.out, [S.COMPLETE]);
    Codes(c.s.errorCount);
    assert c.s.queue.commandCodes == [];
  }

  lemma HearLine(env: Env, j: Job, c: Conn, a: S.Server, ph: Phase)
    requires Spelled(env) && In(env, j, c, a, ph) && c.s.isRunning && c.s.out.outBuf == ""
    requires a.out != "" && a.out[0] == '\n'
    ensures var t := ManageLine(env, c.s, c.partial);
            In(env, j, Conn(t, ""), S.Serve(a.(out := a.out[1..]), Unsent(t.out)), AfterLine(env, c.s, ph))
  {
    match ph {
      case Check(ls) =>
        NextByte(c.partial, a.out, ls);
        if |ls| > 1 {
          HearInterim(env, j, c, a, ls);
        } else {
          HearVerdict(env, j, c, a, ls);
        }
      case Create(stage) => HearCreate(env, j, c, a, stage);
      case Block(done, stage) => HearBlock(env, j, c, a, done, stage);
      case Perm => HearPerm(env, j, c, a);
      case Closed =>
      case Turned =>
    }
  }

  lemma HearEnd(env: Env, j: Job, y: System, ph: Phase)
    requires Spelled(env) && In(env, j, y.c, Ahead(y), ph) && Enabled(y, Hear) && y.srv.out[0] == '\n'
    ensures var z := Next(env, y, Hear); In(env, j, z.c, Ahead(z), AfterLine(env, y.c.s, ph))
  {
    HearAhead(env, y);
    assert Sound(y.c.s) && y.c.s.failed.None?;
    HearLine(env, j, y.c, Ahead(y), ph);
  }

  lemma HearMiddle(env: Env, j: Job, y: System, ph: Phase)
    requires In(env, j, y.c, Ahead(y), ph) && Enabled(y, Hear) && y.srv.out[0] != '\n'
    ensures var z := Next(env, y, Hear); In(env, j, z.c, Ahead(z), ph)
  {
    HearAhead(env, y);
    assert Sound(y.c.s) && y.c.s.failed.None?;
    HearText(env, j, y.c, Ahead(y), ph);
    assert Unsent(Next(env, y, Hear).c.s.out) == "";
  }

  lemma HearKeeps(env: Env, j: Job, y: System, ph: Phase) returns (next: Phase)
    requires Spelled(env) && In(env, j, y.c, Ahead(y), ph) && Enabled(y, Hear)
    ensures var z := Next(env, y, Hear); In(env, j, z.c, Ahead(z), next)
    ensures next == if y.srv.out[0] == '\n' then AfterLine(env, y.c.s, ph) else ph
  {
    if y.srv.out[0] == '\n' {
      HearEnd(env, j, y, ph);
      next := AfterLine(env, y.c.s, ph);
    } else {
      HearMiddle(env, j, y, ph);
      next := ph;
    }
  }

  lemma MoveKeeps(env: Env, j: Job, y: System, ph: Phase, m: Move) returns (next: Phase)
    requires Spelled(env) && In(env, j, y.c, Ahead(y), ph)
    ensures var z := Next(env, y, m); In(env, j, z.c, Ahead(z), next)
  {
    next := ph;
    if Enabled(y, m) {
      match m {
        case Send(k) => next := SendKeeps(env, j, y, ph, k);
        case Work => WorkAhead(env, y);
        case Hear => next := HearKeeps(env, j, y, ph);
      }
    }
  }

  lemma {:induction false} RunKeeps(env: Env, j: Job, y: System, ph: Phase, ms: seq<Move>) returns (last: Phase)
    requires Spelled(env) && In(env, j, y.c, Ahead(y), ph)
    ensures var z := RunAll(env, y, ms); In(env, j, z.c, Ahead(z), last)
    decreases |ms|
  {
    last := ph;
    if ms != [] {
      var next := MoveKeeps(env, j, y, ph, ms[0]);
      last := RunKeeps(env, j, Next(env, y, ms[0]), next, ms[1..]);
    }
  }

  // ----- the theorem -----

  /** Between operations, with nothing on its way; `listing` answers the check. */
  ghost predicate AtRest(env: Env, y: System, ls: seq<string>) {
    && R.Idle(y.c.s) && y.c.s.input.rawRead <= 0 && y.c.s.out.lost == 0 && Quiet(y.c.s.out)
    && -1 <= y.c.s.put.sendLen <= 0 && Uploads(y.c.s.put)
    && y.c.partial == "" && y.wire == ""
    && y.srv.mode == S.Lines("") && y.srv.out == "" && y.srv.listing == Render(ls)
    && Answer(ls) && Clean(ls)
  }

  /** So it is once the connection stands, whatever is to be uploaded and whatever is in the file. */
  lemma FreshAtRest(env: Env, file: string, uploads: seq<string>)
    requires forall i :: 0 <= i < |uploads| ==> uploads[i] != ""
    ensures var s := INITIAL.(connected := true, put := INITIAL.put.(uploads := uploads));
            var server := S.Server(S.Lines(""), file, 0, "", Render([S.COMPLETE]));
            AtRest(env, System(Conn(s, ""), "", server), [S.COMPLETE])
  {
    forall e: int ensures Code(S.COMPLETE, e) == 200 {
      Codes(e);
    }
    Codes(0);
  }

  /** `put`, and `run` up to its loop. */
  function Begin(env: Env, y: System, permissions: int, overwrite: bool): System {
    y.(c := y.c.(s := R.Start(R.QueuePut(env, y.c.s, permissions, overwrite))))
  }

  function JobOf(y: System): Job {
    Job(y.srv.file, Concat(y.c.s.put.uploads), y.c.s.put.hasAppend)
  }

  lemma BeginsInCheck(env: Env, y: System, permissions: int, overwrite: bool, ls: seq<string>)
    requires Spelled(env) && env.path != "" && AtRest(env, y, ls)
    ensures var z := Begin(env, y, permissions, overwrite);
            In(env, JobOf(y), z.c, Ahead(z), Check(ls))
  {
    var s := y.c.s;
    var list, stor := env.text(LIST, [env.path]), env.text(STOR, ["0", env.path]);
    var q := R.QueuePut(env, s, permissions, overwrite);
    assert q.queue.commandList == [list, stor] && q.queue.commandCodes == [LIST, STOR];
    S.ParseList(env.path);
    AnsweredServed(env, y.srv, LIST, [env.path]);
    var z := Begin(env, y, permissions, overwrite);
    assert [] + [list] == [list];
    assert z.c.s.out == Output(list, 0, [list], false, -1, s.out.lost);
    assert Unsent(z.c.s.out) == list && "" + list == list;
    assert "" + Render(ls) == Render(ls);
    assert [list, stor][1..] == [stor] && [LIST, STOR][1..] == [STOR];
  }

  /** Every interleaving of a `put` with the server: nothing is ever discarded, the only error
      is the one for an existing file, which leaves that file as it was, and a chain that has
      ended without error has the remote file equal to all the data, in order. */
  lemma UploadIsExact(env: Env, y: System, permissions: int, overwrite: bool, ls: seq<string>, ms: seq<Move>)
    requires Spelled(env) && env.path != "" && AtRest(env, y, ls)
    ensures var z := RunAll(env, Begin(env, y, permissions, overwrite), ms);
            && z.c.s.out.lost == 0
            && z.c.s.failed in {None, Some(FileAlreadyExist)}
            && (z.c.s.failed.Some? ==> Ahead(z).file == y.srv.file)
            && (!z.c.s.isRunning && z.c.s.failed.None? ==> Ahead(z).file == Concat(y.c.s.put.uploads))
  {
    BeginsInCheck(env, y, permissions, overwrite, ls);
    var last := RunKeeps(env, JobOf(y), Begin(env, y, permissions, overwrite), Check(ls), ms);
  }

  /** One side can do something: hear a reply, read a byte, or write all that is left. */
  predicate Unblocked(y: System) {
    var left := |y.c.s.out.outBuf| - y.c.s.out.outBufPos;
    Enabled(y, Hear) || Enabled(y, Work) || (left >= 0 && Enabled(y, Send(left)))
  }

  /** No interleaving gets stuck: while the chain runs, one side can move. */
  lemma NeverStuck(env: Env, y: System, permissions: int, overwrite: bool, ls: seq<string>, ms: seq<Move>)
    requires Spelled(env) && env.path != "" && AtRest(env, y, ls)
    ensures var z := RunAll(env, Begin(env, y, permissions, overwrite), ms);
            z.c.s.isRunning ==> Unblocked(z)
  {
    BeginsInCheck(env, y, permissions, overwrite, ls);
    var last := RunKeeps(env, JobOf(y), Begin(env, y, permissions, overwrite), Check(ls), ms);
    var z := RunAll(env, Begin(env, y, permissions, overwrite), ms);
    if z.c.s.isRunning {
      CanMove(env, JobOf(y), z, last);
    }
  }

  /** With nothing to write the engine waits for a line. */
  lemma Waits(env: Env, j: Job, c: Conn, a: S.Server, ph: Phase)
    requires In(env, j, c, a, ph) && c.s.isRunning
    ensures -1 <= c.s.out.outBufPos <= |c.s.out.outBuf|
    ensures c.s.out.outBufPos < 0 ==> Quiet(c.s.out) && Awaits(c, a.out, ToCome(ph)) && ToCome(ph) != []
  {
  }

  lemma CanMove(env: Env, j: Job, y: System, ph: Phase)
    requires In(env, j, y.c, Ahead(y), ph) && y.c.s.isRunning
    ensures Unblocked(y)
  {
    var o := y.c.s.out;
    Waits(env, j, y.c, Ahead(y), ph);
    if o.outBufPos < 0 && y.wire == "" {
      assert Unsent(o) == "" && y.wire + "" == "";
      assert Ahead(y) == y.srv;
      SomethingToHear(y.c.partial, y.srv.out, ToCome(ph));
    }
  }

  lemma SomethingToHear(partial: string, out: string, ls: seq<string>)
    requires partial + out == Render(ls) && Free('\n', partial) && ls != []
    ensures out != ""
  {
    var all := Render(ls);
    assert all[|ls[0]|] == '\n';
    assert out == "" ==> all == partial;
  }

  // ----- why the output has to be flushed first -----

  /** Something is still being written although the pump takes the next command. */
  predicate Pending(o: Output) {
    o.writeReady && o.outBufPos >= 0 && o.outBuf != ""
  }

  /** The command that goes out when a STOR or a block is complete, if any. */
  function NextText(env: Env, s: State): string {
    var q := NextBlock(env, Promoted(s)).queue.commandList;
    if q == [] then "" else q[0]
  }

  lemma FinishedLoses(s: State)
    requires Paired(s.queue) && s.out.qlist == []
    ensures Finished(s).out.lost ==
            s.out.lost + if Pending(s.out) && s.queue.commandList != [] then |s.queue.commandList[0]| else 0
  {
    if s.queue.commandList != [] {
      assert [] + [s.queue.commandList[0]] == [s.queue.commandList[0]];
    }
  }

  /** Exactly what reading the end of a STOR or a block loses: the whole next command, just when the output
      is pending. */
  lemma LosesExactly(env: Env, s: State)
    requires s.fishCommand in {STOR, WRITE, APPEND} && Paired(s.queue) && s.queue.commandList == [] && s.out.qlist == []
    ensures var lost := ManageLine(env, s, S.COMPLETE).out.lost;
            && lost == s.out.lost + (if Pending(s.out) then |NextText(env, s)| else 0)
            && (lost > s.out.lost <==> Pending(s.out) && NextText(env, s) != "")
  {
    CompleteState(env, s);
    var v := NextBlock(env, Promoted(Heard(s, S.COMPLETE)));
    assert v.out == s.out && v.queue == NextBlock(env, Promoted(s)).queue && Paired(v.queue);
    FinishedLoses(v);
  }

  /** So if the engine read the answer to a STOR or a block while the newlines behind it are still being
      written, the next command would be thrown away, and `sent` would then take it for written: it
      never goes out. */
  lemma ReadBeforeFlush(env: Env, s: State)
    requires s.fishCommand in {STOR, WRITE, APPEND} && Pouring(s.out, Newlines(), -1)
    requires Paired(s.queue) && s.queue.commandList == [] && NextText(env, s) != ""
    ensures var t := ManageLine(env, s, S.COMPLETE);
            && t.out == s.out.(qlist := [NextText(env, s)], writeReady := false,
                  lost := s.out.lost + |NextText(env, s)|)
            && Quiet(Sent(Emptied(t)).out) && t.isRunning == s.isRunning
  {
    LosesExactly(env, s);
    CompleteState(env, s);
    var v := NextBlock(env, Promoted(Heard(s, S.COMPLETE)));
    assert v.queue == NextBlock(env, Promoted(s)).queue && v.out == s.out && v.isRunning == s.isRunning;
    LostCommand(v, NextText(env, s));
  }

  lemma LostCommand(s: State, text: string)
    requires Pouring(s.out, Newlines(), -1) && Paired(s.queue) && s.queue.commandList == [text] && text != ""
    ensures var t := Finished(s);
            && t.out == s.out.(qlist := [text], writeReady := false, lost := s.out.lost + |text|)
            && Quiet(Sent(Emptied(t)).out) && t.isRunning == s.isRunning
  {
    assert [] + [text] == [text];
  }
}
