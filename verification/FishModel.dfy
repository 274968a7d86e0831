/** The state of `fishProtocol` and what each of its member functions makes of it
    (fish/fish.cpp, fish/fish.h). Each function here is the specification of the method of
    the same name in FishEngine. Text on the wire is Latin-1, one `char` per byte. */
module FishModel {
  import opened Text
  import opened FishCommands

  /** Error codes of KIO that end a command chain. */
  datatype Error =
    | UnsupportedProtocol | IsDirectory | CannotRead | CannotWrite | WorkerDefined
    | CannotEnterDirectory | DoesNotExist | CannotChmod | AccessDenied | DirAlreadyExist
    | CannotMkdir | CannotRmdir | CannotDelete | CannotRename | FileAlreadyExist | ConnectionBroken

  /** Calls to the worker, other than `data` (see `payload`) and the progress figure. */
  datatype Call =
    | TotalSize(size: int) | Sniff(head: string) | MimeType(name: string) | Redirection(path: string)
    | ListEntry | StatEntry | EndOfData

  /** What the engine is told from outside: how a command is spelled, the path of the
      current URL, and the server script it may have to upload. */
  datatype Env = Env(text: (Command, seq<string>) -> string, path: string, fishCode: string)

  /** The output pump. `lost` counts bytes `writeChild` threw away. */
  datatype Output = Output(outBuf: string, outBufPos: int, qlist: seq<string>, writeReady: bool, rawWrite: int,
        lost: nat)

  /** The command queue, with the commands ever queued and ever issued. */
  datatype Queue = Queue(commandList: seq<string>, commandCodes: seq<Command>, queued: seq<string>, issued: seq<string>)

  /** Raw reading; `payload` is everything handed to `data`. */
  datatype Input = Input(rawRead: int, recvLen: int, dataRead: int, mimeBuffer: string, mimeTypeSent: bool,
        payload: string)

  /** Uploads, and the checks before writing. `uploads` is what `readData` will deliver. */
  datatype Put = Put(uploads: seq<string>, rawData: string, sendLen: int, putPos: nat, putPerm: int,
                     listCheck: bool, checkOverwrite: bool, checkExist: bool, hasAppend: bool)

  datatype State = State(out: Output, queue: Queue, input: Input, put: Put,
                         fishCommand: Command, errorCount: int, isRunning: bool, connected: bool,
                         failed: Option<Error>, lines: seq<string>, calls: seq<Call>)

  const MIME_SIZE := 1024

  /** The state the constructor leaves (fish/fish.cpp:246-288). */
  const INITIAL := State(
    Output("", -1, [], true, -1, 0), Queue([], [], [], []), Input(0, -1, 0, Repeat('\0', MIME_SIZE), false, ""),
    Put([], "", -1, 0, -1, false, false, false, false), FISH, 0, false, false, None, [], [])

  // ----- the output pump -----

  /** fish/fish.cpp:602-609 */
  function WriteChild(o: Output, buf: string): Output {
    if o.outBufPos >= 0 && o.outBuf != "" then o.(lost := o.lost + |buf|)
    else o.(outBuf := buf, outBufPos := 0)
  }

  /** fish/fish.cpp:1262-1273 */
  function WriteStdin(o: Output, line: string): Output {
    var o := o.(qlist := o.qlist + [line]);
    if o.writeReady then WriteChild(o.(writeReady := false), o.qlist[0]) else o
  }

  /** `dataReq` and `readData`: the next buffer of the upload; an empty one means the end. */
  function ReadData(p: Put): Put {
    if p.uploads == [] then p.(rawData := "") else p.(rawData := p.uploads[0], uploads := p.uploads[1..])
  }

  /** Enough newlines for a `dd` that reads in multiples of eight (fish/fish.cpp:1277). */
  function Newlines(): string {
    Repeat('\n', 15)
  }

  /** What happens when the output buffer has gone out (fish/fish.cpp:1262-1306). */
  function Sent(s: State): State {
    var o, raw := s.out, s.put.rawData;
    if o.rawWrite > 0 then
      var o := WriteChild(o, raw[..if o.rawWrite > |raw| then |raw| else o.rawWrite]).(rawWrite := o.rawWrite - |raw|);
      if o.rawWrite > 0 then
        var p := ReadData(s.put);
        if p.rawData == "" then Shutdown(s.(out := o, put := p)) else s.(out := o, put := p)
      else s.(out := o)
    else if o.rawWrite == 0 then s.(out := WriteChild(o, Newlines()).(rawWrite := -1))
    else
      var o := if o.qlist != [] then o.(qlist := o.qlist[1..]) else o;
      s.(out := if o.qlist == [] then o.(writeReady := true) else WriteChild(o, o.qlist[0]))
  }

  /** The write half of `run`: a write(2) of up to `k` bytes, and a drained buffer is
      reported to `sent` (fish/fish.cpp:1509-1540). */
  function Flush(s: State, k: nat): State {
    var pos := s.out.outBufPos + k;
    if pos >= |s.out.outBuf| then Sent(s.(out := s.out.(outBufPos := -1, outBuf := "")))
    else s.(out := s.out.(outBufPos := pos))
  }

  /** fish/fish.cpp:795-828 */
  function Shutdown(s: State): State {
    State(Output("", -1, [], true, -1, s.out.lost), s.queue.(commandList := [], commandCodes := []),
          s.input.(rawRead := 0, recvLen := -1), s.put.(sendLen := -1),
          s.fishCommand, s.errorCount, false, false, s.failed, s.lines, s.calls)
  }

  // ----- the queue -----

  /** The queue holds one code for every text. */
  predicate Paired(q: Queue) {
    |q.commandList| == |q.commandCodes|
  }

  /** fish/fish.cpp:830-858 */
  function SendCommand(env: Env, q: Queue, cmd: Command, args: seq<string>): Queue {
    var text := env.text(cmd, args);
    q.(commandList := q.commandList + [text], commandCodes := q.commandCodes + [cmd], queued := q.queued + [text])
  }

  function PopCommand(q: Queue): Queue
    requires q.commandList != [] && q.commandCodes != []
  {
    q.(commandList := q.commandList[1..], commandCodes := q.commandCodes[1..], issued := q.issued + [q.commandList[0]])
  }

  /** fish/fish.cpp:1439-1457 */
  function Finished(s: State): State {
    if s.queue.commandList != [] && s.queue.commandCodes != [] then
      s.(fishCommand := s.queue.commandCodes[0], errorCount := -ReplyLines(s.queue.commandCodes[0]),
         input := s.input.(rawRead := 0), out := WriteStdin(s.out.(rawWrite := -1), s.queue.commandList[0]),
         queue := PopCommand(s.queue))
    else s.(isRunning := false)
  }

  /** fish/fish.cpp:1459-1467 */
  function Fail(s: State, e: Error): State {
    s.(queue := s.queue.(commandList := [], commandCodes := []), isRunning := false, failed := Some(e))
  }

  // ----- replies -----

  predicate IsResult(line: string) {
    StartsWith(line, "### ")
  }

  /** Result code of a reply line; 0 is a line of the body (fish/fish.cpp:863-881). */
  function Code(line: string, errorCount: int): int {
    if IsResult(line) then
      var n := ToInteger(if |line| >= 7 then line[4..7] else line[4..], 0x8000_0000);
      var code := if n.Some? then n.value else 500;
      if code == 0 then (if errorCount != 0 then 500 else 200)
      else if code == 1 then (if errorCount != 0 then 500 else 100)
      else code
    else 0
  }

  predicate Success(code: int) {
    200 <= code < 300
  }

  const INT64_BOUND := 0x8000_0000_0000_0000

  function At(s: string, i: nat): char {
    if i < |s| then s[i] else '\0'
  }

  /** How a body line of LIST or STAT corrects the error counter, which `handleResponse`
      has just raised (fish/fish.cpp:938-1117). */
  function EntryLineCredit(line: string): int {
    if line == "" then -1
    else if IsDigit(line[0]) then
      var v := ToInteger(line, INT64_BOUND);
      if v.Some? && v.value > 0 then -1 else 0
    else match line[0]
      case 'P' =>
        if At(line, 1) !in {'d', '-', 'l', 'c', 'b', 's', 'p'} then 0
        else if IndexOf(line, ':', 12) < 0 then 0 else -1
      case 'd' => if Count(line, ' ') >= 2 then -1 else 0
      case 'D' => if Count(line, ' ') >= 5 then -1 else 0
      case 'S' => if ToInteger(line[1..], INT64_BOUND).Some? then -1 else 0
      case 'E' => -1
      case ':' => -1
      case 'M' => -1
      case 'L' => -1
      case _ => 0
  }

  function VersionLine(s: State, line: string): State {
    if StartsWith(line, "VER 0.0.3") then s.(put := s.put.(hasAppend := Contains(line + " ", " append ")))
    else Fail(Shutdown(s), UnsupportedProtocol)
  }

  function ListLine(s: State, line: string): State {
    var t := s.(errorCount := s.errorCount + EntryLineCredit(line));
    if line == "" then
      if s.put.listCheck then t.(put := t.put.(checkExist := true)) else t.(calls := t.calls + [ListEntry])
    else if IsDigit(line[0]) && !s.put.listCheck then
      var v := ToInteger(line, INT64_BOUND);
      t.(calls := t.calls + [TotalSize(if v.Some? then v.value else 0)])
    else t
  }

  function SizeLine(s: State, line: string): State {
    var v := ToInteger(line, INT64_BOUND);
    if line == "" then Fail(s.(input := s.input.(recvLen := 0)), IsDirectory)
    else if v.Some? then s.(input := s.input.(recvLen := v.value)) else Fail(Shutdown(s), CannotRead)
  }

  /** Body lines, the `!rc` branch (fish/fish.cpp:924-1133). */
  function Body(s: State, line: string): State {
    match s.fishCommand
    case VER => VersionLine(s, line)
    case PWD => s.(calls := s.calls + [Redirection(line)])
    case LIST => ListLine(s, line)
    case STAT => s.(errorCount := s.errorCount + EntryLineCredit(line))
    case RETR => SizeLine(s, line)
    case _ => s
  }

  function StartRaw(s: State): State {
    if s.input.recvLen == -1 then Fail(Shutdown(s), CannotRead)
    else
      var i := s.input.(rawRead := s.input.recvLen, dataRead := 0, mimeTypeSent := s.input.recvLen == 0);
      if i.recvLen == 0 then s.(input := i, calls := s.calls + [MimeType("application/x-zerosize")]) else s.(input := i)
  }

  /** Preliminary success (fish/fish.cpp:1134-1166). */
  function Preliminary(env: Env, s: State): State {
    match s.fishCommand
    case FISH => s.(out := WriteChild(s.out, env.fishCode))
    case READ => StartRaw(s.(input := s.input.(recvLen := MIME_SIZE)))
    case RETR => StartRaw(s)
    case STOR | WRITE | APPEND => s.(out := WriteChild(s.out.(rawWrite := s.put.sendLen), ""))
    case _ => s
  }

  /** The error each command reports, and whether the connection is given up with it. */
  function RefusalError(cmd: Command, code: int): Error {
    match cmd
    case STOR | WRITE | APPEND | COPY | LINK | SYMLINK => CannotWrite
    case RETR | READ => CannotRead
    case PWD | CWD | LIST => CannotEnterDirectory
    case STAT => DoesNotExist
    case CHMOD => CannotChmod
    case CHOWN | CHGRP => AccessDenied
    case MKD => if code == 501 then DirAlreadyExist else CannotMkdir
    case RMD => CannotRmdir
    case DELE => CannotDelete
    case RENAME => CannotRename
    case _ => WorkerDefined
  }

  predicate HangsUp(cmd: Command) {
    cmd in {STOR, WRITE, APPEND, RETR, READ, FISH, VER}
  }

  /** Failure results (fish/fish.cpp:1167-1228). */
  function Refused(s: State, code: int): State {
    if s.fishCommand == READ && code == 501 then
      Finished(s.(calls := s.calls + [MimeType("inode/directory")],
            input := s.input.(mimeTypeSent := true, recvLen := 0)))
    else if s.fishCommand == LIST && s.put.listCheck then Finished(s.(put := s.put.(checkExist := false)))
    else if s.fishCommand == EXEC then s
    else Fail(if HangsUp(s.fishCommand) then Shutdown(s) else s, RefusalError(s.fishCommand, code))
  }

  /** The next command of an upload: another block, or at the end the permissions. */
  function NextQueue(env: Env, cmd: Command, q: Queue, p: Put): Queue {
    var n := |p.rawData|;
    if n > 0 then
      if cmd == APPEND then SendCommand(env, q, APPEND, [Dec(n), env.path])
      else SendCommand(env, q, WRITE, [Dec(p.putPos), Dec(n), env.path])
    else if !p.checkExist && p.putPerm > -1 then SendCommand(env, q, CHMOD, [Octal(p.putPerm), env.path])
    else q
  }

  /** fish/fish.cpp:1239-1256 */
  function NextBlock(env: Env, s: State): State {
    var p := ReadData(s.put);
    var n := |p.rawData|;
    s.(queue := NextQueue(env, s.fishCommand, s.queue, p),
       put := p.(putPos := if s.fishCommand == WRITE then p.putPos + n else p.putPos, sendLen := n))
  }

  function DoneCalls(cmd: Command): seq<Call> {
    if cmd == STAT then [StatEntry] else if cmd == RETR then [EndOfData] else []
  }

  /** A finished STOR goes on as the command that sends the blocks. */
  function Promoted(s: State): State {
    if s.fishCommand == STOR then s.(fishCommand := if s.put.hasAppend then APPEND else WRITE) else s
  }

  /** The check before a write found the target (fish/fish.cpp:1232-1235). */
  predicate Blocked(s: State) {
    s.fishCommand == LIST && s.put.listCheck && !s.put.checkOverwrite && s.put.checkExist
  }

  /** Success results (fish/fish.cpp:1229-1258). */
  function Done(env: Env, s: State): State {
    var s := Promoted(s);
    if Blocked(s) then Fail(s, FileAlreadyExist)
    else if s.fishCommand == APPEND || s.fishCommand == WRITE then Finished(NextBlock(env, s))
    else Finished(s.(calls := s.calls + DoneCalls(s.fishCommand)))
  }

  /** `handleResponse`: log the line and count it if it is no result (fish/fish.cpp:863-881). */
  function Heard(s: State, line: string): State {
    s.(lines := s.lines + [line], errorCount := if IsResult(line) then s.errorCount else s.errorCount + 1)
  }

  /** `manageConnection`: one complete reply line (fish/fish.cpp:917-1260). */
  function ManageLine(env: Env, s: State, line: string): State {
    var code := Code(line, s.errorCount);
    var s := Heard(s, line);
    if code == 0 then Body(s, line)
    else if code == 100 then Preliminary(env, s)
    else if Success(code) then Done(env, s)
    else Refused(s, code)
  }

  // ----- what every step keeps -----

  ghost predicate ValidInput(i: Input) {
    && |i.mimeBuffer| == MIME_SIZE
    && 0 <= i.dataRead
    && (i.rawRead > 0 && !i.mimeTypeSent ==> i.dataRead < MIME_SIZE)
  }

  ghost predicate Valid(s: State) {
    && Paired(s.queue)
    && -1 <= s.out.outBufPos <= |s.out.outBuf|
    && ValidInput(s.input)
  }

  /** No reply rewrites the log of lines or restarts a chain, only a failure ends the connection,
      and a failure ends the chain. */
  ghost predicate Goes(s: State, t: State) {
    && Valid(t)
    && t.lines == s.lines
    && (t.isRunning ==> s.isRunning)
    && (t.failed.None? ==> s.failed.None? && t.connected == s.connected)
    && (t.isRunning ==> t.failed == s.failed)
  }

  lemma FinishedValid(s: State)
    requires Valid(s)
    ensures Goes(s, Finished(s))
  {
  }

  lemma StartRawValid(s: State)
    requires Valid(s)
    ensures Goes(s, StartRaw(s))
  {
  }

  lemma PreliminaryValid(env: Env, s: State)
    requires Valid(s)
    ensures Goes(s, Preliminary(env, s))
  {
    match s.fishCommand {
      case READ => StartRawValid(s.(input := s.input.(recvLen := MIME_SIZE)));
      case RETR => StartRawValid(s);
      case _ =>
    }
  }

  lemma VersionLineValid(s: State, line: string)
    requires Valid(s)
    ensures Goes(s, VersionLine(s, line))
  {
  }

  lemma ListLineValid(s: State, line: string)
    requires Valid(s)
    ensures Goes(s, ListLine(s, line))
  {
  }

  lemma SizeLineValid(s: State, line: string)
    requires Valid(s)
    ensures Goes(s, SizeLine(s, line))
  {
  }

  lemma BodyValid(s: State, line: string)
    requires Valid(s)
    ensures Goes(s, Body(s, line))
  {
    match s.fishCommand {
      case VER => VersionLineValid(s, line);
      case LIST => ListLineValid(s, line);
      case RETR => SizeLineValid(s, line);
      case _ =>
    }
  }

  lemma RefusedValid(s: State, code: int)
    requires Valid(s)
    ensures Goes(s, Refused(s, code))
  {
    if s.fishCommand == READ && code == 501 {
      FinishedValid(s.(calls := s.calls + [MimeType("inode/directory")],
                       input := s.input.(mimeTypeSent := true, recvLen := 0)));
    } else if s.fishCommand == LIST && s.put.listCheck {
      FinishedValid(s.(put := s.put.(checkExist := false)));
    }
  }

  lemma NextBlockValid(env: Env, s: State)
    requires Valid(s)
    ensures Goes(s, NextBlock(env, s))
  {
  }

  lemma DoneValid(env: Env, s: State)
    requires Valid(s)
    ensures Goes(s, Done(env, s))
  {
    var t := Promoted(s);
    if t.fishCommand == APPEND || t.fishCommand == WRITE {
      NextBlockValid(env, t);
      FinishedValid(NextBlock(env, t));
    }
  }

  lemma ManageLineValid(env: Env, s: State, line: string)
    requires Valid(s)
    ensures Goes(s.(lines := s.lines + [line]), ManageLine(env, s, line))
  {
    var code, t := Code(line, s.errorCount), Heard(s, line);
    assert Valid(t);
    BodyValid(t, line);
    PreliminaryValid(env, t);
    DoneValid(env, t);
    RefusedValid(t, code);
  }
}
