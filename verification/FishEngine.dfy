/** `fishProtocol` as the source writes it: fields updated in place, a loop over the receive
    buffer, and `run`'s loop that carries an unfinished line to the front of it. Every method
    is proved against the function of FishModel or FishStream with the same meaning. */
module FishEngine {
  import opened Text
  import opened FishCommands
  import M = FishModel
  import F = FishStream
  import B = FishBytes
  import Q = FishQuoting

  function MakeEnv(alt: Command -> string, path: string, fishCode: string): M.Env {
    M.Env((cmd, args) => if |args| <= 3 then CommandText(alt, cmd, args) else "", path, fishCode)
  }

  class FishProtocol {
    const alt: Command -> string
    const path: string
    const fishCode: string
    /** What the engine makes of one byte of the replies. */
    ghost const step: F.Step

    // the fields of the source, grouped as in FishModel
    var out: M.Output
    var queue: M.Queue
    var input: M.Input
    var put: M.Put
    var fishCommand: Command
    var errorCount: int
    var isRunning: bool
    var connected: bool
    var failed: Option<M.Error>
    var lines: seq<string>
    var calls: seq<M.Call>

    ghost function Env(): M.Env {
      MakeEnv(alt, path, fishCode)
    }

    ghost predicate Linked() {
      B.StepOf(step, Env())
    }

    /** fish/fish.cpp:246-288 */
    constructor (alt: Command -> string, path: string, fishCode: string)
      ensures View() == M.INITIAL && Linked()
      ensures this.alt == alt && this.path == path && this.fishCode == fishCode
    {
      this.alt, this.path, this.fishCode := alt, path, fishCode;
      out := M.INITIAL.out;
      queue := M.INITIAL.queue;
      input := M.INITIAL.input;
      put := M.INITIAL.put;
      fishCommand, errorCount := FISH, 0;
      isRunning, connected, failed := false, false, None;
      lines, calls := [], [];
      step := B.ByteStep(MakeEnv(alt, path, fishCode));
    }

    ghost function View(): M.State reads this {
      M.State(out, queue, input, put, fishCommand, errorCount, isRunning, connected, failed, lines, calls)
    }

    /** fish/fish.cpp:602-609 */
    method WriteChild(buf: string)
      modifies this`out
      ensures out == M.WriteChild(old(out), buf)
    {
      if out.outBufPos >= 0 && out.outBuf != "" {
        out := out.(lost := out.lost + |buf|);
        return;
      }
      out := out.(outBuf := buf, outBufPos := 0);
    }

    /** fish/fish.cpp:1262-1273 */
    method WriteStdin(line: string)
      modifies this`out
      ensures out == M.WriteStdin(old(out), line)
    {
      out := out.(qlist := out.qlist + [line]);
      if out.writeReady {
        out := out.(writeReady := false);
        WriteChild(out.qlist[0]);
      }
    }

    /** fish/fish.cpp:795-828 */
    method ShutdownConnection()
      modifies this
      ensures View() == M.Shutdown(old(View()))
    {
      connected := false;
      out := M.Output("", -1, [], true, -1, out.lost);
      queue := queue.(commandList := [], commandCodes := []);
      isRunning := false;
      input := input.(rawRead := 0, recvLen := -1);
      put := put.(sendLen := -1);
    }

    /** fish/fish.cpp:1459-1467 */
    method Error(e: M.Error)
      modifies this
      ensures View() == M.Fail(old(View()), e)
    {
      queue := queue.(commandList := [], commandCodes := []);
      isRunning := false;
      failed := Some(e);
    }

    /** fish/fish.cpp:830-858: escape each argument in place, append it to the FISH form and
        replace its placeholder in the shell form. */
    method SendCommand(cmd: Command, args: seq<string>)
      requires |args| == Params(cmd)
      modifies this`queue
      ensures queue == M.SendCommand(Env(), old(queue), cmd, args)
    {
      var realCmd, realAlt := BuildForms(cmd, args);
      var s := "#" + realCmd + "\n " + realAlt + " 2>&1;echo '### 200'\n";
      if cmd == FISH {
        s := " " + s;
      }
      SameText(cmd, args, s, realCmd, realAlt);
      queue := queue.(commandList := queue.commandList + [s], commandCodes := queue.commandCodes + [cmd],
                      queued := queue.queued + [s]);
    }

    method BuildForms(cmd: Command, args: seq<string>) returns (realCmd: string, realAlt: string)
      requires |args| == Params(cmd)
      ensures realCmd == Name(cmd) + Spaced(EscapeAll(args))
      ensures realAlt == Q.ReplaceFrom(alt(cmd), EscapeAll(args), 0)
    {
      realCmd, realAlt := Name(cmd), alt(cmd);
      ghost var name, escaped := realCmd, EscapeAll(args);
      assert escaped[..0] == [];
      for i := 0 to |args|
        invariant realCmd == name + Spaced(escaped[..i])
        invariant Q.ReplaceFrom(realAlt, escaped, i) == Q.ReplaceFrom(alt(cmd), escaped, 0)
      {
        var arg := Q.EscapeInPlace(args[i]);
        SpacedAppend(escaped[..i], arg);
        assert escaped[..i + 1] == escaped[..i] + [arg];
        Joins(name, Spaced(escaped[..i]), arg);
        realCmd := realCmd + " " + arg;
        realAlt := Q.ReplaceArg(realAlt, Digit(i + 1), arg);
      }
      assert escaped[..|args|] == escaped;
    }

    lemma SameText(cmd: Command, args: seq<string>, s: string, realCmd: string, realAlt: string)
      requires |args| == Params(cmd)
      requires realCmd == Name(cmd) + Spaced(EscapeAll(args))
      requires realAlt == Q.ReplaceFrom(alt(cmd), EscapeAll(args), 0)
      requires s == (if cmd == FISH then " " else "") + ("#" + realCmd + "\n " + realAlt + " 2>&1;echo '### 200'\n")
      ensures s == CommandText(alt, cmd, args)
    {
      HashJoins(Name(cmd), Spaced(EscapeAll(args)));
    }

    /** fish/fish.cpp:1439-1457 */
    method Finished()
      modifies this
      ensures View() == M.Finished(old(View()))
    {
      if |queue.commandList| > 0 && |queue.commandCodes| > 0 {
        fishCommand := queue.commandCodes[0];
        errorCount := -ReplyLines(fishCommand);
        input := input.(rawRead := 0);
        out := out.(rawWrite := -1);
        WriteStdin(queue.commandList[0]);
        queue := queue.(commandList := queue.commandList[1..], commandCodes := queue.commandCodes[1..],
                        issued := queue.issued + [queue.commandList[0]]);
      } else {
        isRunning := false;
      }
    }

    method ReadData()
      modifies this`put
      ensures put == M.ReadData(old(put))
    {
      if put.uploads == [] {
        put := put.(rawData := "");
      } else {
        put := put.(rawData := put.uploads[0], uploads := put.uploads[1..]);
      }
    }

    /** fish/fish.cpp:1262-1306 */
    method Sent()
      modifies this
      ensures View() == M.Sent(old(View()))
    {
      if out.rawWrite > 0 {
        var raw := put.rawData;
        WriteChild(raw[..if out.rawWrite > |raw| then |raw| else out.rawWrite]);
        out := out.(rawWrite := out.rawWrite - |raw|);
        if out.rawWrite > 0 {
          ReadData();
          if |put.rawData| <= 0 {
            ShutdownConnection();
          }
        }
        return;
      } else if out.rawWrite == 0 {
        WriteChild(M.Newlines());
        out := out.(rawWrite := -1);
        return;
      }
      if |out.qlist| > 0 {
        out := out.(qlist := out.qlist[1..]);
      }
      if |out.qlist| == 0 {
        out := out.(writeReady := true);
      } else {
        WriteChild(out.qlist[0]);
      }
    }

    /** The write half of `run`, for a write(2) of up to `k` bytes (fish/fish.cpp:1509-1540). */
    method Flush(k: nat)
      modifies this
      ensures View() == M.Flush(old(View()), k)
    {
      out := out.(outBufPos := out.outBufPos + k);
      if out.outBufPos >= |out.outBuf| {
        out := out.(outBufPos := -1, outBuf := "");
        Sent();
      }
    }

    /** fish/fish.cpp:863-881 */
    method HandleResponse(str: string) returns (rc: int)
      modifies this`errorCount
      ensures rc == M.Code(str, old(errorCount))
      ensures errorCount == if M.IsResult(str) then old(errorCount) else old(errorCount) + 1
    {
      if StartsWith(str, "### ") {
        var n := ToInteger(if |str| >= 7 then str[4..7] else str[4..], 0x8000_0000);
        rc := if n.Some? then n.value else 500;
        if rc == 0 {
          rc := if errorCount != 0 then 500 else 200;
        } else if rc == 1 {
          rc := if errorCount != 0 then 500 else 100;
        }
      } else {
        errorCount := errorCount + 1;
        rc := 0;
      }
    }

    method ManageListLine(line: string)
      modifies this
      ensures View() == M.ListLine(old(View()), line)
    {
      errorCount := errorCount + M.EntryLineCredit(line);
      if line == "" {
        if put.listCheck {
          put := put.(checkExist := true);
        } else {
          calls := calls + [M.ListEntry];
        }
      } else if IsDigit(line[0]) && !put.listCheck {
        var v := ToInteger(line, M.INT64_BOUND);
        calls := calls + [M.TotalSize(if v.Some? then v.value else 0)];
      }
    }

    method ManageSizeLine(line: string)
      modifies this
      ensures View() == M.SizeLine(old(View()), line)
    {
      var v := ToInteger(line, M.INT64_BOUND);
      if line == "" {
        input := input.(recvLen := 0);
        Error(M.IsDirectory);
      } else if v.Some? {
        input := input.(recvLen := v.value);
      } else {
        ShutdownConnection();
        Error(M.CannotRead);
      }
    }

    method ManageVersionLine(line: string)
      modifies this
      ensures View() == M.VersionLine(old(View()), line)
    {
      if StartsWith(line, "VER 0.0.3") {
        put := put.(hasAppend := Contains(line + " ", " append "));
      } else {
        ShutdownConnection();
        Error(M.UnsupportedProtocol);
      }
    }

    /** Body lines of a reply (fish/fish.cpp:924-1133). */
    method ManageBody(line: string)
      modifies this
      ensures View() == M.Body(old(View()), line)
    {
      match fishCommand {
        case VER => ManageVersionLine(line);
        case PWD => calls := calls + [M.Redirection(line)];
        case LIST => ManageListLine(line);
        case STAT => errorCount := errorCount + M.EntryLineCredit(line);
        case RETR => ManageSizeLine(line);
        case _ =>
      }
    }

    method StartRaw()
      modifies this
      ensures View() == M.StartRaw(old(View()))
    {
      if input.recvLen == -1 {
        ShutdownConnection();
        Error(M.CannotRead);
        return;
      }
      input := input.(rawRead := input.recvLen, dataRead := 0, mimeTypeSent := false);
      if input.recvLen == 0 {
        calls := calls + [M.MimeType("application/x-zerosize")];
        input := input.(mimeTypeSent := true);
      }
    }

    /** fish/fish.cpp:1134-1166 */
    method ManagePreliminary()
      modifies this
      ensures View() == M.Preliminary(Env(), old(View()))
    {
      match fishCommand {
        case FISH => WriteChild(fishCode);
        case READ =>
          input := input.(recvLen := M.MIME_SIZE);
          StartRaw();
        case RETR => StartRaw();
        case STOR | WRITE | APPEND =>
          out := out.(rawWrite := put.sendLen);
          WriteChild("");
        case _ =>
      }
    }

    /** fish/fish.cpp:1167-1228 */
    method ManageRefusal(rc: int)
      modifies this
      ensures View() == M.Refused(old(View()), rc)
    {
      if fishCommand == READ && rc == 501 {
        calls := calls + [M.MimeType("inode/directory")];
        input := input.(mimeTypeSent := true, recvLen := 0);
        Finished();
      } else if fishCommand == LIST && put.listCheck {
        put := put.(checkExist := false);
        Finished();
      } else if fishCommand != EXEC {
        if M.HangsUp(fishCommand) {
          ShutdownConnection();
        }
        Error(M.RefusalError(fishCommand, rc));
      }
    }

    method QueueNext()
      modifies this`queue
      ensures queue == M.NextQueue(Env(), fishCommand, old(queue), put)
    {
      if |put.rawData| > 0 {
        if fishCommand == APPEND {
          SendCommand(APPEND, [Dec(|put.rawData|), path]);
        } else {
          SendCommand(WRITE, [Dec(put.putPos), Dec(|put.rawData|), path]);
        }
      } else if !put.checkExist && put.putPerm > -1 {
        SendCommand(CHMOD, [Octal(put.putPerm), path]);
      }
    }

    /** fish/fish.cpp:1239-1256 */
    method NextBlock()
      modifies this
      ensures View() == M.NextBlock(Env(), old(View()))
    {
      ReadData();
      QueueNext();
      if fishCommand == WRITE {
        put := put.(putPos := put.putPos + |put.rawData|);
      }
      put := put.(sendLen := |put.rawData|);
    }

    /** The upload goes on with the commands that carry data (fish/fish.cpp:1230-1231). */
    method Promote()
      modifies this`fishCommand
      ensures View() == M.Promoted(old(View()))
    {
      if fishCommand == STOR {
        fishCommand := if put.hasAppend then APPEND else WRITE;
      }
    }

    /** fish/fish.cpp:1229-1258 */
    method ManageSuccess()
      modifies this
      ensures View() == M.Done(Env(), old(View()))
    {
      Promote();
      if fishCommand == LIST && put.listCheck && !put.checkOverwrite && put.checkExist {
        Error(M.FileAlreadyExist);
        return;
      } else if fishCommand == APPEND || fishCommand == WRITE {
        NextBlock();
      } else {
        calls := calls + M.DoneCalls(fishCommand);
      }
      Finished();
    }

    /** fish/fish.cpp:917-1260 */
    method ManageConnection(line: string)
      requires M.Valid(View())
      modifies this
      ensures View() == M.ManageLine(Env(), old(View()), line)
      ensures M.Valid(View()) && (failed.None? ==> connected == old(connected))
    {
      M.ManageLineValid(Env(), View(), line);
      var rc := HandleResponse(line);
      lines := lines + [line];
      assert View() == M.Heard(old(View()), line);
      if rc == 0 {
        ManageBody(line);
      } else if rc == 100 {
        ManagePreliminary();
      } else if 200 <= rc < 300 {
        ManageSuccess();
      } else {
        ManageRefusal(rc);
      }
    }
  
    /** `memcpy` into the MIME buffer (fish/fish.cpp:1319-1325). */
    method CopyHeld(data: string)
      requires M.ValidInput(input) && input.dataRead + |data| <= M.MIME_SIZE
      modifies this`input
      ensures input == B.Collected(old(input), data)
    {
      input := input.(mimeBuffer := B.Overwrite(input.mimeBuffer, input.dataRead, data));
      input := input.(dataRead := input.dataRead + |data|, rawRead := input.rawRead - |data|);
      if input.rawRead == 0 {
        input := input.(mimeBuffer := B.Resize(input.mimeBuffer, input.dataRead));
      }
    }

    /** The worker calls once enough is known (fish/fish.cpp:1331-1341). */
    method AnnounceHeld()
      requires |input.mimeBuffer| == input.dataRead
      modifies this`input, this`calls
      ensures View() == B.Sniffed(old(View()), old(input.mimeBuffer), old(input.rawRead))
    {
      calls := calls + [M.Sniff(input.mimeBuffer)];
      input := input.(mimeTypeSent := true);
      if fishCommand != READ {
        calls := calls + [M.TotalSize(input.dataRead + input.rawRead)];
        input := input.(payload := input.payload + input.mimeBuffer);
      }
      input := input.(mimeBuffer := B.Resize(input.mimeBuffer, M.MIME_SIZE));
    }

    /** Counted data while the MIME type is not known (fish/fish.cpp:1318-1344); `n` bytes
        are taken. */
    method TakeHeld(buf: string, at: nat, buflen: nat) returns (n: nat)
      requires at + buflen <= |buf| && buflen > 0
      requires Linked() && M.ValidInput(input) && failed.None? && input.rawRead > 0 && !input.mimeTypeSent
      modifies this`input, this`calls
      ensures M.ValidInput(input) && 0 < n <= buflen
      ensures F.Feed(step, F.Conn(old(View()), ""), buf[at..at + n]) == F.Conn(View(), "")
    {
      var dataSize := if input.rawRead > buflen then buflen else input.rawRead;
      var room := |input.mimeBuffer| - input.dataRead;
      n := if dataSize < room then dataSize else room;
      B.FeedCollected(step, Env(), F.Conn(View(), ""), buf[at..at + n]);
      CopyHeld(buf[at..at + n]);
      if input.dataRead >= |input.mimeBuffer| {
        AnnounceHeld();
      }
    }

    /** Counted data straight to the worker (fish/fish.cpp:1346-1358). */
    method TakeData(buf: string, at: nat, buflen: nat) returns (n: nat)
      requires at + buflen <= |buf| && buflen > 0
      requires Linked() && M.ValidInput(input) && failed.None? && input.rawRead > 0 && input.mimeTypeSent
      modifies this`input
      ensures M.ValidInput(input) && 0 < n <= buflen
      ensures F.Feed(step, F.Conn(old(View()), ""), buf[at..at + n]) == F.Conn(View(), "")
    {
      n := if input.rawRead > buflen then buflen else input.rawRead;
      B.FeedData(step, Env(), F.Conn(View(), ""), buf[at..at + n]);
      input := input.(payload := input.payload + buf[at..at + n], dataRead := input.dataRead + n,
            rawRead := input.rawRead - n);
    }

    method FindNewline(buf: string, at: nat, buflen: nat) returns (pos: nat)
      requires at + buflen <= |buf|
      ensures pos <= buflen && Free('\n', buf[at..at + pos])
      ensures pos < buflen ==> buf[at + pos] == '\n'
    {
      pos := 0;
      while pos < buflen && buf[at + pos] != '\n'
        invariant pos <= buflen && Free('\n', buf[at..at + pos])
      {
        assert buf[at..at + pos + 1] == buf[at..at + pos] + [buf[at + pos]];
        pos := pos + 1;
      }
    }

    /** One complete line out of the buffer (fish/fish.cpp:1366-1376). */
    method TakeLine(buf: string, at: nat, pos: nat)
      requires at + pos < |buf| && Free('\n', buf[at..at + pos]) && buf[at + pos] == '\n'
      requires Linked() && M.Valid(View()) && failed.None? && input.rawRead <= 0
      modifies this
      ensures M.Valid(View()) && (failed.None? ==> connected == old(connected))
      ensures F.Feed(step, F.Conn(old(View()), ""), buf[at..at + pos + 1]) == F.Conn(View(), "")
    {
      var s := buf[at..at + pos];
      assert buf[at..at + pos + 1] == s + "\n";
      B.FeedLine(step, Env(), View(), s);
      ManageConnection(s);
    }

    /** The counted-data part of one round (fish/fish.cpp:1315-1358). */
    method TakeRaw(buf: string, at: nat, buflen: nat) returns (n: nat)
      requires at + buflen <= |buf| && buflen > 0
      requires Linked() && M.Valid(View()) && failed.None? && input.rawRead > 0
      modifies this
      ensures M.Valid(View()) && failed.None? && connected == old(connected)
      ensures 0 < n <= buflen
      ensures F.Feed(step, F.Conn(old(View()), ""), buf[at..at + n]) == F.Conn(View(), "")
    {
      if !input.mimeTypeSent {
        n := TakeHeld(buf, at, buflen);
      } else {
        n := TakeData(buf, at, buflen);
      }
    }

    /** The line part of one round (fish/fish.cpp:1360-1384): `go` is the loop's condition. */
    method LineRound(buf: string, at: nat, buflen: nat) returns (n: nat, go: bool)
      requires at + buflen <= |buf| && buflen > 0
      requires Linked() && M.Valid(View()) && failed.None? && connected && input.rawRead <= 0
      modifies this
      ensures M.Valid(View()) && n <= buflen
      ensures F.Feed(step, F.Conn(old(View()), ""), buf[at..at + n]) == F.Conn(View(), "")
      ensures go ==> 0 < n < buflen && failed.None? && connected
      ensures !go && failed.None? ==> n == buflen || (input.rawRead <= 0 && Free('\n', buf[at + n..at + buflen]))
    {
      n, go := 0, false;
      var pos := FindNewline(buf, at, buflen);
      if pos < buflen {
        TakeLine(buf, at, pos);
        n := pos + 1;
        if failed.None? {
          pos := FindNewline(buf, at + n, buflen - n);
          go := connected && buflen - n != 0 && (input.rawRead > 0 || pos < buflen - n);
        }
      }
    }

    /** One round of the loop: `n` bytes are done with, `go` says whether there is another.
        What the source does in one round with counted data and the line behind it are two
        rounds here. */
    method Round(buf: string, at: nat, buflen: nat) returns (n: nat, go: bool)
      requires at + buflen <= |buf| && buflen > 0
      requires Linked() && M.Valid(View()) && failed.None? && connected
      modifies this
      ensures M.Valid(View()) && n <= buflen
      ensures F.Feed(step, F.Conn(old(View()), ""), buf[at..at + n]) == F.Conn(View(), "")
      ensures go ==> 0 < n < buflen && failed.None? && connected
      ensures !go && failed.None? ==> n == buflen || (input.rawRead <= 0 && Free('\n', buf[at + n..at + buflen]))
    {
      if input.rawRead > 0 {
        n := TakeRaw(buf, at, buflen);
        go := n < buflen;
      } else {
        n, go := LineRound(buf, at, buflen);
      }
    }

    /** fish/fish.cpp:1308-1386: works off `buf`, a piece of the replies, and says how many it
        left, the start of a line whose end has not come yet. */
    method Received(buf: string) returns (left: nat)
      requires Linked() && M.Valid(View()) && connected && failed.None?
      modifies this
      ensures M.Valid(View()) && left <= |buf|
      ensures failed.None? ==> F.Feed(step, F.Conn(old(View()), ""), buf) == F.Conn(View(), buf[|buf| - left..])
      ensures failed.Some? ==> F.Feed(step, F.Conn(old(View()), ""), buf) == F.Conn(View(), "")
    {
      var at: nat, buflen: nat, go := 0, |buf|, |buf| > 0;
      ghost var result := F.Feed(step, F.Conn(View(), ""), buf);
      assert buf[0..] == buf;
      while go
        invariant at + buflen == |buf|
        invariant M.Valid(View()) && (go ==> buflen > 0 && failed.None? && connected)
        invariant result == F.Feed(step, F.Conn(View(), ""), buf[at..])
        invariant !go && failed.None? ==> buflen == 0 || (input.rawRead <= 0 && Free('\n', buf[at..]))
        decreases go, buflen
      {
        ghost var before := F.Conn(View(), "");
        var n;
        n, go := Round(buf, at, buflen);
        F.FeedSplit(step, before, buf, at, n);
        assert buf[at + n..] == buf[at + n..at + buflen];
        at, buflen := at + n, buflen - n;
      }
      left := buflen;
      if failed.Some? {
        B.FeedFailed(step, Env(), F.Conn(View(), ""), buf[at..]);
      } else if buflen > 0 {
        B.FeedText(step, Env(), F.Conn(View(), ""), buf[at..]);
        assert "" + buf[at..] == buf[at..];
      }
    }

    static method Append(buf: array<char>, offset: nat, bytes: string)
      requires offset + |bytes| <= buf.Length
      modifies buf
      ensures buf[..offset + |bytes|] == old(buf[..offset]) + bytes
    {
      forall j | 0 <= j < |bytes| {
        buf[offset + j] := bytes[j];
      }
    }

    static method MoveToFront(buf: array<char>, len: nat, n: nat)
      requires n <= len <= buf.Length
      modifies buf
      ensures buf[..n] == old(buf[..len])[len - n..]
    {
      forall j | 0 <= j < n {
        buf[j] := buf[len - n + j];
      }
    }

    /** One read of `run`: `received` sees the carried bytes and the new ones, and what it
        leaves is moved to the front (fish/fish.cpp:1543-1571). */
    method ReadSome(buf: array<char>, offset: nat, bytes: string) returns (noff: nat)
      requires buf.Length == F.BUFFER_SIZE && offset + |bytes| <= buf.Length
      requires Linked() && M.Valid(View()) && F.Orderly(F.Conn(View(), buf[..offset])) && isRunning
      modifies this, buf
      ensures M.Valid(View()) && noff <= buf.Length
      ensures F.Feed(step, F.Conn(old(View()), old(buf[..offset])), bytes)
           == F.Conn(View(), if failed.None? then buf[..noff] else "")
    {
      B.CarryOver(step, Env(), F.Conn(View(), buf[..offset]), bytes);
      Append(buf, offset, bytes);
      var len := offset + |bytes|;
      noff := Received(buf[..len]);
      if failed.None? {
        MoveToFront(buf, len, noff);
      }
    }

    /** What holds between rounds of `run`: the session `p` is this engine, the unfinished
        line at the front of `buf`, and the replies still to come. */
    ghost predicate InStep(p: F.Session, buf: array<char>, offset: nat, rest: string)
      requires offset <= buf.Length
      reads this, buf
    {
      && p.c.s == View() && p.rest == rest
      && (isRunning ==> p.c.partial == buf[..offset] && M.Valid(View()) && F.Orderly(p.c))
    }

    /** One round of the loop of `run`. */
    method RunRound(buf: array<char>, offset: nat, rest: string, io: F.Io, ghost p: F.Session)
      returns (offset': nat, rest': string)
      requires Linked() && buf.Length == F.BUFFER_SIZE && offset <= buf.Length
      requires isRunning && InStep(p, buf, offset, rest)
      modifies this, buf
      ensures offset' <= buf.Length && InStep(F.RunStep(step, p, io), buf, offset', rest')
    {
      offset', rest' := offset, rest;
      match io {
        case Write(k) =>
          B.FlushKeeps(View(), k);
          if out.outBufPos >= 0 {
            Flush(k);
          }
        case Read(k) =>
          var rc := F.Min(k, F.Min(buf.Length - offset, |rest|));
          if rc <= 0 {
            ShutdownConnection();
            Error(M.ConnectionBroken);
          } else {
            B.ByteStepReads(step, Env());
            F.FeedReads(step, p.c, rest[..rc]);
            offset' := ReadSome(buf, offset, rest[..rc]);
            rest' := rest[rc..];
          }
      }
    }

    /** fish/fish.cpp:1469-1580, on a stream of replies and an account of what `select` offers. */
    method Run(stream: string, script: seq<F.Io>)
      requires Linked() && M.Valid(View()) && connected && failed.None? && !isRunning && input.rawRead <= 0
      modifies this
      ensures View() == F.RunLoop(step, F.Session(F.Conn(M.Finished(old(View()).(isRunning := true)), ""), stream),
            script).c.s
    {
      isRunning := true;
      M.FinishedValid(View());
      Finished();
      var buf := new char[F.BUFFER_SIZE];
      var offset: nat, i: nat, rest := 0, 0, stream;
      ghost var p := F.Session(F.Conn(View(), ""), stream);
      assert buf[..0] == "" && script[0..] == script;
      ghost var result := F.RunLoop(step, p, script);
      while isRunning && i < |script|
        invariant i <= |script| && offset <= buf.Length == F.BUFFER_SIZE && fresh(buf)
        invariant InStep(p, buf, offset, rest)
        invariant result == F.RunLoop(step, p, script[i..])
      {
        assert script[i..][1..] == script[i + 1..];
        offset, rest := RunRound(buf, offset, rest, script[i], p);
        i, p := i + 1, F.RunStep(step, p, script[i]);
      }
      if i < |script| {
        F.OverStays(step, p, script[i..]);
      }
    }
  }

  lemma Joins(a: string, b: string, c: string)
    ensures a + (b + " " + c) == a + b + " " + c
  {
  }

  lemma HashJoins(name: string, words: string)
    ensures "#" + (name + words) == "#" + name + words
  {
  }

  lemma {:induction false} SpacedAppend(args: seq<string>, arg: string)
    ensures Spaced(args + [arg]) == Spaced(args) + " " + arg
  {
    if args == [] {
      assert [arg][1..] == [];
      assert Spaced([arg]) == " " + arg + Spaced([]);
      assert args + [arg] == [arg];
    } else {
      SpacedAppend(args[1..], arg);
      assert (args + [arg])[1..] == args[1..] + [arg];
      var a, b := " " + args[0], Spaced(args[1..]);
      assert a + (b + " " + arg) == (a + b) + " " + arg;
    }
  }
}
