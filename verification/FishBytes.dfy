/** What the engine makes of one reply byte, and that reading in bulk, as `received` does, is
    reading byte by byte (fish/fish.cpp:1308-1386). */
module FishBytes {
  import opened Text
  import opened FishCommands
  import opened FishModel
  import opened FishStream

  function Resize(s: string, n: nat): (r: string)
    ensures |r| == n
  {
    if |s| >= n then s[..n] else s + Repeat('\0', n - |s|)
  }

  /** The MIME type is guessed from `head`, and what was held back is delivered. */
  function Sniffed(s: State, head: string, left: int): State {
    var i := s.input.(rawRead := left, dataRead := |head|, mimeBuffer := Resize(head, MIME_SIZE), mimeTypeSent := true);
    if s.fishCommand == READ then s.(input := i, calls := s.calls + [Sniff(head)])
    else s.(input := i.(payload := i.payload + head), calls := s.calls + [Sniff(head), TotalSize(|head| + left)])
  }

  /** `data` copied over `buf` at `at`; outside of the buffer nothing is written. */
  function Overwrite(buf: string, at: int, data: string): (r: string)
    ensures |r| == |buf|
  {
    if 0 <= at && at + |data| <= |buf| then buf[..at] + data + buf[at + |data|..] else buf
  }

  /** One byte of counted data. */
  function RawByte(s: State, b: char): State {
    var i := s.input;
    if i.mimeTypeSent then
      s.(input := i.(payload := i.payload + [b], dataRead := i.dataRead + 1, rawRead := i.rawRead - 1))
    else
      var buf, got, left := Overwrite(i.mimeBuffer, i.dataRead, [b]), i.dataRead + 1, i.rawRead - 1;
      if (left > 0 && got < MIME_SIZE) || got < 0 || got > |buf|
            then s.(input := i.(mimeBuffer := buf, dataRead := got, rawRead := left))
      else Sniffed(s, buf[..got], left)
  }

  /** One byte of the replies. */
  function FeedByte(env: Env, c: Conn, b: char): Conn {
    if c.s.failed.Some? then c
    else if c.s.input.rawRead > 0 then c.(s := RawByte(c.s, b))
    else if b == '\n' then Conn(ManageLine(env, c.s, c.partial), "")
    else c.(partial := c.partial + [b])
  }

  lemma RawByteReads(c: Conn, b: char)
    requires Valid(c.s) && c.s.failed.None? && c.s.input.rawRead > 0
    ensures var d := c.(s := RawByte(c.s, b));
            Valid(d.s) && d != c && (Orderly(c) ==> Orderly(d)) && d.s.isRunning == c.s.isRunning
  {
    assert RawByte(c.s, b).input.rawRead < c.s.input.rawRead;
  }

  lemma LineByteReads(env: Env, c: Conn)
    requires Valid(c.s) && c.s.failed.None?
    ensures ReadsWell(c, Conn(ManageLine(env, c.s, c.partial), ""))
  {
    ManageLineValid(env, c.s, c.partial);
    LineCounts(c, ManageLine(env, c.s, c.partial));
  }

  lemma LineCounts(c: Conn, t: State)
    requires c.s.failed.None? && Goes(c.s.(lines := c.s.lines + [c.partial]), t)
    ensures ReadsWell(c, Conn(t, ""))
  {
    assert |t.lines| == |c.s.lines| + 1;
  }

  lemma TextByteReads(c: Conn, b: char)
    requires Valid(c.s) && c.s.failed.None? && c.s.input.rawRead <= 0 && b != '\n'
    ensures ReadsWell(c, c.(partial := c.partial + [b]))
  {
    assert |c.(partial := c.partial + [b]).partial| == |c.partial| + 1;
  }

  lemma FeedByteReads(env: Env, c: Conn, b: char)
    requires Valid(c.s)
    ensures ReadsWell(c, FeedByte(env, c, b))
  {
    if c.s.failed.None? {
      if c.s.input.rawRead > 0 {
        RawByteReads(c, b);
      } else if b == '\n' {
        LineByteReads(env, c);
      } else {
        TextByteReads(c, b);
      }
    }
  }

  function ByteStep(env: Env): Step {
    (c: Conn, b: char) => FeedByte(env, c, b)
  }

  lemma ByteStepReads(h: Step, env: Env)
    requires StepOf(h, env)
    ensures Reads(h)
  {
    forall c: Conn, b: char | Valid(c.s) ensures ReadsWell(c, h(c, b)) {
      assert h(c, b) == FeedByte(env, c, b);
      FeedByteReads(env, c, b);
    }
  }

  /** `h` is the byte step of `env`. */
  ghost predicate StepOf(h: Step, env: Env) {
    forall c: Conn, b: char {:trigger FeedByte(env, c, b)} :: h(c, b) == FeedByte(env, c, b)
  }

  // one byte, case by case

  lemma AfterFailure(h: Step, env: Env, c: Conn, b: char)
    requires StepOf(h, env) && c.s.failed.Some?
    ensures h(c, b) == c
  {
    assert h(c, b) == FeedByte(env, c, b);
  }

  lemma OneOfData(h: Step, env: Env, c: Conn, b: char)
    requires StepOf(h, env) && c.s.failed.None? && c.s.input.rawRead > 0
    ensures h(c, b) == c.(s := RawByte(c.s, b))
  {
    assert h(c, b) == FeedByte(env, c, b);
  }

  lemma OneOfText(h: Step, env: Env, c: Conn, b: char)
    requires StepOf(h, env) && c.s.failed.None? && c.s.input.rawRead <= 0 && b != '\n'
    ensures h(c, b) == c.(partial := c.partial + [b])
  {
    assert h(c, b) == FeedByte(env, c, b);
  }

  lemma EndOfLine(h: Step, env: Env, c: Conn)
    requires StepOf(h, env) && c.s.failed.None? && c.s.input.rawRead <= 0
    ensures h(c, '\n') == Conn(ManageLine(env, c.s, c.partial), "")
  {
    assert h(c, '\n') == FeedByte(env, c, '\n');
  }

  // ----- many bytes -----

  lemma {:induction false} FeedFailed(h: Step, env: Env, c: Conn, bytes: string)
    requires StepOf(h, env) && c.s.failed.Some?
    ensures Feed(h, c, bytes) == c
    decreases |bytes|
  {
    if bytes != "" {
      AfterFailure(h, env, c, bytes[0]);
      FeedFailed(h, env, c, bytes[1..]);
    }
  }

  lemma {:induction false} FeedText(h: Step, env: Env, c: Conn, text: string)
    requires StepOf(h, env) && c.s.failed.None? && c.s.input.rawRead <= 0 && Free('\n', text)
    ensures Feed(h, c, text) == c.(partial := c.partial + text)
    decreases |text|
  {
    if text == "" {
      assert c.partial + text == c.partial;
    } else {
      OneOfText(h, env, c, text[0]);
      FeedText(h, env, c.(partial := c.partial + [text[0]]), text[1..]);
      assert c.partial + [text[0]] + text[1..] == c.partial + text;
    }
  }

  lemma FeedLine(h: Step, env: Env, s: State, line: string)
    requires StepOf(h, env) && s.failed.None? && s.input.rawRead <= 0 && Free('\n', line)
    ensures Feed(h, Conn(s, ""), line + "\n") == Conn(ManageLine(env, s, line), "")
  {
    FeedSnoc(h, Conn(s, ""), line, '\n');
    FeedText(h, env, Conn(s, ""), line);
    assert "" + line == line;
    EndOfLine(h, env, Conn(s, line));
  }

  /** The input side after `data` went straight out. */
  function Delivered(i: Input, data: string): Input {
    i.(payload := i.payload + data, dataRead := i.dataRead + |data|, rawRead := i.rawRead - |data|)
  }

  /** Counted data after the MIME type is known goes straight out. */
  lemma {:induction false} FeedData(h: Step, env: Env, c: Conn, data: string)
    requires StepOf(h, env) && c.s.failed.None? && c.s.input.mimeTypeSent && |data| <= c.s.input.rawRead
    ensures Feed(h, c, data) == c.(s := c.s.(input := Delivered(c.s.input, data)))
    decreases |data|
  {
    var i := c.s.input;
    if data == "" {
      assert i.payload + data == i.payload;
    } else {
      OneOfData(h, env, c, data[0]);
      FeedData(h, env, c.(s := c.s.(input := Delivered(i, [data[0]]))), data[1..]);
      assert i.payload + [data[0]] + data[1..] == i.payload + data;
    }
  }

  /** The input side after `data` was put aside for the guess at the MIME type. */
  function Held(i: Input, data: string): Input {
    i.(mimeBuffer := Overwrite(i.mimeBuffer, i.dataRead, data), dataRead := i.dataRead + |data|,
          rawRead := i.rawRead - |data|)
  }

  lemma HeldJoin(i: Input, b: char, data: string)
    requires ValidInput(i) && i.dataRead + 1 + |data| <= MIME_SIZE
    ensures Held(Held(i, [b]), data) == Held(i, [b] + data)
  {
    assert Held(Held(i, [b]), data).mimeBuffer == Held(i, [b] + data).mimeBuffer;
  }

  /** Counted data before the MIME type is known is collected. */
  lemma {:induction false} FeedHeld(h: Step, env: Env, c: Conn, data: string)
    requires StepOf(h, env) && ValidInput(c.s.input) && c.s.failed.None? && !c.s.input.mimeTypeSent
    requires |data| < c.s.input.rawRead && c.s.input.dataRead + |data| < MIME_SIZE
    ensures Feed(h, c, data) == c.(s := c.s.(input := Held(c.s.input, data)))
    decreases |data|
  {
    var i := c.s.input;
    if data == "" {
      assert Overwrite(i.mimeBuffer, i.dataRead, data) == i.mimeBuffer;
    } else {
      OneOfData(h, env, c, data[0]);
      FeedHeld(h, env, c.(s := c.s.(input := Held(i, [data[0]]))), data[1..]);
      HeldJoin(i, data[0], data[1..]);
      assert [data[0]] + data[1..] == data;
    }
  }

  lemma LastHeldByte(s: State, b: char)
    requires ValidInput(s.input) && !s.input.mimeTypeSent && s.input.rawRead > 0 && s.input.dataRead < MIME_SIZE
    requires s.input.rawRead == 1 || s.input.dataRead == MIME_SIZE - 1
    ensures RawByte(s, b) == Sniffed(s, s.input.mimeBuffer[..s.input.dataRead] + [b], s.input.rawRead - 1)
  {
    var i := s.input;
    assert Overwrite(i.mimeBuffer, i.dataRead, [b])[..i.dataRead + 1] == i.mimeBuffer[..i.dataRead] + [b];
  }

  lemma SniffedSame(s: State, later: Input, head: string, left: int)
    requires later.payload == s.input.payload && later.recvLen == s.input.recvLen
    ensures Sniffed(s.(input := later), head, left) == Sniffed(s, head, left)
  {
  }

  lemma HeldPrefix(i: Input, held: string, last: char)
    requires ValidInput(i) && i.dataRead + |held| <= MIME_SIZE
    ensures Held(i, held).mimeBuffer[..i.dataRead + |held|] + [last] == i.mimeBuffer[..i.dataRead] + (held + [last])
  {
  }

  /** The byte that fills the MIME buffer or ends the data, after `held`. */
  lemma SniffLast(s: State, held: string, last: char)
    requires ValidInput(s.input) && !s.input.mimeTypeSent && |held| + 1 <= s.input.rawRead
          && s.input.dataRead + |held| + 1 <= MIME_SIZE
    requires |held| + 1 == s.input.rawRead || s.input.dataRead + |held| + 1 == MIME_SIZE
    ensures var i := s.input;
            RawByte(s.(input := Held(i, held)), last)
            == Sniffed(s, i.mimeBuffer[..i.dataRead] + (held + [last]), i.rawRead - (|held| + 1))
  {
    var i := s.input;
    LastHeldByte(s.(input := Held(i, held)), last);
    HeldPrefix(i, held, last);
    SniffedSame(s, Held(i, held), i.mimeBuffer[..i.dataRead] + (held + [last]), i.rawRead - (|held| + 1));
  }

  /** The bytes that fill the MIME buffer or end the data make it known. */
  lemma FeedSniff(h: Step, env: Env, c: Conn, data: string)
    requires StepOf(h, env) && ValidInput(c.s.input) && c.s.failed.None? && !c.s.input.mimeTypeSent && data != ""
    requires |data| <= c.s.input.rawRead && c.s.input.dataRead + |data| <= MIME_SIZE
    requires |data| == c.s.input.rawRead || c.s.input.dataRead + |data| == MIME_SIZE
    ensures var i := c.s.input;
            Feed(h, c, data) == c.(s := Sniffed(c.s, i.mimeBuffer[..i.dataRead] + data, i.rawRead - |data|))
  {
    var held, last := data[..|data| - 1], data[|data| - 1];
    assert data == held + [last];
    FeedSnoc(h, c, held, last);
    FeedHeld(h, env, c, held);
    OneOfData(h, env, c.(s := c.s.(input := Held(c.s.input, held))), last);
    SniffLast(c.s, held, last);
  }

  /** What `received` has after copying `data` into the MIME buffer: at the end of the data the
      buffer is cut to what is in it. */
  function Collected(i: Input, data: string): Input {
    var held := Held(i, data);
    if held.rawRead == 0 && held.dataRead >= 0 then held.(mimeBuffer := Resize(held.mimeBuffer, held.dataRead))
          else held
  }

  /** With room left it waits for more; otherwise the type is told from the buffer. */
  lemma FeedCollected(h: Step, env: Env, c: Conn, data: string)
    requires StepOf(h, env) && ValidInput(c.s.input) && c.s.failed.None? && !c.s.input.mimeTypeSent && data != ""
    requires |data| <= c.s.input.rawRead && c.s.input.dataRead + |data| <= MIME_SIZE == |c.s.input.mimeBuffer|
    ensures var i := Collected(c.s.input, data);
            if i.dataRead < |i.mimeBuffer| then Feed(h, c, data) == c.(s := c.s.(input := i))
            else
              && |i.mimeBuffer| == i.dataRead
              && Feed(h, c, data) == c.(s := Sniffed(c.s.(input := i), i.mimeBuffer, i.rawRead))
  {
    var i := Collected(c.s.input, data);
    if i.dataRead < |i.mimeBuffer| {
      FeedHeld(h, env, c, data);
    } else {
      FeedSniff(h, env, c, data);
      HeldIsHead(c.s.input, data, i.mimeBuffer);
      SniffedSame(c.s, i, i.mimeBuffer, i.rawRead);
    }
  }

  lemma HeldIsHead(i: Input, data: string, buf: string)
    requires ValidInput(i) && i.dataRead + |data| <= MIME_SIZE
    requires |buf| == i.dataRead + |data| && buf <= Held(i, data).mimeBuffer
    ensures buf == i.mimeBuffer[..i.dataRead] + data
  {
  }

  /** A write keeps the invariants too, and leaves the replies alone. */
  lemma FlushKeeps(s: State, k: nat)
    requires Valid(s) && (s.isRunning ==> s.failed.None?) && (s.failed.None? ==> s.connected)
    ensures var t := WriteStep(s, k);
            && Valid(t)
            && t.failed == s.failed
            && (t.isRunning ==> s.isRunning && t.connected == s.connected)
            && (t.input.rawRead > 0 ==> s.input.rawRead > 0)
  {
  }

  /** What `received` is handed: the waiting partial line and the new bytes together. */
  lemma CarryOver(h: Step, env: Env, c: Conn, bytes: string)
    requires StepOf(h, env)
    requires Orderly(c) && c.s.failed.None?
    ensures Feed(h, c, bytes) == Feed(h, Conn(c.s, ""), c.partial + bytes)
  {
    if c.partial == "" {
      assert c.partial + bytes == bytes;
    } else {
      assert c.s.input.rawRead <= 0;
      FeedText(h, env, Conn(c.s, ""), c.partial);
      FeedAppend(h, Conn(c.s, ""), c.partial, bytes);
      assert "" + c.partial == c.partial;
    }
  }

  // ----- counted download -----

  /** Raw mode as the result line of RETR or READ opens it. */
  predicate RawStart(s: State, n: int) {
    && s.failed.None? && s.input.rawRead == n && n > 0 && s.input.dataRead == 0 && !s.input.mimeTypeSent
  }

  /** What has arrived after `data` of the `n` announced bytes. */
  ghost predicate DownloadProgress(start: State, n: nat, data: string, s: State) {
    && s.input.dataRead + s.input.rawRead == n && s.input.dataRead == |data|
    && (!s.input.mimeTypeSent ==>
          && |data| < MIME_SIZE == |s.input.mimeBuffer| && |data| < n && s.input.mimeBuffer[..|data|] == data
          && s.input.payload == start.input.payload && s.calls == start.calls)
    && (s.input.mimeTypeSent ==>
          var head := data[..if |data| < MIME_SIZE then |data| else MIME_SIZE];
          && (start.fishCommand == READ ==>
                 s.input.payload == start.input.payload + data[|head|..] && s.calls == start.calls + [Sniff(head)])
          && (start.fishCommand != READ ==> s.input.payload == start.input.payload + data
                                            && s.calls == start.calls + [Sniff(head), TotalSize(n)]))
    && s.(input := start.input, calls := start.calls) == start
  }

  lemma DownloadHeld(h: Step, env: Env, c: Conn, n: nat, data: string)
    requires StepOf(h, env)
    requires Valid(c.s) && RawStart(c.s, n) && |data| < n && |data| < MIME_SIZE
    ensures DownloadProgress(c.s, n, data, Feed(h, c, data).s)
    ensures Feed(h, c, data).partial == c.partial
  {
    FeedHeld(h, env, c, data);
    assert Overwrite(c.s.input.mimeBuffer, 0, data)[..|data|] == data;
  }

  /** The engine once `head` has made the MIME type known and `rest` has followed. */
  function After(s: State, n: nat, head: string, rest: string): State {
    var t := Sniffed(s, head, n - |head|);
    t.(input := Delivered(t.input, rest))
  }

  lemma FeedHead(h: Step, env: Env, c: Conn, n: nat, head: string)
    requires StepOf(h, env)
    requires Valid(c.s) && RawStart(c.s, n) && |head| == if n < MIME_SIZE then n else MIME_SIZE
    ensures Feed(h, c, head) == c.(s := Sniffed(c.s, head, n - |head|))
  {
    FeedSniff(h, env, c, head);
    assert "" + head == head;
    assert c.s.input.mimeBuffer[..0] == "";
  }

  lemma FeedDownload(h: Step, env: Env, c: Conn, n: nat, head: string, rest: string)
    requires StepOf(h, env)
    requires Valid(c.s) && RawStart(c.s, n) && |head + rest| <= n
    requires |head| == if n < MIME_SIZE then n else MIME_SIZE
    ensures Feed(h, c, head + rest) == c.(s := After(c.s, n, head, rest))
  {
    FeedAppend(h, c, head, rest);
    FeedHead(h, env, c, n, head);
    FeedData(h, env, c.(s := Sniffed(c.s, head, n - |head|)), rest);
  }

  lemma DownloadSniffed(h: Step, env: Env, c: Conn, n: nat, head: string, rest: string)
    requires StepOf(h, env)
    requires Valid(c.s) && RawStart(c.s, n) && |head + rest| <= n
    requires |head| == if n < MIME_SIZE then n else MIME_SIZE
    ensures DownloadProgress(c.s, n, head + rest, Feed(h, c, head + rest).s)
    ensures Feed(h, c, head + rest).partial == c.partial
    ensures Feed(h, c, head + rest).s.input.mimeTypeSent
  {
    FeedDownload(h, env, c, n, head, rest);
    ProgressAfterSniff(c.s, n, head, rest);
  }

  lemma ProgressAfterSniff(s: State, n: nat, head: string, rest: string)
    requires RawStart(s, n) && |head + rest| <= n
    requires |head| == if n < MIME_SIZE then n else MIME_SIZE
    ensures DownloadProgress(s, n, head + rest, After(s, n, head, rest))
  {
    var data := head + rest;
    assert s.input.payload + head + rest == s.input.payload + data;
    assert data[..|head|] == head && data[|head|..] == rest;
  }

  /** At every byte of counted data: read and unread bytes add up to the announced length,
      the MIME buffer is never overrun, the payload is exactly the data so far once the type
      is known, and nothing else of the state moves. */
  lemma CountedDownload(h: Step, env: Env, c: Conn, n: nat, data: string)
    requires StepOf(h, env)
    requires Valid(c.s) && RawStart(c.s, n) && |data| <= n
    ensures DownloadProgress(c.s, n, data, Feed(h, c, data).s)
    ensures Feed(h, c, data).partial == c.partial
    ensures |data| == n ==> Feed(h, c, data).s.input.mimeTypeSent
  {
    var m := if n < MIME_SIZE then n else MIME_SIZE;
    if |data| < m {
      DownloadHeld(h, env, c, n, data);
    } else {
      assert data == data[..m] + data[m..];
      DownloadSniffed(h, env, c, n, data[..m], data[m..]);
    }
  }

  /** After the last announced byte the stream is read as lines again. */
  lemma DownloadThenLine(h: Step, env: Env, c: Conn, n: nat, data: string, line: string)
    requires StepOf(h, env)
    requires Valid(c.s) && RawStart(c.s, n) && |data| == n && c.partial == "" && Free('\n', line)
    ensures var d := Feed(h, c, data).s;
            Feed(h, c, data + (line + "\n")) == Conn(ManageLine(env, d, line), "")
  {
    CountedDownload(h, env, c, n, data);
    FeedAppend(h, c, data, line + "\n");
    FeedLine(h, env, Feed(h, c, data).s, line);
  }
}
