/** A whole download: the answer to RETR as fish/fish.pl:239-271 gives it, size, preliminary line, data
    and result, and what the engine makes of it (fish/fish.cpp:1117-1166, 1308-1386). */
module FishDownload {
  import opened Text
  import opened FishCommands
  import opened FishModel
  import opened FishStream
  import opened FishBytes

  lemma TrimDigits(s: string)
    requires AllDigits(s) && s != ""
    ensures Trim(s) == s
  {
    assert IsDigit(s[0]) && IsDigit(s[|s| - 1]);
  }

  /** A printed size is read back. */
  lemma SizeRead(n: nat)
    requires n < INT64_BOUND
    ensures ToInteger(Dec(n), INT64_BOUND) == Some(n)
    ensures Free('\n', Dec(n)) && Dec(n) != "" && !IsResult(Dec(n))
  {
    TrimDigits(Dec(n));
    DecRoundTrip(n);
    assert forall i :: 0 <= i < |Dec(n)| ==> IsDigit(Dec(n)[i]);
    NoResult(Dec(n));
  }

  lemma NoResult(s: string)
    requires AllDigits(s)
    ensures !IsResult(s)
  {
    if |s| >= 4 {
      assert s[..4][0] == s[0];
    }
  }

  /** The engine when RETR has just gone out and nothing is queued behind it. */
  ghost predicate Retrieving(s: State) {
    && Valid(s) && s.failed.None? && s.isRunning && s.fishCommand == RETR && s.errorCount == -ReplyLines(RETR)
    && s.input.rawRead <= 0 && s.queue.commandList == []
  }

  /** The line with the size. */
  lemma SizeHeard(env: Env, s: State, n: nat)
    requires Retrieving(s) && n < INT64_BOUND
    ensures ManageLine(env, s, Dec(n)) ==
            s.(lines := s.lines + [Dec(n)], errorCount := 0, input := s.input.(recvLen := n))
  {
    SizeRead(n);
  }

  /** The preliminary line opens the counted data. */
  lemma StartHeard(env: Env, s: State, start: string)
    requires s.fishCommand == RETR && s.errorCount == 0 && s.input.recvLen >= 0 && s.failed.None? && IsResult(start)
    requires Code(start, 0) == 100
    ensures var t, n := ManageLine(env, s, start), s.input.recvLen;
            && t.failed.None? && t.isRunning == s.isRunning && t.fishCommand == RETR && t.errorCount == 0
            && t.queue == s.queue && t.input.payload == s.input.payload
            && (if n > 0 then RawStart(t, n) && t.calls == s.calls
                else t.input.rawRead == 0 && t.calls == s.calls + [MimeType("application/x-zerosize")])
  {
  }

  /** The result line ends the chain. */
  lemma ResultHeard(env: Env, s: State, result: string)
    requires s.fishCommand == RETR && s.errorCount == 0 && s.queue.commandList == [] && s.failed.None?
          && IsResult(result)
    requires Success(Code(result, 0))
    ensures var t := ManageLine(env, s, result);
            && t.failed.None? && !t.isRunning && t.input.payload == s.input.payload && t.calls == s.calls + [EndOfData]
  {
  }

  /** What the worker is told of a file with this content. */
  function Told(data: string): seq<Call> {
    (if data == "" then [MimeType("application/x-zerosize")]
     else [Sniff(data[..if |data| < MIME_SIZE then |data| else MIME_SIZE]), TotalSize(|data|)])
    + [EndOfData]
  }

  lemma DataHeard(h: Step, env: Env, s: State, data: string)
    requires StepOf(h, env) && Valid(s) && data != "" && RawStart(s, |data|) && s.fishCommand == RETR
    ensures var d := Feed(h, Conn(s, ""), data);
            && d.partial == "" && d.s.input.rawRead == 0 && d.s.failed.None? && d.s.queue == s.queue
                  && d.s.fishCommand == RETR
            && d.s.errorCount == s.errorCount && d.s.input.payload == s.input.payload + data
            && d.s.calls + [EndOfData] == s.calls + Told(data)
  {
    CountedDownload(h, env, Conn(s, ""), |data|, data);
  }

  /** Read in one piece or many, the answer to RETR hands over the whole file, byte for byte, reports its type
      and size before and its end behind, and ends the chain. */
  lemma Retrieved(h: Step, env: Env, s: State, data: string, start: string, result: string)
    requires StepOf(h, env) && Retrieving(s) && |data| < INT64_BOUND
    requires IsResult(start) && Free('\n', start) && Code(start, 0) == 100
    requires IsResult(result) && Free('\n', result) && Success(Code(result, 0))
    ensures var d := Feed(h, Conn(s, ""), (Dec(|data|) + "\n") + ((start + "\n") + (data + (result + "\n"))));
            && d.partial == "" && d.s.failed.None? && !d.s.isRunning
            && d.s.input.payload == s.input.payload + data && d.s.calls == s.calls + Told(data)
  {
    var size, tail := Dec(|data|) + "\n", data + (result + "\n");
    FeedAppend(h, Conn(s, ""), size, (start + "\n") + tail);
    SizeRead(|data|);
    FeedLine(h, env, s, Dec(|data|));
    SizeHeard(env, s, |data|);
    var s1 := ManageLine(env, s, Dec(|data|));
    ManageLineValid(env, s, Dec(|data|));
    FeedAppend(h, Conn(s1, ""), start + "\n", tail);
    FeedLine(h, env, s1, start);
    StartHeard(env, s1, start);
    ManageLineValid(env, s1, start);
    Ended(h, env, s, ManageLine(env, s1, start), data, result);
  }

  lemma Ended(h: Step, env: Env, s: State, s2: State, data: string, result: string)
    requires StepOf(h, env) && Valid(s2) && s2.fishCommand == RETR && s2.errorCount == 0 && s2.failed.None?
    requires s2.queue.commandList == [] && s2.input.payload == s.input.payload
    requires if data != "" then RawStart(s2, |data|) && s2.calls == s.calls
             else s2.input.rawRead == 0 && s2.calls == s.calls + [MimeType("application/x-zerosize")]
    requires IsResult(result) && Free('\n', result) && Success(Code(result, 0))
    ensures var d := Feed(h, Conn(s2, ""), data + (result + "\n"));
            && d.partial == "" && d.s.failed.None? && !d.s.isRunning
            && d.s.input.payload == s.input.payload + data && d.s.calls == s.calls + Told(data)
  {
    FeedAppend(h, Conn(s2, ""), data, result + "\n");
    var s3 := Feed(h, Conn(s2, ""), data).s;
    if data != "" {
      DataHeard(h, env, s2, data);
    } else {
      assert s.input.payload + "" == s.input.payload;
      assert s.calls + [MimeType("application/x-zerosize")] + [EndOfData] == s.calls + Told("");
    }
    FeedLine(h, env, s3, result);
    ResultHeard(env, s3, result);
  }
}
