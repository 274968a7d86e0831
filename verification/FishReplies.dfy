/** Whole answers to LIST, STAT and VER as fish/fish.pl:44-49, 206-237 and 312-368 print them, what the engine
    makes of them (fish/fish.cpp:924-1116), and what result lines mean (fish/fish.cpp:863-881, 1167-1228). */
module FishReplies {
  import opened Text
  import opened FishCommands
  import opened FishModel
  import opened FishStream
  import opened FishBytes
  import opened FishDownload

  // ----- the lines of an entry -----

  /** A size, or the numbers of a device. */
  datatype Extent = Size(n: nat) | Device(numbers: string)

  /** A time as six numbers, or as `ls` prints it: month, day, and year or hour. */
  datatype Stamp = Numbers(text: string) | FromLs(text: string)

  /** What the server prints of one file. */
  datatype Entry = Entry(kind: char, modes: string, owner: string, group: string, extent: Extent, stamp: Stamp,
                         name: string, link: Option<string>, mime: Option<string>)

  function ExtentLine(x: Extent): string {
    match x
    case Size(n) => "S" + Dec(n)
    case Device(numbers) => "E" + numbers
  }

  function StampLine(t: Stamp): string {
    match t
    case Numbers(text) => "D" + text
    case FromLs(text) => "d" + text
  }

  function EntryLines(e: Entry): seq<string> {
    ["P" + [e.kind] + e.modes + " " + e.owner + ":" + e.group, ExtentLine(e.extent), StampLine(e.stamp), ":" + e.name]
    + (if e.link.Some? then ["L" + e.link.value] else []) + (if e.mime.Some? then ["M" + e.mime.value] else [])
    + [""]
  }

  predicate ValidEntry(e: Entry) {
    && e.kind in {'-', 'd', 'l', 'c', 'b', 's', 'p'}
    && |e.modes| == 9 && Free('\n', e.modes) && Free('\n', e.owner) && Free('\n', e.group)
    && (if e.extent.Size? then e.extent.n < INT64_BOUND else Free('\n', e.extent.numbers))
    && Free('\n', e.stamp.text) && Count(e.stamp.text, ' ') == (if e.stamp.Numbers? then 5 else 2)
    && Free('\n', e.name)
    && (e.link.Some? ==> Free('\n', e.link.value)) && (e.mime.Some? ==> Free('\n', e.mime.value))
  }

  /** A line that is part of an entry and is understood. */
  predicate Understood(line: string) {
    Free('\n', line) && !IsResult(line) && EntryLineCredit(line) == -1 && (line != "" ==> !IsDigit(line[0]))
  }

  lemma Marked(mark: char, text: string)
    requires mark !in {'#', '\n'} && !IsDigit(mark) && Free('\n', text)
    requires EntryLineCredit([mark] + text) == -1
    ensures Understood([mark] + text)
  {
    var line := [mark] + text;
    assert line[0] == mark;
    if |line| >= 4 {
      assert line[..4][0] == mark;
    }
  }

  lemma KindUnderstood(e: Entry)
    requires ValidEntry(e)
    ensures Understood("P" + [e.kind] + e.modes + " " + e.owner + ":" + e.group)
  {
    var text := [e.kind] + e.modes + " " + e.owner + ":" + e.group;
    var line := "P" + text;
    assert line == "P" + [e.kind] + e.modes + " " + e.owner + ":" + e.group;
    assert line[1] == e.kind && line[12 + |e.owner|] == ':';
    Marked('P', text);
  }

  lemma ExtentUnderstood(x: Extent)
    requires if x.Size? then x.n < INT64_BOUND else Free('\n', x.numbers)
    ensures Understood(ExtentLine(x))
  {
    match x
    case Size(n) =>
      assert ("S" + Dec(n))[1..] == Dec(n);
      SizeRead(n);
      Marked('S', Dec(n));
    case Device(numbers) => Marked('E', numbers);
  }

  lemma StampUnderstood(t: Stamp)
    requires Free('\n', t.text) && Count(t.text, ' ') == if t.Numbers? then 5 else 2
    ensures Understood(StampLine(t))
  {
    match t
    case Numbers(text) =>
      assert ("D" + text)[1..] == text;
      Marked('D', text);
    case FromLs(text) =>
      assert ("d" + text)[1..] == text;
      Marked('d', text);
  }

  lemma EntryUnderstood(e: Entry)
    requires ValidEntry(e)
    ensures forall l :: l in EntryLines(e) ==> Understood(l)
    ensures Ends(EntryLines(e)) == 1
  {
    KindUnderstood(e);
    ExtentUnderstood(e.extent);
    StampUnderstood(e.stamp);
    Marked(':', e.name);
    if e.link.Some? {
      Marked('L', e.link.value);
    }
    if e.mime.Some? {
      Marked('M', e.mime.value);
    }
    assert Understood("");
    EndsOfEntry(e);
  }

  /** How many entries end among the lines. */
  function Ends(ls: seq<string>): nat {
    if ls == [] then 0 else (if ls[0] == "" then 1 else 0) + Ends(ls[1..])
  }

  lemma {:induction false} EndsAppend(a: seq<string>, b: seq<string>)
    ensures Ends(a + b) == Ends(a) + Ends(b)
    decreases |a|
  {
    if a == [] {
      assert a + b == b;
    } else {
      assert (a + b)[0] == a[0] && (a + b)[1..] == a[1..] + b;
      EndsAppend(a[1..], b);
    }
  }

  lemma {:induction false} NoEnds(ls: seq<string>)
    requires "" !in ls
    ensures Ends(ls) == 0
    decreases |ls|
  {
    if ls != [] {
      NoEnds(ls[1..]);
    }
  }

  lemma EndsOfEntry(e: Entry)
    ensures Ends(EntryLines(e)) == 1
  {
    var body := EntryLines(e)[..|EntryLines(e)| - 1];
    assert EntryLines(e) == body + [""];
    NoEnds(body);
    EndsAppend(body, [""]);
    assert [""][1..] == [];
  }

  function AllLines(es: seq<Entry>): seq<string> {
    if es == [] then [] else EntryLines(es[0]) + AllLines(es[1..])
  }

  lemma {:induction false} AllUnderstood(es: seq<Entry>)
    requires forall e :: e in es ==> ValidEntry(e)
    ensures forall l :: l in AllLines(es) ==> Understood(l)
    ensures Ends(AllLines(es)) == |es|
    decreases |es|
  {
    if es != [] {
      EntryUnderstood(es[0]);
      AllUnderstood(es[1..]);
      EndsAppend(EntryLines(es[0]), AllLines(es[1..]));
    }
  }

  // ----- hearing them -----

  /** The lines on the wire. */
  function Wire(ls: seq<string>): string {
    if ls == [] then "" else (ls[0] + "\n") + Wire(ls[1..])
  }

  /** LIST or STAT has gone out and nothing is queued behind it. */
  ghost predicate Asking(s: State) {
    && Valid(s) && s.failed.None? && s.isRunning && s.input.rawRead <= 0 && s.queue.commandList == []
    && (s.fishCommand == LIST || s.fishCommand == STAT)
  }

  /** The state after lines in which `n` entries end: nothing but these calls and findings. */
  function Entered(s: State, ls: seq<string>, n: nat): State {
    s.(lines := s.lines + ls,
       calls := s.calls + (if s.fishCommand == LIST && !s.put.listCheck then seq(n, i => ListEntry) else []),
       put := s.put.(checkExist := s.put.checkExist || (s.fishCommand == LIST && s.put.listCheck && n > 0)))
  }

  lemma LineHeard(env: Env, s: State, line: string)
    requires Asking(s) && Understood(line)
    ensures ManageLine(env, s, line) == Entered(s, [line], if line == "" then 1 else 0)
  {
    assert seq(1, i => ListEntry) == [ListEntry];
    assert s.calls + [] == s.calls;
  }

  lemma EnteredTwice(s: State, a: seq<string>, m: nat, b: seq<string>, n: nat)
    ensures Entered(Entered(s, a, m), b, n) == Entered(s, a + b, m + n)
  {
    assert s.lines + a + b == s.lines + (a + b);
    assert seq(m, i => ListEntry) + seq(n, i => ListEntry) == seq(m + n, i => ListEntry);
    Regroup(s.calls, seq(m, i => ListEntry), seq(n, i => ListEntry));
    assert s.calls + [] + [] == s.calls;
  }

  lemma {:induction false} LinesHeard(h: Step, env: Env, s: State, ls: seq<string>)
    requires StepOf(h, env) && Asking(s) && forall l :: l in ls ==> Understood(l)
    ensures Feed(h, Conn(s, ""), Wire(ls)) == Conn(Entered(s, ls, Ends(ls)), "")
    decreases |ls|
  {
    if ls == [] {
      assert s.lines + [] == s.lines && s.calls + [] == s.calls;
      assert seq(0, i => ListEntry) == [];
    } else {
      var first := if ls[0] == "" then 1 else 0;
      var t := Entered(s, [ls[0]], first);
      FeedAppend(h, Conn(s, ""), ls[0] + "\n", Wire(ls[1..]));
      assert Understood(ls[0]);
      FeedLine(h, env, s, ls[0]);
      LineHeard(env, s, ls[0]);
      LinesHeard(h, env, t, ls[1..]);
      EnteredTwice(s, [ls[0]], first, ls[1..], Ends(ls[1..]));
      assert [ls[0]] + ls[1..] == ls;
    }
  }

  /** The shell forms put a full stop between owner and group: such a line is understood exactly if a name
      in it holds a colon, and otherwise counts against the listing. */
  lemma OwnerHeard(env: Env, s: State, kind: char, modes: string, owner: string, group: string)
    requires Asking(s) && kind in {'-', 'd', 'l', 'c', 'b', 's', 'p'} && |modes| == 9
    ensures var names := owner + "." + group;
            ManageLine(env, s, "P" + [kind] + modes + " " + names).errorCount
            == s.errorCount + if Free(':', names) then 1 else 0
  {
    var names := owner + "." + group;
    OwnerLine(kind, modes, names);
    OwnerCredit("P" + [kind] + modes + " " + names, names);
  }

  lemma OwnerLine(kind: char, modes: string, names: string)
    requires |modes| == 9
    ensures var line := "P" + [kind] + modes + " " + names;
            && |line| == 12 + |names| && line[0] == 'P' && line[1] == kind && !IsResult(line)
            && forall i :: 0 <= i < |names| ==> line[12 + i] == names[i]
  {
    var line := "P" + [kind] + modes + " " + names;
    assert line[..4][0] == 'P';
  }

  lemma OwnerCredit(line: string, names: string)
    requires |line| == 12 + |names| && line[0] == 'P' && line[1] in {'-', 'd', 'l', 'c', 'b', 's', 'p'}
    requires forall i :: 0 <= i < |names| ==> line[12 + i] == names[i]
    ensures EntryLineCredit(line) == if Free(':', names) then 0 else -1
  {
    var pos := IndexOf(line, ':', 12);
    if pos >= 0 {
      assert names[pos - 12] == ':';
    }
  }

  /** A line that begins like none of an entry counts against the answer, and does nothing else. */
  lemma StrangeHeard(env: Env, s: State, line: string)
    requires Asking(s) && line != "" && !IsResult(line) && !IsDigit(line[0])
    requires line[0] !in {'P', 'd', 'D', 'S', 'E', ':', 'M', 'L'}
    ensures ManageLine(env, s, line) == s.(lines := s.lines + [line], errorCount := s.errorCount + 1)
  {
  }

  /** The line with the number of entries: an empty listing leaves one line that is not accounted for. */
  lemma CountHeard(env: Env, s: State, n: nat)
    requires Asking(s) && n < INT64_BOUND
    ensures ManageLine(env, s, Dec(n)) ==
            s.(lines := s.lines + [Dec(n)], errorCount := s.errorCount + (if n == 0 then 1 else 0),
               calls := s.calls + (if s.fishCommand == LIST && !s.put.listCheck then [TotalSize(n)] else []))
  {
    SizeRead(n);
    assert s.calls + [] == s.calls;
  }

  /** The preliminary line changes nothing. */
  lemma BetweenHeard(env: Env, s: State, start: string)
    requires Asking(s) && Code(start, s.errorCount) == 100
    ensures ManageLine(env, s, start) == s.(lines := s.lines + [start])
  {
  }

  /** The answer of the server to LIST and STAT: how many entries, a preliminary line, their lines, the result. */
  function Answer(n: nat, start: string, es: seq<Entry>, result: string): string {
    (Dec(n) + "\n") + ((start + "\n") + (Wire(AllLines(es)) + (result + "\n")))
  }

  /** What the worker is told of an answer. */
  function Reported(cmd: Command, n: nat, es: seq<Entry>): seq<Call> {
    if cmd == STAT then [StatEntry] else [TotalSize(n)] + seq(|es|, i => ListEntry)
  }

  lemma Heads(h: Step, env: Env, s: State, n: nat, start: string, rest: string)
    requires StepOf(h, env) && Asking(s) && s.errorCount == 0 && n < INT64_BOUND
    requires Free('\n', start) && Code(start, if n == 0 then 1 else 0) == 100
    ensures var t := s.(lines := s.lines + [Dec(n)] + [start], errorCount := if n == 0 then 1 else 0,
               calls := s.calls + (if s.fishCommand == LIST && !s.put.listCheck then [TotalSize(n)] else []));
            Asking(t) && Feed(h, Conn(s, ""), (Dec(n) + "\n") + ((start + "\n") + rest)) == Feed(h, Conn(t, ""), rest)
  {
    SizeRead(n);
    FeedAppend(h, Conn(s, ""), Dec(n) + "\n", (start + "\n") + rest);
    FeedLine(h, env, s, Dec(n));
    CountHeard(env, s, n);
    var s1 := ManageLine(env, s, Dec(n));
    FeedAppend(h, Conn(s1, ""), start + "\n", rest);
    FeedLine(h, env, s1, start);
    BetweenHeard(env, s1, start);
  }

  lemma Bodies(h: Step, env: Env, s: State, es: seq<Entry>, result: string)
    requires StepOf(h, env) && Asking(s) && forall e :: e in es ==> ValidEntry(e)
    requires Free('\n', result)
    ensures var t := Entered(s, AllLines(es), |es|);
            Asking(t) && Feed(h, Conn(s, ""), Wire(AllLines(es)) + (result + "\n"))
                      == Conn(ManageLine(env, t, result), "")
  {
    AllUnderstood(es);
    LinesHeard(h, env, s, AllLines(es));
    FeedAppend(h, Conn(s, ""), Wire(AllLines(es)), result + "\n");
    FeedLine(h, env, Entered(s, AllLines(es), |es|), result);
  }

  lemma ResultHeard(env: Env, s: State, result: string)
    requires Asking(s) && Success(Code(result, s.errorCount)) && !Blocked(s)
    ensures var t := ManageLine(env, s, result);
            && t.failed.None? && !t.isRunning && t.put == s.put
            && t.calls == s.calls + (if s.fishCommand == STAT then [StatEntry] else [])
  {
    assert s.calls + [] == s.calls;
  }

  /** A listing is reported entry by entry, behind their number, and a STAT as one entry; then the chain ends. */
  lemma Listed(h: Step, env: Env, s: State, n: nat, start: string, es: seq<Entry>, result: string)
    requires StepOf(h, env) && Asking(s) && s.errorCount == 0 && !s.put.listCheck && n < INT64_BOUND
    requires forall e :: e in es ==> ValidEntry(e)
    requires Free('\n', start) && Code(start, if n == 0 then 1 else 0) == 100
    requires Free('\n', result) && Success(Code(result, if n == 0 then 1 else 0))
    ensures var d := Feed(h, Conn(s, ""), Answer(n, start, es, result));
            && d.partial == "" && d.s.failed.None? && !d.s.isRunning
            && d.s.calls == s.calls + Reported(s.fishCommand, n, es)
  {
    Heads(h, env, s, n, start, Wire(AllLines(es)) + (result + "\n"));
    var count := if s.fishCommand == LIST then [TotalSize(n)] else [];
    var t := s.(lines := s.lines + [Dec(n)] + [start], errorCount := if n == 0 then 1 else 0, calls := s.calls + count);
    Bodies(h, env, t, es, result);
    ResultHeard(env, Entered(t, AllLines(es), |es|), result);
    Together(s.calls, s.fishCommand, n, es);
  }

  lemma Together(calls: seq<Call>, cmd: Command, n: nat, es: seq<Entry>)
    requires cmd == LIST || cmd == STAT
    ensures (calls + (if cmd == LIST then [TotalSize(n)] else []))
          + (if cmd == LIST then seq(|es|, i => ListEntry) else []) + (if cmd == STAT then [StatEntry] else [])
          == calls + Reported(cmd, n, es)
  {
  }

  /** A check before a write finds the target exactly if an entry is listed, or an earlier check has found it:
      without leave to overwrite the chain then fails, and otherwise it ends well. */
  lemma Checked(h: Step, env: Env, s: State, n: nat, start: string, es: seq<Entry>, result: string)
    requires StepOf(h, env) && Asking(s) && s.errorCount == 0 && n < INT64_BOUND
    requires s.fishCommand == LIST && s.put.listCheck
    requires forall e :: e in es ==> ValidEntry(e)
    requires Free('\n', start) && Code(start, if n == 0 then 1 else 0) == 100
    requires Free('\n', result) && Success(Code(result, if n == 0 then 1 else 0))
    ensures var d := Feed(h, Conn(s, ""), Answer(n, start, es, result));
            && d.partial == "" && !d.s.isRunning && d.s.calls == s.calls
            && (d.s.put.checkExist <==> es != [] || s.put.checkExist)
            && d.s.failed == if d.s.put.checkExist && !s.put.checkOverwrite then Some(FileAlreadyExist) else None
  {
    Heads(h, env, s, n, start, Wire(AllLines(es)) + (result + "\n"));
    var t := s.(lines := s.lines + [Dec(n)] + [start], errorCount := if n == 0 then 1 else 0, calls := s.calls + []);
    Bodies(h, env, t, es, result);
    var u := Entered(t, AllLines(es), |es|);
    assert u.calls == s.calls;
    if !Blocked(u) {
      ResultHeard(env, u, result);
    }
  }

  /** A command that is issued as the last of its chain waits for such an answer, nothing being held against it. */
  lemma Issued(s: State)
    requires Valid(s) && s.failed.None? && s.isRunning && |s.queue.commandList| == 1
    requires s.queue.commandCodes[0] in {LIST, STAT, RETR}
    ensures var t := Finished(s);
            && t.queue.issued == s.queue.issued + s.queue.commandList
            && (if t.fishCommand == RETR then Retrieving(t) else Asking(t) && t.errorCount == 0)
            && t.fishCommand == s.queue.commandCodes[0]
  {
    FinishedValid(s);
    assert [s.queue.commandList[0]] == s.queue.commandList;
  }

  // ----- capabilities -----

  function Words(ws: seq<string>): string {
    if ws == [] then "" else " " + ws[0] + Words(ws[1..])
  }

  lemma {:induction false} WordFound(before: string, ws: seq<string>, w: string)
    requires w in ws
    ensures Contains(before + Words(ws) + " ", " " + w + " ")
    decreases |ws|
  {
    var pattern := " " + w + " ";
    var text := before + Words(ws) + " ";
    if ws[0] == w {
      var rest := Words(ws[1..]) + " ";
      assert rest[0] == ' ';
      assert text == before + " " + w + rest;
      assert text[|before|..|before| + |pattern|] == pattern;
      assert OccursAt(text, pattern, |before|);
    } else {
      assert text == before + (" " + ws[0]) + Words(ws[1..]) + " ";
      WordFound(before + (" " + ws[0]), ws[1..], w);
    }
  }

  /** A word that is found between spaces is one of the words. */
  lemma {:induction false} FoundWord(ws: seq<string>, w: string, i: nat)
    requires Free(' ', w) && forall v :: v in ws ==> Free(' ', v)
    requires OccursAt(Words(ws) + " ", " " + w + " ", i)
    ensures w in ws
    decreases |ws|
  {
    var pattern, text := " " + w + " ", Words(ws) + " ";
    assert forall k :: 0 <= k < |pattern| ==> text[i + k] == text[i..i + |pattern|][k] == pattern[k];
    if ws != [] {
      var v, rest := ws[0], Words(ws[1..]) + " ";
      assert text == " " + v + rest && rest[0] == ' ';
      if i == 0 {
        SameWord(text, v, w);
      } else {
        assert text[i] == pattern[0] == ' ';
        assert Free(' ', v);
        assert forall k :: 1 <= k <= |v| ==> text[k] == v[k - 1];
        assert i > |v|;
        var j := i - (1 + |v|);
        assert rest[j..j + |pattern|] == text[i..i + |pattern|];
        FoundWord(ws[1..], w, j);
      }
    }
  }

  lemma SameWord(text: string, v: string, w: string)
    requires Free(' ', v) && Free(' ', w)
    requires StartsWith(text, " " + v + " ") && StartsWith(text, " " + w + " ")
    ensures v == w
  {
    var a, b := " " + v + " ", " " + w + " ";
    assert forall k :: 0 <= k < |a| ==> text[k] == text[..|a|][k] == a[k];
    assert forall k :: 0 <= k < |b| ==> text[k] == text[..|b|][k] == b[k];
    assert forall k :: 1 <= k <= |v| ==> text[k] == v[k - 1] != ' ';
    assert forall k :: 1 <= k <= |w| ==> text[k] == w[k - 1] != ' ';
    assert text[|v| + 1] == ' ' && text[|w| + 1] == ' ';
    assert |v| == |w|;
    assert forall k :: 0 <= k < |v| ==> v[k] == text[k + 1] == w[k];
  }

  lemma OccursBehind(front: string, behind: string, p: string, i: int)
    requires OccursAt(front + behind, p, i) && |front| <= i
    ensures OccursAt(behind, p, i - |front|)
  {
    var j := i - |front|;
    assert behind[j..j + |p|] == (front + behind)[i..i + |p|];
  }

  lemma FirstTwo(text: string, p: string, i: int)
    requires OccursAt(text, p, i) && |p| >= 2
    ensures text[i] == p[0] && text[i + 1] == p[1]
  {
    var at := text[i..i + |p|];
    assert at[0] == text[i] && at[1] == text[i + 1];
  }

  /** The only blank in front of the words has a digit behind it. */
  lemma BlankOfVersion(behind: string, i: nat)
    requires i + 1 < 9 + |behind|
    requires ("VER 0.0.3" + behind)[i] == ' ' && ("VER 0.0.3" + behind)[i + 1] == 'a'
    ensures i >= 9
  {
    var v := "VER 0.0.3";
    assert v[3] == ' ' && v[4] == '0';
    assert forall k :: 0 <= k < 9 && k != 3 ==> v[k] != ' ';
    assert forall k :: 0 <= k < 9 ==> (v + behind)[k] == v[k];
  }

  lemma Behind(ws: seq<string>, i: nat)
    requires OccursAt("VER 0.0.3" + (Words(ws) + " "), " " + "append" + " ", i)
    requires forall w :: w in ws ==> Free(' ', w)
    ensures "append" in ws
  {
    var behind, pattern := Words(ws) + " ", " " + "append" + " ";
    FirstTwo("VER 0.0.3" + behind, pattern, i);
    BlankOfVersion(behind, i);
    OccursBehind("VER 0.0.3", behind, pattern, i);
    FoundWord(ws, "append", i - 9);
  }

  lemma AppendNamed(ws: seq<string>)
    requires forall w :: w in ws ==> Free(' ', w)
    ensures Contains("VER 0.0.3" + Words(ws) + " ", " append ") <==> "append" in ws
  {
    var line := "VER 0.0.3" + Words(ws);
    if "append" in ws {
      WordFound("VER 0.0.3", ws, "append");
      assert " " + "append" + " " == " append ";
    } else if Contains(line + " ", " append ") {
      var i :| 0 <= i <= |line + " "| && OccursAt(line + " ", " append ", i);
      Regroup("VER 0.0.3", Words(ws), " ");
      assert " " + "append" + " " == " append ";
      Behind(ws, i);
    }
  }

  lemma ThisVersion(env: Env, s: State, line: string)
    requires s.fishCommand == VER && !IsResult(line) && StartsWith(line, "VER 0.0.3")
    ensures ManageLine(env, s, line) == Heard(s, line).(put := s.put.(hasAppend := Contains(line + " ", " append ")))
  {
  }

  /** The answer to VER: of this version, a server can append exactly if it names that among its words;
      any other version is turned down, and the connection with it. */
  lemma VersionHeard(env: Env, s: State, ws: seq<string>)
    requires s.fishCommand == VER && forall w :: w in ws ==> Free(' ', w)
    ensures var t := ManageLine(env, s, "VER 0.0.3" + Words(ws));
            t.failed == s.failed && t.connected == s.connected && (t.put.hasAppend <==> "append" in ws)
  {
    var line := "VER 0.0.3" + Words(ws);
    assert line[..9] == "VER 0.0.3" && line[..4][0] == 'V';
    AppendNamed(ws);
    ThisVersion(env, s, line);
  }

  lemma OtherVersion(env: Env, s: State, line: string)
    requires s.fishCommand == VER && !IsResult(line) && !StartsWith(line, "VER 0.0.3")
    ensures var t := ManageLine(env, s, line);
            t.failed == Some(UnsupportedProtocol) && !t.connected && !t.isRunning
  {
  }

  // ----- result lines -----

  /** Three digits. */
  function Three(n: nat): string
    requires n < 1000
  {
    [Digit(n / 100), Digit(n / 10 % 10), Digit(n % 10)]
  }

  lemma ThreeRead(n: nat)
    requires n < 1000
    ensures ToInteger(Three(n), 0x8000_0000) == Some(n)
  {
    var t := Three(n);
    TrimDigits(t);
    assert t[..2][..1][..0] == "" && t[..2][..1] == [t[0]];
    assert DecValue(t[..2][..1]) == n / 100;
    assert DecValue(t[..2]) == n / 100 * 10 + n / 10 % 10;
    assert DecValue(t) == n;
  }

  /** A result line: 0 is success and 1 preliminary success if every line before was accounted for, and
      failures otherwise; any other code stands for itself. */
  lemma CodeMeans(n: nat, behind: string, errorCount: int)
    requires n < 1000
    ensures Code("### " + Three(n) + behind, errorCount) ==
            if n <= 1 && errorCount != 0 then 500 else if n == 0 then 200 else if n == 1 then 100 else n
  {
    var line := "### " + Three(n) + behind;
    assert line[..4] == "### " && line[4..7] == Three(n);
    ThreeRead(n);
  }

  /** A result line without a number is a failure of its own code. */
  lemma NoCode(text: string, errorCount: int)
    requires ToInteger(if |text| < 3 then text else text[..3], 0x8000_0000) == None
    ensures Code("### " + text, errorCount) == 500
  {
    var line := "### " + text;
    assert line[..4] == "### " && line[4..] == text;
    assert |text| >= 3 ==> line[4..7] == text[..3];
  }

  /** Instead of the size of a file an empty line tells of a directory; anything else that is no number
      loses the connection. */
  lemma SizeMissing(env: Env, s: State, line: string)
    requires s.fishCommand == RETR && s.connected && !IsResult(line) && ToInteger(line, INT64_BOUND) == None
    ensures var t := ManageLine(env, s, line);
            && !t.isRunning && t.queue.commandList == []
            && t.failed == Some(if line == "" then IsDirectory else CannotRead)
            && (t.connected <==> line == "")
  {
  }

  /** The commands whose refusal an error tells of. */
  function RefusedWith(e: Error, code: int): set<Command> {
    match e
    case CannotWrite => {STOR, WRITE, APPEND, COPY, LINK, SYMLINK}
    case CannotRead => {RETR, READ}
    case CannotEnterDirectory => {PWD, CWD, LIST}
    case DoesNotExist => {STAT}
    case CannotChmod => {CHMOD}
    case AccessDenied => {CHOWN, CHGRP}
    case DirAlreadyExist => if code == 501 then {MKD} else {}
    case CannotMkdir => if code == 501 then {} else {MKD}
    case CannotRmdir => {RMD}
    case CannotDelete => {DELE}
    case CannotRename => {RENAME}
    case WorkerDefined => {FISH, VER}
    case _ => {}
  }

  predicate GoesOn(s: State, code: int) {
    s.fishCommand == EXEC || (s.fishCommand == LIST && s.put.listCheck) || (s.fishCommand == READ && code == 501)
  }

  lemma RefusedEnds(s: State, code: int)
    requires s.connected && !GoesOn(s, code)
    ensures var t := Refused(s, code);
            && !t.isRunning && t.queue.commandList == []
            && (!t.connected <==> s.fishCommand in {STOR, WRITE, APPEND, RETR, READ, FISH, VER})
  {
  }

  lemma RefusedSays(s: State, code: int, e: Error)
    requires !GoesOn(s, code)
    ensures Refused(s, code).failed == Some(e) <==> s.fishCommand in RefusedWith(e, code)
  {
  }

  /** A refusal ends the chain with the error of its command; the data commands and the two that open a
      connection lose it. Only EXEC, the check before a write and READ of a directory go on. */
  lemma RefusalTells(env: Env, s: State, n: nat, behind: string, e: Error)
    requires s.connected && 300 <= n < 1000 && !GoesOn(s, n)
    ensures var t := ManageLine(env, s, "### " + Three(n) + behind);
            && !t.isRunning && t.queue.commandList == []
            && (t.failed == Some(e) <==> s.fishCommand in RefusedWith(e, n))
            && (!t.connected <==> s.fishCommand in {STOR, WRITE, APPEND, RETR, READ, FISH, VER})
  {
    CodeMeans(n, behind, s.errorCount);
    var line := "### " + Three(n) + behind;
    RefusedEnds(Heard(s, line), n);
    RefusedSays(Heard(s, line), n, e);
  }
}
