/** The FISH server for one file, as fish/fish.pl runs it: a loop over lines that obeys those
    starting with '#', and the counted reading of `write_loop` (fish/fish.pl:38-42, 153-172,
    278-308). Opening the file always succeeds here. */
module FishServer {
  import opened Text
  import opened FishCommands
  import Q = FishQuoting

  /** What the next byte is: part of a line, part of the line `write_loop` drops before it
      asks for `left` bytes, or one of the bytes asked for. */
  datatype Mode = Lines(partial: string) | Shell(left: nat) | Raw(left: nat)

  /** `pos` is the file position of `write_loop`; `out` holds replies not yet read by the
      client; `listing` is what LIST answers. */
  datatype Server = Server(mode: Mode, file: string, pos: nat, out: string, listing: string)

  datatype Request = Skip | Store(n: nat) | Append(n: nat) | WriteAt(at: nat, n: nat) | ListIt | Other

  function Number(s: string): nat {
    DecValue(s[..DigitRun(s)])
  }

  /** The two numbers of a WRITE. */
  function ParseTwo(rest: string): Request {
    var k := DigitRun(rest);
    WriteAt(Number(rest), if k < |rest| then Number(rest[k + 1..]) else 0)
  }

  /** The patterns of fish/fish.pl:153-172; commands that only answer are `Other`. */
  function Parse(line: string): Request {
    if line == "" || line[0] != '#' then Skip
    else if StartsWith(line, "#STOR ") then Store(Number(line[6..]))
    else if StartsWith(line, "#APPEND ") then Append(Number(line[8..]))
    else if StartsWith(line, "#WRITE ") then ParseTwo(line[7..])
    else if StartsWith(line, "#LIST ") then ListIt
    else Other
  }

  const PRELIMINARY := "### 100"
  const COMPLETE := "### 200"

  function Obey(srv: Server, line: string): Server {
    var srv := srv.(mode := Lines(""));
    match Parse(line)
    case Skip => srv
    case Store(n) => srv.(file := "", pos := 0, mode := Shell(n))
    case Append(n) => srv.(pos := |srv.file|, mode := Shell(n))
    case WriteAt(at, n) => srv.(pos := at, mode := Shell(n))
    case ListIt => srv.(out := srv.out + srv.listing)
    case Other => srv.(out := srv.out + (COMPLETE + "\n"))
  }

  /** The file with `b` written at `pos`; a gap is filled with zero bytes. */
  function PutAt(file: string, pos: nat, b: char): string {
    if pos < |file| then file[pos := b] else file + Repeat('\0', pos - |file|) + [b]
  }

  function ServeByte(srv: Server, b: char): Server {
    match srv.mode
    case Lines(partial) => if b == '\n' then Obey(srv, partial) else srv.(mode := Lines(partial + [b]))
    case Shell(n) =>
      if b != '\n' then srv
      else if n == 0 then srv.(mode := Lines(""), out := srv.out + (PRELIMINARY + "\n") + (COMPLETE + "\n"))
      else srv.(mode := Raw(n), out := srv.out + (PRELIMINARY + "\n"))
    case Raw(n) =>
      var srv := srv.(file := PutAt(srv.file, srv.pos, b), pos := srv.pos + 1);
      if n <= 1 then srv.(mode := Lines(""), out := srv.out + (COMPLETE + "\n")) else srv.(mode := Raw(n - 1))
  }

  function Serve(srv: Server, bytes: string): Server
    decreases |bytes|
  {
    if bytes == "" then srv else Serve(ServeByte(srv, bytes[0]), bytes[1..])
  }

  lemma {:induction false} ServeAppend(srv: Server, a: string, b: string)
    ensures Serve(srv, a + b) == Serve(Serve(srv, a), b)
    decreases |a|
  {
    if a == "" {
      assert a + b == b;
    } else {
      assert (a + b)[1..] == a[1..] + b;
      ServeAppend(ServeByte(srv, a[0]), a[1..], b);
    }
  }

  lemma ServeOne(srv: Server, b: char)
    ensures Serve(srv, [b]) == ServeByte(srv, b)
  {
    assert [b][1..] == "";
    assert Serve(ServeByte(srv, b), "") == ServeByte(srv, b);
  }

  /** The server never takes a reply back, so reading its first byte can be done earlier. */
  lemma {:induction false} ServeAfterRead(srv: Server, bytes: string)
    requires srv.out != ""
    ensures Serve(srv, bytes).out != ""
    ensures Serve(srv.(out := srv.out[1..]), bytes) == Serve(srv, bytes).(out := Serve(srv, bytes).out[1..])
    ensures Serve(srv, bytes).out[0] == srv.out[0]
    decreases |bytes|
  {
    if bytes != "" {
      var s, t := ServeByte(srv, bytes[0]), ServeByte(srv.(out := srv.out[1..]), bytes[0]);
      assert srv.out <= s.out;
      assert t == s.(out := s.out[1..]) by {
        assert forall x: string, y: string :: (srv.out + x + y)[1..] == srv.out[1..] + x + y;
        assert forall x: string :: (srv.out + x)[1..] == srv.out[1..] + x;
      }
      ServeAfterRead(s, bytes[1..]);
    }
  }

  // ----- lines -----

  lemma {:induction false} ServeText(srv: Server, text: string)
    requires srv.mode.Lines? && Free('\n', text)
    ensures Serve(srv, text) == srv.(mode := Lines(srv.mode.partial + text))
    decreases |text|
  {
    if text == "" {
      assert srv.mode.partial + text == srv.mode.partial;
    } else {
      ServeText(srv.(mode := Lines(srv.mode.partial + [text[0]])), text[1..]);
      assert srv.mode.partial + [text[0]] + text[1..] == srv.mode.partial + text;
    }
  }

  lemma ServeLine(srv: Server, line: string)
    requires srv.mode == Lines("") && Free('\n', line)
    ensures Serve(srv, line + "\n") == Obey(srv, line)
  {
    ServeAppend(srv, line, "\n");
    ServeText(srv, line);
    assert "" + line == line;
    ServeOne(srv.(mode := Lines(line)), '\n');
    assert srv.(mode := Lines(line)).(mode := Lines("")) == srv;
  }

  /** No line of `s` starts with '#'; `start` says whether `s` starts a line. */
  predicate HashFree(s: string, start: bool)
    decreases |s|
  {
    s == "" || ((start ==> s[0] != '#') && HashFree(s[1..], s[0] == '\n'))
  }

  /** Whole lines none of which starts with '#'. */
  predicate Ignorable(text: string) {
    (text == "" || text[|text| - 1] == '\n') && HashFree(text, true)
  }

  lemma {:induction false} HashFreeSuffix(s: string, start: bool, k: nat)
    requires HashFree(s, start) && k < |s|
    ensures HashFree(s[k + 1..], s[k] == '\n')
    decreases k
  {
    if k > 0 {
      HashFreeSuffix(s[1..], s[0] == '\n', k - 1);
      assert s[1..][k..] == s[k + 1..];
    }
  }

  lemma {:induction false} ServeIgnorable(srv: Server, text: string)
    requires srv.mode == Lines("") && Ignorable(text)
    ensures Serve(srv, text) == srv
    decreases |text|
  {
    if text != "" {
      var k := IndexOf(text, '\n', 0);
      var line := text[..k];
      assert text == (line + "\n") + text[k + 1..];
      HashFreeSuffix(text, true, k);
      ServeAppend(srv, line + "\n", text[k + 1..]);
      ServeLine(srv, line);
      ServeIgnorable(srv, text[k + 1..]);
    }
  }

  lemma OneLess(n: nat)
    requires n > 0
    ensures Repeat('\n', n)[1..] == Repeat('\n', n - 1)
  {
  }

  lemma {:induction false} NewlinesIgnorable(n: nat)
    ensures Ignorable(Repeat('\n', n))
  {
    if n > 0 {
      NewlinesIgnorable(n - 1);
      OneLess(n);
    }
  }

  lemma {:induction false} ServeShell(srv: Server, tail: string)
    requires srv.mode.Shell? && Free('\n', tail)
    ensures Serve(srv, tail + "\n") == ServeByte(srv, '\n')
    decreases |tail|
  {
    if tail == "" {
      assert tail + "\n" == "\n";
      ServeOne(srv, '\n');
    } else {
      assert (tail + "\n")[1..] == tail[1..] + "\n";
      ServeShell(srv, tail[1..]);
    }
  }

  /** `file` with `data` written over it from `pos` on, a gap before it filled with zero bytes. */
  function Overlaid(file: string, pos: nat, data: string): string {
    (if pos <= |file| then file[..pos] else file + Repeat('\0', pos - |file|)) + data
    + if pos + |data| < |file| then file[pos + |data|..] else ""
  }

  lemma OverlaidFirst(file: string, pos: nat, b: char)
    ensures Overlaid(file, pos, [b]) == PutAt(file, pos, b)
  {
  }

  lemma OverlaidStep(file: string, pos: nat, data: string)
    requires data != ""
    ensures Overlaid(PutAt(file, pos, data[0]), pos + 1, data[1..]) == Overlaid(file, pos, data)
  {
    var f := PutAt(file, pos, data[0]);
    var front := if pos <= |file| then file[..pos] else file + Repeat('\0', pos - |file|);
    assert f[..pos + 1] == front + [data[0]];
    assert front + [data[0]] + data[1..] == front + data;
    if pos + |data| < |file| {
      assert f[pos + 1 + |data[1..]|..] == file[pos + |data|..];
    }
  }

  /** Counted bytes are written from the position on. */
  lemma {:induction false} ServeRaw(srv: Server, data: string)
    requires data != "" && srv.mode == Raw(|data|)
    ensures Serve(srv, data) ==
            srv.(mode := Lines(""), file := Overlaid(srv.file, srv.pos, data), pos := srv.pos + |data|,
                 out := srv.out + (COMPLETE + "\n"))
    decreases |data|
  {
    if |data| > 1 {
      ServeRaw(ServeByte(srv, data[0]), data[1..]);
      OverlaidStep(srv.file, srv.pos, data);
    } else {
      assert data == [data[0]];
      ServeOne(srv, data[0]);
      OverlaidFirst(srv.file, srv.pos, data[0]);
    }
  }

  /** At the end of the file this appends. */
  lemma OverlaidAtEnd(file: string, data: string)
    ensures Overlaid(file, |file|, data) == file + data
  {
  }

  // ----- what the server makes of the client's commands -----

  /** The command's own line, and behind it the shell form for servers that are no server. */
  predicate Framed(text: string, head: string) {
    StartsWith(text, head + "\n") && Free('\n', head)
  }

  function ShellPart(text: string, head: string): string
    requires Framed(text, head)
  {
    text[|head| + 1..]
  }

  /** The shell form is one line. */
  predicate OneLine(text: string, head: string) {
    && Framed(text, head)
    && var tail := ShellPart(text, head);
       tail != "" && tail[|tail| - 1] == '\n' && Free('\n', tail[..|tail| - 1])
  }

  lemma ServeStored(srv: Server, head: string, tail: string)
    requires srv.mode == Lines("") && Free('\n', head) && Free('\n', tail) && Obey(srv, head).mode.Shell?
    ensures Serve(srv, head + "\n" + (tail + "\n")) == ServeByte(Obey(srv, head), '\n')
  {
    ServeAppend(srv, head + "\n", tail + "\n");
    ServeLine(srv, head);
    ServeShell(Obey(srv, head), tail);
  }

  lemma ServeAnswered(srv: Server, head: string, tail: string)
    requires srv.mode == Lines("") && Free('\n', head) && Ignorable(tail) && Obey(srv, head).mode == Lines("")
    ensures Serve(srv, head + "\n" + tail) == Obey(srv, head)
  {
    ServeAppend(srv, head + "\n", tail);
    ServeLine(srv, head);
    ServeIgnorable(Obey(srv, head), tail);
  }

  lemma FrameOf(text: string, head: string)
    requires Framed(text, head)
    ensures text == head + "\n" + ShellPart(text, head)
    ensures OneLine(text, head) ==>
              var tail := ShellPart(text, head);
              text == head + "\n" + (tail[..|tail| - 1] + "\n")
  {
  }

  // heads

  lemma {:induction false} DigitsPlain(s: string)
    requires AllDigits(s)
    ensures Q.Plain(s) && Q.Escape(s) == s
  {
    Q.EscapePlain(s);
  }

  lemma NumberReads(n: nat, rest: string)
    requires rest == "" || !IsDigit(rest[0])
    ensures DigitRun(Dec(n) + rest) == |Dec(n)| && Number(Dec(n) + rest) == n
  {
    DigitRunStops(Dec(n), rest);
    assert (Dec(n) + rest)[..|Dec(n)|] == Dec(n);
    DecRoundTrip(n);
  }

  lemma Head2(cmd: Command, number: string, path: string)
    requires AllDigits(number)
    ensures Head(cmd, [number, path]) == "#" + Name(cmd) + (" " + (number + (" " + Q.Escape(path))))
  {
    DigitsPlain(number);
    assert EscapeAll([number, path]) == [number, Q.Escape(path)];
    Spaced2(number, Q.Escape(path));
  }

  lemma Spaced2(a: string, b: string)
    ensures Spaced([a, b]) == " " + (a + (" " + b))
  {
    assert [a, b][1..] == [b] && [b][1..] == [];
    assert Spaced([b]) == " " + b;
  }

  lemma Spaced3(a: string, b: string, c: string)
    ensures Spaced([a, b, c]) == " " + (a + (" " + (b + (" " + c))))
  {
    assert [a, b, c][1..] == [b, c];
    Spaced2(b, c);
  }

  lemma Head3(cmd: Command, a: string, b: string, path: string)
    requires AllDigits(a) && AllDigits(b)
    ensures Head(cmd, [a, b, path]) == "#" + Name(cmd) + (" " + (a + (" " + (b + (" " + Q.Escape(path))))))
  {
    DigitsPlain(a);
    DigitsPlain(b);
    assert EscapeAll([a, b, path]) == [a, b, Q.Escape(path)];
    Spaced3(a, b, Q.Escape(path));
  }

  /** A line splits behind the space that follows its keyword. */
  lemma KeywordEnds(key: string, rest: string)
    ensures var line := key + (" " + rest); line[..|key| + 1] == key + " " && line[|key| + 1..] == rest
  {
  }

  lemma KeywordWrite(rest: string)
    ensures Parse("#WRITE" + (" " + rest)) == ParseTwo(rest)
  {
    var line := "#WRITE" + (" " + rest);
    KeywordEnds("#WRITE", rest);
    assert line[0] == '#' && line[1] == 'W' && "#WRITE" + " " == "#WRITE ";
    OtherKeyword(line, "#STOR ");
    OtherKeyword(line, "#APPEND ");
  }

  lemma OtherKeyword(line: string, key: string)
    requires |line| >= 2 && |key| >= 2 && line[1] != key[1]
    ensures !StartsWith(line, key)
  {
    assert |key| <= |line| ==> line[..|key|][1] == line[1];
  }

  lemma Behind(a: string, c: char, b: string)
    ensures var s := a + ([c] + b); |a| < |s| && s[|a| + 1..] == b
  {
  }

  lemma TwoNumbers(at: nat, n: nat, tail: string)
    requires tail == "" || !IsDigit(tail[0])
    ensures ParseTwo(Dec(at) + (" " + (Dec(n) + tail))) == WriteAt(at, n)
  {
    NumberReads(at, " " + (Dec(n) + tail));
    NumberReads(n, tail);
    Behind(Dec(at), ' ', Dec(n) + tail);
  }

  lemma ParseWrite(at: nat, n: nat, path: string)
    ensures Parse(Head(WRITE, [Dec(at), Dec(n), path])) == WriteAt(at, n)
  {
    var tail := " " + Q.Escape(path);
    Head3(WRITE, Dec(at), Dec(n), path);
    assert "#" + Name(WRITE) == "#WRITE";
    KeywordWrite(Dec(at) + (" " + (Dec(n) + tail)));
    TwoNumbers(at, n, tail);
  }

  lemma KeywordAppend(rest: string)
    ensures Parse("#APPEND" + (" " + rest)) == Append(Number(rest))
  {
    var line := "#APPEND" + (" " + rest);
    assert line[1] == 'A' && line[..8] == "#APPEND " && line[8..] == rest;
  }

  lemma ParseAppend(n: nat, path: string)
    ensures Parse(Head(APPEND, [Dec(n), path])) == Append(n)
  {
    var tail := " " + Q.Escape(path);
    Head2(APPEND, Dec(n), path);
    assert "#" + Name(APPEND) == "#APPEND";
    KeywordAppend(Dec(n) + tail);
    NumberReads(n, tail);
  }

  lemma KeywordStor(rest: string)
    ensures Parse("#STOR" + (" " + rest)) == Store(Number(rest))
  {
    var line := "#STOR" + (" " + rest);
    assert line[..6] == "#STOR " && line[6..] == rest;
  }

  lemma ParseStor(path: string)
    ensures Parse(Head(STOR, ["0", path])) == Store(0)
  {
    var tail := " " + Q.Escape(path);
    Head2(STOR, "0", path);
    assert "#" + Name(STOR) == "#STOR";
    KeywordStor("0" + tail);
    assert Dec(0) == "0";
    NumberReads(0, tail);
  }

  lemma KeywordList(rest: string)
    ensures Parse("#LIST" + (" " + rest)) == ListIt
  {
    var line := "#LIST" + (" " + rest);
    assert line[1] == 'L' && line[..6] == "#LIST ";
  }

  lemma ParseList(path: string)
    ensures Parse(Head(LIST, [path])) == ListIt
  {
    var word := Q.Escape(path);
    assert EscapeAll([path]) == [word];
    assert [word][1..] == [];
    assert Spaced([word]) == " " + word + Spaced([]);
    assert Spaced([word]) == " " + word;
    assert "#" + Name(LIST) == "#LIST";
    KeywordList(word);
  }

  lemma KeywordChmod(rest: string)
    ensures Parse("#CHMOD" + (" " + rest)) == Other
  {
    var line := "#CHMOD" + (" " + rest);
    assert line[1] == 'C';
  }

  lemma ParseChmod(mode: string, path: string)
    requires AllDigits(mode)
    ensures Parse(Head(CHMOD, [mode, path])) == Other
  {
    Head2(CHMOD, mode, path);
    assert "#" + Name(CHMOD) == "#CHMOD";
    KeywordChmod(mode + (" " + Q.Escape(path)));
  }
}
