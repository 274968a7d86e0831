/** What the server makes of the commands that name files (fish/fish.pl:54-172): the client's names come
    back, in their order, exactly if they are free of some rare characters; and so the operations that
    move, link, copy and upload name the right files (fish/fish.cpp:1239-1256, 1407-1437, 1655-1753). */
module FishOrders {
  import opened Text
  import opened FishCommands
  import opened FishModel
  import opened FishNames
  import Q = FishQuoting
  import R = FishRuns
  import S = FishServer
  import T = FishTexts

  /** What the server is told to do: something with two names, listing, storing, changing a mode, or none of
      these. */
  datatype Order =
    | Two(cmd: Command, first: string, second: string) | List(name: string) | Chmod(mode: nat, name: string)
    | Data(cmd: Command, numbers: seq<nat>, name: string) | NoOrder

  function Listed(r: Option<string>): Order {
    if r.Some? then List(r.value) else NoOrder
  }

  function Moded(r: Option<(nat, string)>): Order {
    if r.Some? then Chmod(r.value.0, r.value.1) else NoOrder
  }

  function Counted(cmd: Command, r: Option<(seq<nat>, string)>): Order {
    if r.Some? then Data(cmd, r.value.0, r.value.1) else NoOrder
  }

  function Pair(cmd: Command, names: Option<(string, string)>): Order {
    if names.Some? then Two(cmd, names.value.0, names.value.1) else NoOrder
  }

  /** Where the keyword of a line ends. */
  function KeyEnd(line: string): (n: nat)
    ensures n <= |line|
  {
    if line == "" || IsSpace(line[0]) then 0 else 1 + KeyEnd(line[1..])
  }

  /** fish/fish.pl:54-172: the keyword and what follows it, white space first. */
  function ByKey(key: string, r: string): Order {
    if key == "#SYMLINK" then Pair(SYMLINK, TwoNames(r))
    else if key == "#COPY" then Pair(COPY, TwoNames(r))
    else if key == "#LINK" then Pair(LINK, TwoNames(r))
    else if key == "#RENAME" then Pair(RENAME, TwoNames(r))
    else if key == "#CHMOD" then Moded(ModeAndName(r))
    else if key == "#LIST" then Listed(OneName(r))
    else if key == "#WRITE" then Counted(WRITE, NumbersAndName(r, 2))
    else if key == "#APPEND" then Counted(APPEND, NumbersAndName(r, 1))
    else if key == "#STOR" then Counted(STOR, NumbersAndName(r, 1))
    else NoOrder
  }

  /** A line without its newline. */
  function Read(line: string): Order {
    ByKey(line[..KeyEnd(line)], line[KeyEnd(line)..])
  }

  /** The line the server sees first. */
  function FirstLine(text: string): string {
    var n := IndexOf(text, '\n', 0);
    if n < 0 then text else text[..n]
  }

  /** What a text of the client's orders. */
  function Ordered(text: string): Order {
    Read(FirstLine(text))
  }

  // ----- lines -----

  lemma FirstOf(x: string, y: string)
    requires Free('\n', x)
    ensures FirstLine(x + "\n" + y) == x
  {
    var text := x + "\n" + y;
    assert text[|x|] == '\n';
    assert forall i :: 0 <= i < |x| ==> text[i] == x[i];
    assert text[..|x|] == x;
  }

  /** A name up to its first newline, which is escaped. */
  lemma NewlineEscaped(s: string) returns (front: string, back: string)
    requires !Free('\n', s)
    ensures Free('\n', front) && Q.Escape(s) == Q.Escape(front) + ("\\\n" + Q.Escape(back))
  {
    var n := IndexOf(s, '\n', 0);
    front, back := s[..n], s[n + 1..];
    assert s == front + ("\n" + back);
    Q.EscapeAppend(front, "\n" + back);
    assert ("\n" + back)[1..] == back && Q.EscapeChar('\n') == "\\\n";
  }

  lemma WordsFree(a: string)
    requires Free('\n', a)
    ensures Free('\n', Q.Escape(a))
  {
    T.EscapeFree(a);
  }

  lemma NotWhole(a: string)
    ensures !Whole(Q.Escape(a) + "\\")
  {
    WholeEscaped(a, "\\");
  }

  lemma WholeAcross(a: string, rest: string)
    ensures Whole(" " + (Q.Escape(a) + (" " + rest))) <==> Whole(rest)
  {
    var tail := " " + rest;
    assert tail[1..] == rest && (" " + (Q.Escape(a) + tail))[1..] == Q.Escape(a) + tail;
    WholeEscaped(a, tail);
  }

  /** The line of a command on two names, behind its keyword, and what follows the names in the text. */
  function TwoLine(key: string, a: string, b: string, tail: string): string {
    key + (" " + (Q.Escape(a) + (" " + Q.Escape(b)))) + "\n" + tail
  }

  lemma TwoLineFirst(key: string, a: string, b: string, tail: string)
    requires Free('\n', key) && Free('\n', a) && Free('\n', b)
    ensures FirstLine(TwoLine(key, a, b, tail)) == key + (" " + (Q.Escape(a) + (" " + Q.Escape(b))))
  {
    WordsFree(a);
    WordsFree(b);
    FirstOf(key + (" " + (Q.Escape(a) + (" " + Q.Escape(b)))), tail);
  }

  /** A newline in one of the names cuts the line behind a backslash. */
  lemma TwoLineCut(key: string, a: string, b: string, tail: string) returns (r: string)
    requires Free('\n', key) && !(Free('\n', a) && Free('\n', b))
    ensures FirstLine(TwoLine(key, a, b, tail)) == key + r && !Whole(r) && r != "" && r[0] == ' '
  {
    if !Free('\n', a) {
      var front, back := NewlineEscaped(a);
      r := " " + (Q.Escape(front) + "\\");
      WordsFree(front);
      NotWhole(front);
      assert r[1..] == Q.Escape(front) + "\\";
      CutFirst(key, front, Q.Escape(back), Q.Escape(b), tail);
    } else {
      var front, back := NewlineEscaped(b);
      r := " " + (Q.Escape(a) + (" " + (Q.Escape(front) + "\\")));
      WordsFree(a);
      WordsFree(front);
      NotWhole(front);
      WholeAcross(a, Q.Escape(front) + "\\");
      CutSecond(key, Q.Escape(a), front, Q.Escape(back), tail);
    }
  }

  lemma CutFirst(key: string, front: string, back: string, b: string, tail: string)
    requires Free('\n', key) && Free('\n', Q.Escape(front))
    ensures FirstLine(key + (" " + (Q.Escape(front) + ("\\\n" + back) + (" " + b))) + "\n" + tail)
         == key + (" " + (Q.Escape(front) + "\\"))
  {
    var e := Q.Escape(front);
    var x, y := key + (" " + (e + "\\")), back + (" " + b) + "\n" + tail;
    assert key + (" " + (e + ("\\\n" + back) + (" " + b))) + "\n" + tail == x + "\n" + y;
    FirstOf(x, y);
  }

  lemma CutSecond(key: string, a: string, front: string, back: string, tail: string)
    requires Free('\n', key) && Free('\n', a) && Free('\n', Q.Escape(front))
    ensures FirstLine(key + (" " + (a + (" " + (Q.Escape(front) + ("\\\n" + back))))) + "\n" + tail)
         == key + (" " + (a + (" " + (Q.Escape(front) + "\\"))))
  {
    var e := Q.Escape(front);
    var x, y := key + (" " + (a + (" " + (e + "\\")))), back + "\n" + tail;
    assert key + (" " + (a + (" " + (e + ("\\\n" + back))))) + "\n" + tail == x + "\n" + y;
    FirstOf(x, y);
  }

  // ----- keywords -----

  predicate Keyword(key: string) {
    forall i :: 0 <= i < |key| ==> !IsSpace(key[i])
  }

  lemma {:induction false} KeyEnds(key: string, r: string)
    requires Keyword(key) && r != "" && r[0] == ' '
    ensures KeyEnd(key + r) == |key|
    decreases |key|
  {
    if key == "" {
      assert key + r == r;
    } else {
      assert (key + r)[1..] == key[1..] + r;
      KeyEnds(key[1..], r);
    }
  }

  lemma ReadKey(key: string, r: string)
    requires Keyword(key) && r != "" && r[0] == ' '
    ensures Read(key + r) == ByKey(key, r) && Free('\n', key)
  {
    KeyEnds(key, r);
    assert (key + r)[..|key|] == key && (key + r)[|key|..] == r;
  }

  // ----- whole texts -----

  /** Behind its line a text goes on with the shell form. */
  lemma TextBehind(alt: Command -> string, cmd: Command, args: seq<string>) returns (tail: string)
    requires |args| <= 3 && cmd != FISH
    ensures CommandText(alt, cmd, args) == Head(cmd, args) + "\n" + tail
  {
    var shell := Q.ReplaceFrom(alt(cmd), EscapeAll(args), 0);
    tail := " " + shell + " 2>&1;echo '### 200'\n";
    var head := Head(cmd, args);
    assert "\n " == "\n" + " ";
    assert "" + Assembled(head, shell) == head + "\n" + tail;
  }

  lemma HeadOfTwo(cmd: Command, a: string, b: string)
    ensures Head(cmd, [a, b]) == "#" + Name(cmd) + (" " + (Q.Escape(a) + (" " + Q.Escape(b))))
  {
    assert EscapeAll([a, b]) == [Q.Escape(a), Q.Escape(b)];
    S.Spaced2(Q.Escape(a), Q.Escape(b));
  }

  lemma HeadOfOne(cmd: Command, a: string)
    ensures Head(cmd, [a]) == "#" + Name(cmd) + (" " + Q.Escape(a))
  {
    assert EscapeAll([a]) == [Q.Escape(a)];
    assert [Q.Escape(a)][1..] == [] && Spaced([]) == "";
    assert " " + Q.Escape(a) + "" == " " + Q.Escape(a);
  }

  lemma KeyOf(cmd: Command)
    ensures cmd == SYMLINK ==> "#" + Name(cmd) == "#SYMLINK"
    ensures cmd == COPY ==> "#" + Name(cmd) == "#COPY"
    ensures cmd == LINK ==> "#" + Name(cmd) == "#LINK"
    ensures cmd == RENAME ==> "#" + Name(cmd) == "#RENAME"
    ensures cmd == STOR ==> "#" + Name(cmd) == "#STOR"
    ensures cmd == APPEND ==> "#" + Name(cmd) == "#APPEND"
  {
  }

  lemma KeyOfTwo(cmd: Command, r: string)
    requires cmd in {SYMLINK, COPY, LINK, RENAME}
    ensures Keyword("#" + Name(cmd)) && ByKey("#" + Name(cmd), r) == Pair(cmd, TwoNames(r))
  {
    KeyOf(cmd);
    PairKeys(r);
  }

  lemma PairKeys(r: string)
    ensures Keyword("#SYMLINK") && ByKey("#SYMLINK", r) == Pair(SYMLINK, TwoNames(r))
    ensures Keyword("#COPY") && ByKey("#COPY", r) == Pair(COPY, TwoNames(r))
    ensures Keyword("#LINK") && ByKey("#LINK", r) == Pair(LINK, TwoNames(r))
    ensures Keyword("#RENAME") && ByKey("#RENAME", r) == Pair(RENAME, TwoNames(r))
  {
  }

  lemma CountKeys(cmd: Command, r: string)
    requires cmd in {STOR, APPEND}
    ensures Keyword("#" + Name(cmd)) && ByKey("#" + Name(cmd), r) == Counted(cmd, NumbersAndName(r, 1))
  {
    KeyOf(cmd);
    if cmd == STOR {
      StorKey(r);
    } else {
      AppendKey(r);
    }
  }

  lemma StorKey(r: string)
    ensures Keyword("#STOR") && ByKey("#STOR", r) == Counted(STOR, NumbersAndName(r, 1))
  {
  }

  lemma AppendKey(r: string)
    ensures Keyword("#APPEND") && ByKey("#APPEND", r) == Counted(APPEND, NumbersAndName(r, 1))
  {
  }

  lemma WriteKey(r: string)
    ensures Keyword("#WRITE") && ByKey("#WRITE", r) == Counted(WRITE, NumbersAndName(r, 2))
  {
    assert "#WRITE"[1] == 'W' && "#CHMOD"[1] == 'C';
  }

  /** A command on two names orders just that, the names in the order given, exactly if they are free of
      newlines and of odd characters where these matter. */
  lemma TwoOrdered(alt: Command -> string, cmd: Command, a: string, b: string)
    requires cmd in {SYMLINK, COPY, LINK, RENAME}
    ensures Ordered(CommandText(alt, cmd, [a, b])) == Two(cmd, a, b) <==> BothArrive(a, b)
  {
    var key := "#" + Name(cmd);
    var tail := TextBehind(alt, cmd, [a, b]);
    HeadOfTwo(cmd, a, b);
    KeyOfTwo(cmd, "");
    var r := TwoLineRead(key, a, b, tail);
    KeyOfTwo(cmd, r);
    if Free('\n', a) && Free('\n', b) {
      TwoNamesExactly(a, b);
    } else {
      CutShort(r);
    }
  }

  lemma TwoLineRead(key: string, a: string, b: string, tail: string) returns (r: string)
    requires Keyword(key)
    ensures Read(FirstLine(TwoLine(key, a, b, tail))) == ByKey(key, r)
    ensures if Free('\n', a) && Free('\n', b) then r == " " + (Q.Escape(a) + (" " + Q.Escape(b))) else !Whole(r)
  {
    ReadKey(key, " ");
    if Free('\n', a) && Free('\n', b) {
      r := " " + (Q.Escape(a) + (" " + Q.Escape(b)));
      TwoLineFirst(key, a, b, tail);
    } else {
      r := TwoLineCut(key, a, b, tail);
    }
    ReadKey(key, r);
  }

  lemma CutLast(front: string, x: string, more: string, tail: string)
    requires Free('\n', front) && Free('\n', x)
    ensures FirstLine(front + (" " + (x + ("\\\n" + more))) + "\n" + tail) == front + (" " + (x + "\\"))
  {
    var line, y := front + (" " + (x + "\\")), more + "\n" + tail;
    assert front + (" " + (x + ("\\\n" + more))) + "\n" + tail == line + "\n" + y;
    FirstOf(line, y);
  }

  /** The line of a command whose last name is `a`, `front` being what stands before it. */
  lemma OneLineFirst(front: string, a: string, tail: string) returns (r: string)
    requires Free('\n', front)
    ensures FirstLine(front + (" " + Q.Escape(a)) + "\n" + tail) == front + r
    ensures if Free('\n', a) then r == " " + Q.Escape(a) else !Whole(r)
    ensures r != "" && r[0] == ' '
  {
    if Free('\n', a) {
      r := " " + Q.Escape(a);
      WordsFree(a);
      FirstOf(front + r, tail);
    } else {
      var x, y := NewlineEscaped(a);
      r := " " + (Q.Escape(x) + "\\");
      WordsFree(x);
      NotWhole(x);
      assert r[1..] == Q.Escape(x) + "\\";
      CutLast(front, Q.Escape(x), Q.Escape(y), tail);
    }
  }

  lemma OneNameArrives(a: string, r: string)
    requires if Free('\n', a) then r == " " + Q.Escape(a) else !Whole(r)
    ensures OneName(r) == Some(a) <==> Arrives(a)
  {
    if Free('\n', a) {
      OneNameExactly(a);
    } else {
      CutShort(r);
    }
  }

  /** So for the check: it asks for the name given. */
  lemma ListOrdered(alt: Command -> string, a: string)
    ensures Ordered(CommandText(alt, LIST, [a])) == List(a) <==> Arrives(a)
  {
    var tail := TextBehind(alt, LIST, [a]);
    HeadOfOne(LIST, a);
    assert "#" + Name(LIST) == "#LIST";
    var r := OneLineFirst("#LIST", a, tail);
    ReadKey("#LIST", r);
    OneNameArrives(a, r);
  }

  // numbers

  lemma {:induction false} OctalReads(n: nat)
    ensures (forall i :: 0 <= i < |Octal(n)| ==> '0' <= Octal(n)[i] < '8') && OctalValue(Octal(n)) == n
  {
    if n < 8 {
      assert Octal(n)[..0] == "";
    } else {
      OctalReads(n / 8);
      assert Octal(n)[..|Octal(n)| - 1] == Octal(n / 8);
    }
  }

  lemma {:induction false} OctalStops(d: string, rest: string)
    requires (forall i :: 0 <= i < |d| ==> '0' <= d[i] < '8') && rest != "" && rest[0] == ' '
    ensures OctalRun(d + rest) == |d|
    decreases |d|
  {
    if d == "" {
      assert d + rest == rest;
    } else {
      assert (d + rest)[1..] == d[1..] + rest;
      OctalStops(d[1..], rest);
    }
  }

  /** One blank, digits, and the rest. */
  lemma BlankThen(d: string, rest: string)
    requires d != "" && !IsSpace(d[0])
    ensures var r := " " + (d + rest); Blanks(r) == 1 && r[Blanks(r)..] == d + rest
  {
    var r := " " + (d + rest);
    assert r[1..] == d + rest;
  }

  lemma ModeFirst(mode: nat, r: string)
    requires r != "" && r[0] == ' '
    ensures ModeAndName(" " + (Octal(mode) + r))
         == match OneName(r) { case None => None case Some(a) => Some((mode, a)) }
  {
    var d := Octal(mode);
    BlankThen(d, r);
    OctalReads(mode);
    OctalStops(d, r);
    assert (d + r)[..|d|] == d && (d + r)[|d|..] == r;
  }

  lemma DecFirst(n: nat, r: string)
    requires r != "" && r[0] == ' '
    ensures NumberFirst(" " + (Dec(n) + r)) == Some((n, r))
  {
    var d := Dec(n);
    BlankThen(d, r);
    DigitRunStops(d, r);
    DecRoundTrip(n);
    assert (d + r)[..|d|] == d && (d + r)[|d|..] == r;
  }

  lemma DigitsFree(d: string)
    requires AllDigits(d)
    ensures Free('\n', d)
  {
  }

  /** The line of a command with a number in front of its last name; `middle` may hold another one. */
  lemma NumberLine(key: string, middle: string, d: string, a: string, tail: string) returns (r: string)
    requires Free('\n', key) && Free('\n', middle) && AllDigits(d)
    ensures FirstLine(key + (middle + (" " + (d + (" " + Q.Escape(a))))) + "\n" + tail)
         == key + (middle + (" " + (d + r)))
    ensures if Free('\n', a) then r == " " + Q.Escape(a) else !Whole(r)
    ensures r != "" && r[0] == ' '
  {
    var front, e := key + (middle + (" " + d)), " " + Q.Escape(a);
    DigitsFree(d);
    r := OneLineFirst(front, a, tail);
    assert key + (middle + (" " + (d + e))) == front + e;
    assert key + (middle + (" " + (d + r))) == front + r;
  }

  lemma NothingBetween(key: string, x: string)
    ensures key + ("" + x) == key + x
  {
  }

  /** A change of mode orders just that exactly if the name arrives. */
  lemma ChmodOrdered(alt: Command -> string, mode: nat, a: string)
    ensures Ordered(CommandText(alt, CHMOD, [Octal(mode), a])) == Chmod(mode, a) <==> Arrives(a)
  {
    var d := Octal(mode);
    var r := ChmodLine(alt, d, a);
    ReadKey("#CHMOD", " " + (d + r));
    ModeFirst(mode, r);
    OneNameArrives(a, r);
  }

  lemma ChmodLine(alt: Command -> string, d: string, a: string) returns (r: string)
    requires AllDigits(d)
    ensures FirstLine(CommandText(alt, CHMOD, [d, a])) == "#CHMOD" + (" " + (d + r))
    ensures if Free('\n', a) then r == " " + Q.Escape(a) else !Whole(r)
    ensures r != "" && r[0] == ' '
  {
    var tail := TextBehind(alt, CHMOD, [d, a]);
    S.Head2(CHMOD, d, a);
    assert "#" + Name(CHMOD) == "#CHMOD";
    r := NumberLine("#CHMOD", "", d, a, tail);
    NothingBetween("#CHMOD", " " + (d + (" " + Q.Escape(a))));
    NothingBetween("#CHMOD", " " + (d + r));
  }

  lemma OneNumber(n: nat, r: string)
    requires r != "" && r[0] == ' '
    ensures NumbersAndName(" " + (Dec(n) + r), 1)
         == match OneName(r) { case None => None case Some(a) => Some(([n], a)) }
  {
    DecFirst(n, r);
    assert [n] + [] == [n];
    assert NumbersAndName(r, 0) == match OneName(r) { case None => None case Some(a) => Some(([], a)) };
  }

  lemma TwoNumbers(m: nat, n: nat, r: string)
    requires r != "" && r[0] == ' '
    ensures NumbersAndName(" " + (Dec(m) + (" " + (Dec(n) + r))), 2) ==
            match OneName(r) { case None => None case Some(a) => Some(([m, n], a)) }
  {
    OneNumber(n, r);
    DecFirst(m, " " + (Dec(n) + r));
    assert [m] + [n] == [m, n];
  }

  lemma CountLine(alt: Command -> string, cmd: Command, d: string, a: string) returns (r: string)
    requires AllDigits(d) && cmd in {STOR, APPEND}
    ensures FirstLine(CommandText(alt, cmd, [d, a])) == "#" + Name(cmd) + (" " + (d + r))
    ensures if Free('\n', a) then r == " " + Q.Escape(a) else !Whole(r)
    ensures r != "" && r[0] == ' '
  {
    var key := "#" + Name(cmd);
    var tail := TextBehind(alt, cmd, [d, a]);
    S.Head2(cmd, d, a);
    r := NumberLine(key, "", d, a, tail);
    NothingBetween(key, " " + (d + (" " + Q.Escape(a))));
    NothingBetween(key, " " + (d + r));
  }

  /** STOR and APPEND name the file exactly if the name arrives. */
  lemma CountOrdered(alt: Command -> string, cmd: Command, n: nat, a: string)
    requires cmd in {STOR, APPEND}
    ensures Ordered(CommandText(alt, cmd, [Dec(n), a])) == Data(cmd, [n], a) <==> Arrives(a)
  {
    var r := CountLine(alt, cmd, Dec(n), a);
    CountKeys(cmd, " " + (Dec(n) + r));
    ReadKey("#" + Name(cmd), " " + (Dec(n) + r));
    OneNumber(n, r);
    OneNameArrives(a, r);
  }

  lemma WriteLine(alt: Command -> string, c: string, d: string, a: string) returns (r: string)
    requires AllDigits(c) && AllDigits(d)
    ensures FirstLine(CommandText(alt, WRITE, [c, d, a])) == "#WRITE" + (" " + (c + (" " + (d + r))))
    ensures if Free('\n', a) then r == " " + Q.Escape(a) else !Whole(r)
    ensures r != "" && r[0] == ' '
  {
    var tail := TextBehind(alt, WRITE, [c, d, a]);
    S.Head3(WRITE, c, d, a);
    assert "#" + Name(WRITE) == "#WRITE";
    DigitsFree(c);
    r := NumberLine("#WRITE", " " + c, d, a, tail);
    Regroup(" ", c, " " + (d + (" " + Q.Escape(a))));
    Regroup(" ", c, " " + (d + r));
  }

  /** And WRITE. */
  lemma WriteOrdered(alt: Command -> string, m: nat, n: nat, a: string)
    ensures Ordered(CommandText(alt, WRITE, [Dec(m), Dec(n), a])) == Data(WRITE, [m, n], a) <==> Arrives(a)
  {
    var r := WriteLine(alt, Dec(m), Dec(n), a);
    WriteKey(" " + (Dec(m) + (" " + (Dec(n) + r))));
    ReadKey("#WRITE", " " + (Dec(m) + (" " + (Dec(n) + r))));
    TwoNumbers(m, n, r);
    OneNameArrives(a, r);
  }

  // ----- the operations -----

  /** What a list of commands orders. */
  function Orders(texts: seq<string>): (os: seq<Order>)
    ensures |os| == |texts| && forall i :: 0 <= i < |texts| ==> os[i] == Ordered(texts[i])
  {
    if texts == [] then [] else [Ordered(texts[0])] + Orders(texts[1..])
  }

  /** What `rename`, `symlink` and `copy` are to order, `from` before `to`. */
  function Wanted(cmd: Command, from: string, to: string, permissions: int, overwrite: bool): seq<Order> {
    (if overwrite then [] else [List(to)]) + [Two(cmd, from, to)]
    + if cmd == COPY && permissions > -1 then [Chmod(permissions, to)] else []
  }

  lemma {:induction false} OrdersAppend(a: seq<string>, b: seq<string>)
    ensures Orders(a + b) == Orders(a) + Orders(b)
    decreases |a|
  {
    if a == [] {
      assert a + b == b;
    } else {
      assert (a + b)[1..] == a[1..] + b;
      OrdersAppend(a[1..], b);
    }
  }

  lemma OneOrder(text: string)
    ensures Orders([text]) == [Ordered(text)]
  {
  }

  /** The optional check in front of the command, and the permissions behind a copy. */
  function Front(env: Env, overwrite: bool): seq<string> {
    if overwrite then [] else [env.text(LIST, [env.path])]
  }

  function End(env: Env, cmd: Command, permissions: int): seq<string> {
    if cmd == COPY && permissions > -1 then [env.text(CHMOD, [Octal(permissions), env.path])] else []
  }

  lemma GuardedTexts(env: Env, s: State, cmd: Command, source: string, permissions: int, overwrite: bool)
    requires s.queue.commandList == [] && cmd in {RENAME, SYMLINK, COPY}
    requires (if cmd == COPY then source else env.path) != ""
    ensures R.QueueGuarded(env, s, cmd, source, permissions, overwrite).queue.commandList ==
            Front(env, overwrite) + [env.text(cmd, [source, env.path])] + End(env, cmd, permissions)
  {
  }

  lemma FrontOrders(env: Env, alt: Command -> string, overwrite: bool)
    requires T.Renders(env, alt)
    ensures |Front(env, overwrite)| == if overwrite then 0 else 1
    ensures Arrives(env.path) ==> Orders(Front(env, overwrite)) == if overwrite then [] else [List(env.path)]
  {
    ListOrdered(alt, env.path);
  }

  lemma EndOrders(env: Env, alt: Command -> string, cmd: Command, permissions: int)
    requires T.Renders(env, alt)
    ensures |End(env, cmd, permissions)| == if cmd == COPY && permissions > -1 then 1 else 0
    ensures Arrives(env.path) ==>
              Orders(End(env, cmd, permissions))
              == if cmd == COPY && permissions > -1 then [Chmod(permissions, env.path)] else []
  {
    if permissions > -1 {
      ChmodOrdered(alt, permissions, env.path);
      OneOrder(env.text(CHMOD, [Octal(permissions), env.path]));
    }
  }

  lemma ThreeOrders(front: seq<string>, text: string, end: seq<string>)
    ensures Orders(front + [text] + end) == Orders(front) + [Ordered(text)] + Orders(end)
  {
    OrdersAppend(front + [text], end);
    OrdersAppend(front, [text]);
    OneOrder(text);
  }

  lemma MiddleDiffers(a: seq<Order>, x: Order, b: seq<Order>, c: seq<Order>, y: Order, d: seq<Order>)
    requires |a| == |c| && x != y
    ensures a + [x] + b != c + [y] + d
  {
    assert (a + [x] + b)[|a|] == x && (c + [y] + d)[|c|] == y;
  }

  /** They do exactly if both names arrive: the check asks for the target, the command names the source
      first and the target second, and the permissions are the target's. */
  lemma GuardedOrders(env: Env, alt: Command -> string, s: State, cmd: Command, source: string, permissions: int,
                      overwrite: bool)
    requires T.Renders(env, alt) && s.queue.commandList == [] && cmd in {RENAME, SYMLINK, COPY}
    requires (if cmd == COPY then source else env.path) != ""
    ensures var q := R.QueueGuarded(env, s, cmd, source, permissions, overwrite).queue;
            Orders(q.commandList) == Wanted(cmd, source, env.path, permissions, overwrite)
            <==> BothArrive(source, env.path)
  {
    var text := env.text(cmd, [source, env.path]);
    var front, end := Front(env, overwrite), End(env, cmd, permissions);
    GuardedTexts(env, s, cmd, source, permissions, overwrite);
    ThreeOrders(front, text, end);
    FrontOrders(env, alt, overwrite);
    EndOrders(env, alt, cmd, permissions);
    TwoOrdered(alt, cmd, source, env.path);
    if !BothArrive(source, env.path) {
      MiddleDiffers(Orders(front), Ordered(text), Orders(end), if overwrite then [] else [List(env.path)],
                    Two(cmd, source, env.path),
                    if cmd == COPY && permissions > -1 then [Chmod(permissions, env.path)] else []);
    }
  }

  /** With no path to work on they only ask for the working directory. */
  lemma NothingGuarded(env: Env, s: State, cmd: Command, source: string, permissions: int, overwrite: bool)
    requires cmd in {RENAME, SYMLINK, COPY} && (if cmd == COPY then source else env.path) == ""
    ensures var t := R.QueueGuarded(env, s, cmd, source, permissions, overwrite);
            t.queue.commandList == s.queue.commandList + [env.text(PWD, [])] && t.put == s.put
  {
  }

  /** `put` asks for its file and creates it, exactly if the name arrives. */
  lemma PutOrders(env: Env, alt: Command -> string, s: State, permissions: int, overwrite: bool)
    requires T.Renders(env, alt) && s.queue.commandList == [] && env.path != ""
    ensures var q := R.QueuePut(env, s, permissions, overwrite).queue;
            Orders(q.commandList) == [List(env.path), Data(STOR, [0], env.path)] <==> Arrives(env.path)
  {
    ListOrdered(alt, env.path);
    assert Dec(0) == "0";
    CountOrdered(alt, STOR, 0, env.path);
  }

  /** What follows a STOR or a block: the next block at its place, or at the end the permissions, of the same
      file. */
  function Following(cmd: Command, p: Put, path: string): seq<Order> {
    if p.rawData != "" then
      [if cmd == APPEND then Data(APPEND, [|p.rawData|], path) else Data(WRITE, [p.putPos, |p.rawData|], path)]
    else if !p.checkExist && p.putPerm > -1 then [Chmod(p.putPerm, path)]
    else []
  }

  lemma NextOrders(env: Env, alt: Command -> string, cmd: Command, q: Queue, p: Put)
    requires T.Renders(env, alt) && q.commandList == [] && Arrives(env.path)
    ensures Orders(NextQueue(env, cmd, q, p).commandList) == Following(cmd, p, env.path)
  {
    if p.rawData != "" {
      BlockOrders(env, alt, cmd, q, p);
    } else if p.putPerm > -1 {
      ChmodOrdered(alt, p.putPerm, env.path);
    }
  }

  lemma BlockOrders(env: Env, alt: Command -> string, cmd: Command, q: Queue, p: Put)
    requires T.Renders(env, alt) && q.commandList == [] && Arrives(env.path) && p.rawData != ""
    ensures Orders(NextQueue(env, cmd, q, p).commandList) == Following(cmd, p, env.path)
  {
    if cmd == APPEND {
      CountOrdered(alt, APPEND, |p.rawData|, env.path);
    } else {
      WriteOrdered(alt, p.putPos, |p.rawData|, env.path);
    }
  }
}
