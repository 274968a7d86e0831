/** Splitting a request line into its arguments (man/man2html.cpp:2831-2922). */
module ManArgs {
  import opened Text

  /** The state of the scan: arguments found, the one being read, and the two flags. */
  datatype State = State(args: seq<string>, arg: string, inString: bool, inArgument: bool)

  datatype Parsed = Parsed(args: seq<string>, rest: string)

  function EndArgument(s: State): State {
    if s.inArgument then State(s.args + [s.arg], "", s.inString, false) else s
  }

  function Add(s: State, text: string): State {
    s.(arg := s.arg + text, inArgument := true)
  }

  /** One step: the state after it and how many characters it takes. */
  function Step(esc: char, c: string, s: State): (r: (State, nat))
    requires c != "" && c[0] != '\n' && !Comment(esc, c)
    ensures 1 <= r.1 <= |c|
  {
    var next := if |c| > 1 then c[1] else '\0';
    if c[0] == '"' then
      if !s.inString then (s.(inString := true), 1)
      else if next == '"' && |c| > 1 then (s.(arg := s.arg + "\""), 2)
      else (State(s.args + [s.arg], "", false, false), 1)
    else if c[0] == ' ' then
      if s.inString then (Add(s, " "), 1) else (EndArgument(s), 1)
    else if c[0] == esc && next == ' ' && |c| > 1 then (Add(s, c[..2]), 2)
    else if c[0] == esc && next == '\n' && |c| > 1 then (s, 2)
    else (Add(s, [c[0]]), 1)
  }

  /** A comment begins. */
  predicate Comment(esc: char, c: string) {
    |c| > 1 && c[0] != '"' && c[0] != ' ' && c[0] == esc && c[1] == '"'
  }

  function LineEnd(c: string): (n: nat)
    ensures n <= |c| && (n < |c| ==> c[n] == '\n') && forall k :: 0 <= k < n ==> c[k] != '\n'
  {
    if c == "" || c[0] == '\n' then 0 else 1 + LineEnd(c[1..])
  }

  function Finish(s: State, c: string): Parsed {
    Parsed(EndArgument(s).args, if c == "" then "" else c[1..])
  }

  function Parse(esc: char, c: string, s: State): Parsed
    decreases |c|
  {
    if c == "" || c[0] == '\n' then Finish(s, c)
    else if Comment(esc, c) then Finish(EndArgument(s), c[LineEnd(c)..])
    else
      var r := Step(esc, c, s);
      Parse(esc, c[r.1..], r.0)
  }

  const START := State([], "", false, false)

  /** The loop over the text up to its terminator. */
  method GetArguments(esc: char, text: string) returns (args: seq<string>, c: string)
    ensures Parsed(args, c) == Parse(esc, text, START)
  {
    c := text;
    var s := START;
    while c != "" && c[0] != '\n'
      invariant Parse(esc, c, s) == Parse(esc, text, START)
      decreases |c|
    {
      if c[0] == '"' {
        if !s.inString {
          s := s.(inString := true);
        } else if |c| > 1 && c[1] == '"' {
          s := s.(arg := s.arg + "\"");
          c := c[1..];
        } else {
          s := State(s.args + [s.arg], "", false, false);
        }
      } else if c[0] == ' ' {
        if s.inString {
          s := Add(s, " ");
        } else if s.inArgument {
          s := State(s.args + [s.arg], "", false, false);
        }
      } else if |c| > 1 && c[0] == esc && c[1] == ' ' {
        s := Add(s, c[..2]);
        c := c[1..];
      } else if |c| > 1 && c[0] == esc && c[1] == '\n' {
        c := c[1..];
      } else if |c| > 1 && c[0] == esc && c[1] == '"' {
        s := EndArgument(s);
        ghost var comment := c;
        var n := 0;
        while n < |c| && c[n] != '\n'
          invariant n <= LineEnd(c)
        {
          n := n + 1;
        }
        c := c[n..];
        break;
      } else {
        s := Add(s, [c[0]]);
      }
      c := c[1..];
    }
    args := s.args;
    if s.inArgument {
      args := args + [s.arg];
    }
    if c != "" {
      c := c[1..];
    }
  }

  // ----- written arguments -----

  function Doubled(a: string): string {
    if a == "" then "" else (if a[0] == '"' then "\"\"" else [a[0]]) + Doubled(a[1..])
  }

  /** In quotes, quotes inside doubled. */
  function Quoted(a: string): string {
    "\"" + (Doubled(a) + "\"")
  }

  /** What a word is made of: characters, escape sequences, hard spaces and folds of the line. */
  datatype Piece = Char(c: char) | Escape(e: char) | HardSpace | Fold

  /** An argument: in quotes, or a word. */
  datatype Argument = InQuotes(text: string) | Word(pieces: seq<Piece>)

  function PieceText(esc: char, p: Piece): string {
    match p
    case Char(c) => [c]
    case Escape(e) => [esc, e]
    case HardSpace => [esc, ' ']
    case Fold => [esc, '\n']
  }

  /** An escape sequence and a hard space stay as they are written; a fold leaves nothing. */
  function PieceMeans(esc: char, p: Piece): string {
    if p.Fold? then "" else PieceText(esc, p)
  }

  function WordText(esc: char, ps: seq<Piece>): string {
    if ps == [] then "" else PieceText(esc, ps[0]) + WordText(esc, ps[1..])
  }

  function WordMeans(esc: char, ps: seq<Piece>): string {
    if ps == [] then "" else PieceMeans(esc, ps[0]) + WordMeans(esc, ps[1..])
  }

  function Spelled(esc: char, a: Argument): string {
    match a
    case InQuotes(text) => Quoted(text)
    case Word(ps) => WordText(esc, ps)
  }

  function Means(esc: char, a: Argument): string {
    match a
    case InQuotes(text) => text
    case Word(ps) => WordMeans(esc, ps)
  }

  /** The escape character is none that means something else. */
  predicate Proper(esc: char) {
    esc != '"' && esc != ' ' && esc != '\n'
  }

  predicate Ordinary(esc: char, c: char) {
    c != '"' && c != ' ' && c != '\n' && c != '\0' && c != esc
  }

  predicate ValidPiece(esc: char, p: Piece) {
    match p
    case Char(c) => Ordinary(esc, c)
    case Escape(e) => Proper(esc) && Ordinary(esc, e)
    case _ => Proper(esc)
  }

  /** A word shows something. */
  predicate ValidArgument(esc: char, a: Argument) {
    match a
    case InQuotes(text) => Simple(esc, text)
    case Word(ps) => (forall p :: p in ps ==> ValidPiece(esc, p)) && Shows(ps)
  }

  predicate Shows(ps: seq<Piece>) {
    ps != [] && (!ps[0].Fold? || Shows(ps[1..]))
  }

  function Spaces(n: nat): string {
    if n == 0 then "" else " " + Spaces(n - 1)
  }

  /** The end of a line, spaces and perhaps a comment, and what follows the line. */
  function Ending(esc: char, gap: nat, comment: Option<string>, tail: string): string {
    Spaces(gap) + CommentLine(esc, comment, tail)
  }

  function CommentLine(esc: char, comment: Option<string>, tail: string): string {
    (if comment.Some? then [esc, '"'] + comment.value else "") + ("\n" + tail)
  }

  /** A line: in front of each argument `gaps[i]` spaces, behind it one more; then its end. */
  function LineOf(esc: char, args: seq<Argument>, gaps: seq<nat>, end: string): string
    requires |gaps| == |args|
  {
    if args == [] then end
    else Spaces(gaps[0]) + (Spelled(esc, args[0]) +
                            (if |args| == 1 then end else " " + LineOf(esc, args[1..], gaps[1..], end)))
  }

  function Meanings(esc: char, args: seq<Argument>): seq<string> {
    if args == [] then [] else [Means(esc, args[0])] + Meanings(esc, args[1..])
  }

  /** No newline and no escape character inside, nor a NUL, at which a C string ends. */
  predicate Simple(esc: char, a: string) {
    Free('\n', a) && Free('\0', a) && Free(esc, a)
  }

  lemma {:induction false} InsideQuotes(esc: char, a: string, more: string, s: State)
    requires Simple(esc, a) && more != "" && more[0] != '"' && s.inString
    ensures Parse(esc, Doubled(a) + "\"" + more, s) == Parse(esc, more, State(s.args + [s.arg + a], "", false, false))
    decreases |a|
  {
    var c := Doubled(a) + "\"" + more;
    if a == "" {
      assert c == "\"" + more && c[1..] == more && s.arg + "" == s.arg;
    } else {
      var rest := Doubled(a[1..]) + "\"" + more;
      var first := if a[0] == '"' then "\"\"" else [a[0]];
      assert c == first + rest;
      assert c[|first|..] == rest;
      var r := Step(esc, c, s);
      assert r.1 == |first| && r.0.arg == s.arg + [a[0]];
      assert s.arg + [a[0]] + a[1..] == s.arg + a;
      InsideQuotes(esc, a[1..], more, r.0);
    }
  }

  lemma QuotedRead(esc: char, a: string, more: string, args: seq<string>)
    requires Simple(esc, a) && more != "" && more[0] != '"'
    ensures Parse(esc, Quoted(a) + more, State(args, "", false, false))
          == Parse(esc, more, State(args + [a], "", false, false))
  {
    var c := Quoted(a) + more;
    assert c[0] == '"' && c[1..] == Doubled(a) + "\"" + more;
    InsideQuotes(esc, a, more, State(args, "", true, false));
    assert "" + a == a;
  }

  lemma SpaceRead(esc: char, more: string, s: State)
    requires !s.inString
    ensures Parse(esc, " " + more, s) == Parse(esc, more, EndArgument(s))
  {
    var c := " " + more;
    assert c[0] == ' ' && c[1..] == more;
  }

  lemma {:induction false} SpacesRead(esc: char, n: nat, more: string, found: seq<string>)
    ensures Parse(esc, Spaces(n) + more, State(found, "", false, false))
          == Parse(esc, more, State(found, "", false, false))
  {
    if n == 0 {
      assert "" + more == more;
    } else {
      assert Spaces(n) + more == " " + (Spaces(n - 1) + more);
      SpaceRead(esc, Spaces(n - 1) + more, State(found, "", false, false));
      SpacesRead(esc, n - 1, more, found);
    }
  }

  /** An ordinary character is added to the argument, and so is an escape character that announces
      neither a space, a fold nor a comment. */
  lemma CharRead(esc: char, c: char, more: string, s: State)
    requires !s.inString && c != '"' && c != ' ' && c != '\n'
    requires c == esc ==> more != "" && more[0] != ' ' && more[0] != '\n' && more[0] != '"'
    ensures Parse(esc, [c] + more, s) == Parse(esc, more, Add(s, [c]))
  {
    var t := [c] + more;
    assert t[1..] == more;
    assert more != "" ==> t[1] == more[0];
  }

  lemma PairRead(esc: char, e: char, more: string, s: State)
    requires !s.inString && Proper(esc) && (e == ' ' || e == '\n')
    ensures Parse(esc, [esc, e] + more, s) == Parse(esc, more, if e == ' ' then Add(s, [esc, e]) else s)
  {
    var t := [esc, e] + more;
    assert t[2..] == more && t[..2] == [esc, e];
  }

  lemma PieceRead(esc: char, p: Piece, more: string, s: State)
    requires !s.inString && ValidPiece(esc, p)
    ensures Parse(esc, PieceText(esc, p) + more, s)
          == Parse(esc, more, State(s.args, s.arg + PieceMeans(esc, p), false, s.inArgument || !p.Fold?))
  {
    assert s.arg + "" == s.arg;
    match p
    case Char(c) => CharRead(esc, c, more, s);
    case Escape(e) =>
      assert [esc, e] + more == [esc] + ([e] + more);
      CharRead(esc, esc, [e] + more, s);
      CharRead(esc, e, more, Add(s, [esc]));
      assert s.arg + [esc] + [e] == s.arg + [esc, e];
    case HardSpace => PairRead(esc, ' ', more, s);
    case Fold => PairRead(esc, '\n', more, s);
  }

  lemma {:induction false} WordRead(esc: char, ps: seq<Piece>, more: string, s: State)
    requires !s.inString && forall p :: p in ps ==> ValidPiece(esc, p)
    ensures Parse(esc, WordText(esc, ps) + more, s)
          == Parse(esc, more, State(s.args, s.arg + WordMeans(esc, ps), false, s.inArgument || Shows(ps)))
    decreases |ps|
  {
    if ps == [] {
      assert "" + more == more && s.arg + "" == s.arg;
    } else {
      var first, rest := PieceMeans(esc, ps[0]), WordMeans(esc, ps[1..]);
      var next := State(s.args, s.arg + first, false, s.inArgument || !ps[0].Fold?);
      Regroup(PieceText(esc, ps[0]), WordText(esc, ps[1..]), more);
      PieceRead(esc, ps[0], WordText(esc, ps[1..]) + more, s);
      WordRead(esc, ps[1..], more, next);
      Regroup(s.arg, first, rest);
    }
  }

  /** What may follow an argument. */
  predicate Follows(esc: char, more: string) {
    more != "" && (more[0] == ' ' || more[0] == '\n' || Comment(esc, more))
  }

  /** Behind a word and behind an argument in quotes the line goes on the same way. */
  lemma EndRead(esc: char, more: string, s: State)
    requires Follows(esc, more) && !s.inString
    ensures Parse(esc, more, s) == Parse(esc, more, EndArgument(s))
  {
    assert EndArgument(EndArgument(s)) == EndArgument(s);
  }

  lemma ArgumentRead(esc: char, a: Argument, more: string, found: seq<string>)
    requires ValidArgument(esc, a) && Follows(esc, more)
    ensures Parse(esc, Spelled(esc, a) + more, State(found, "", false, false))
          == Parse(esc, more, State(found + [Means(esc, a)], "", false, false))
  {
    match a
    case InQuotes(text) => QuotedRead(esc, text, more, found);
    case Word(ps) =>
      WordRead(esc, ps, more, State(found, "", false, false));
      assert "" + WordMeans(esc, ps) == WordMeans(esc, ps);
      EndRead(esc, more, State(found, WordMeans(esc, ps), false, true));
  }

  lemma {:induction false} LineEndIs(text: string, tail: string)
    requires Free('\n', text)
    ensures LineEnd(text + ("\n" + tail)) == |text|
  {
    var c := text + ("\n" + tail);
    if text != "" {
      assert c[0] == text[0] && c[1..] == text[1..] + ("\n" + tail);
      LineEndIs(text[1..], tail);
    }
  }

  lemma CommentRead(esc: char, comment: Option<string>, tail: string, found: seq<string>)
    requires comment.Some? ==> Proper(esc) && Free('\n', comment.value)
    ensures Follows(esc, CommentLine(esc, comment, tail))
    ensures Parse(esc, CommentLine(esc, comment, tail), State(found, "", false, false)) == Parsed(found, tail)
  {
    var c := CommentLine(esc, comment, tail);
    if comment.Some? {
      var text := [esc, '"'] + comment.value;
      LineEndIs(text, tail);
      assert c[LineEnd(c)..][1..] == tail;
    } else {
      assert c == "\n" + tail && c[1..] == tail;
    }
  }

  lemma EndingRead(esc: char, gap: nat, comment: Option<string>, tail: string, found: seq<string>)
    requires comment.Some? ==> Proper(esc) && Free('\n', comment.value)
    ensures Follows(esc, Ending(esc, gap, comment, tail))
    ensures Parse(esc, Ending(esc, gap, comment, tail), State(found, "", false, false)) == Parsed(found, tail)
  {
    var c := CommentLine(esc, comment, tail);
    CommentRead(esc, comment, tail, found);
    SpacesRead(esc, gap, c, found);
    assert gap == 0 ==> Ending(esc, gap, comment, tail) == c;
  }

  /** The scan of `end` finds nothing more and stops in front of `tail`. */
  ghost predicate EndsLine(esc: char, end: string, tail: string) {
    Follows(esc, end) && forall fs :: Parse(esc, end, State(fs, "", false, false)) == Parsed(fs, tail)
  }

  /** One argument with the spaces in front of it. */
  lemma NextArgument(esc: char, a: Argument, gap: nat, more: string, found: seq<string>)
    requires ValidArgument(esc, a) && Follows(esc, more)
    ensures Parse(esc, Spaces(gap) + (Spelled(esc, a) + more), State(found, "", false, false))
          == Parse(esc, more, State(found + [Means(esc, a)], "", false, false))
  {
    SpacesRead(esc, gap, Spelled(esc, a) + more, found);
    ArgumentRead(esc, a, more, found);
  }

  lemma {:induction false} LineRead(esc: char, args: seq<Argument>, gaps: seq<nat>, end: string, tail: string,
                                    found: seq<string>)
    requires |gaps| == |args| && EndsLine(esc, end, tail) && forall a :: a in args ==> ValidArgument(esc, a)
    ensures Parse(esc, LineOf(esc, args, gaps, end), State(found, "", false, false))
          == Parsed(found + Meanings(esc, args), tail)
    decreases |args|
  {
    if args == [] {
      assert found + [] == found;
    } else {
      var now := found + [Means(esc, args[0])];
      Regroup(found, [Means(esc, args[0])], Meanings(esc, args[1..]));
      if |args| == 1 {
        NextArgument(esc, args[0], gaps[0], end, found);
        assert Meanings(esc, args[1..]) == [] && now + [] == now;
      } else {
        var behind := LineOf(esc, args[1..], gaps[1..], end);
        NextArgument(esc, args[0], gaps[0], " " + behind, found);
        SpaceRead(esc, behind, State(now, "", false, false));
        LineRead(esc, args[1..], gaps[1..], end, tail, now);
      }
    }
  }

  /** Arguments in quotes and words, with any number of spaces around them and a comment behind them,
      come back in order, and the scan stops behind their line. */
  lemma ArgumentsRoundTrip(esc: char, args: seq<Argument>, gaps: seq<nat>, gap: nat, comment: Option<string>,
                           tail: string)
    requires |gaps| == |args| && forall a :: a in args ==> ValidArgument(esc, a)
    requires comment.Some? ==> Proper(esc) && Free('\n', comment.value)
    ensures Parse(esc, LineOf(esc, args, gaps, Ending(esc, gap, comment, tail)), START)
          == Parsed(Meanings(esc, args), tail)
  {
    var end := Ending(esc, gap, comment, tail);
    EndingRead(esc, gap, comment, tail, []);
    forall fs
      ensures Parse(esc, end, State(fs, "", false, false)) == Parsed(fs, tail)
    {
      EndingRead(esc, gap, comment, tail, fs);
    }
    LineRead(esc, args, gaps, end, tail, []);
    assert [] + Meanings(esc, args) == Meanings(esc, args);
  }
}
