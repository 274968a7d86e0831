/** How `fishProtocol::sendCommand` turns arguments into a command (fish/fish.cpp:830-858):
    an in-place escaping loop, and the three textual replacements of %1, %2, %3. */
module FishQuoting {
  import opened Text

  // ----- escaping -----

  /** The character class of the regular expression in fish/fish.cpp:840, as ASCII ranges:
      tab, newline, space to `*`, `;`, `<`, `>` to `@`, `[` to `^`, the back quote, `{` to `~`. */
  predicate Special(c: char) {
    || '\t' <= c <= '\n' || ' ' <= c <= '*' || ';' <= c <= '<'
    || '>' <= c <= '@' || '[' <= c <= '^' || c == '`' || '{' <= c <= '~'
  }

  predicate Plain(s: string) {
    forall k :: 0 <= k < |s| ==> !Special(s[k])
  }

  /** The meaning of the loop: every special character gets one backslash in front. */
  function Escape(s: string): string {
    if s == "" then "" else EscapeChar(s[0]) + Escape(s[1..])
  }

  function EscapeChar(c: char): string {
    if Special(c) then ['\\', c] else [c]
  }

  lemma {:induction false} EscapeAppend(a: string, b: string)
    ensures Escape(a + b) == Escape(a) + Escape(b)
  {
    if a == "" {
      assert a + b == b;
    } else {
      assert (a + b)[1..] == a[1..] + b && (a + b)[0] == a[0];
      EscapeAppend(a[1..], b);
      Regrouped(EscapeChar(a[0]), Escape(a[1..]), Escape(b));
    }
  }

  lemma Regrouped(a: string, b: string, c: string)
    ensures a + (b + c) == (a + b) + c
  {
  }

  function IndexOfSpecial(s: string, from: nat): (r: int)
    ensures -1 <= r < |s|
    ensures r >= 0 ==> from <= r && Special(s[r]) && forall k :: from <= k < r ==> !Special(s[k])
    ensures r == -1 ==> forall k :: from <= k < |s| ==> !Special(s[k])
    decreases |s| - from
  {
    if from >= |s| then -1 else if Special(s[from]) then from else IndexOfSpecial(s, from + 1)
  }

  lemma {:induction false} EscapePlain(s: string)
    requires Plain(s)
    ensures Escape(s) == s
  {
    if s != "" {
      EscapePlain(s[1..]);
    }
  }

  /** One turn of the loop: the plain text up to the next special character and that
      character, now escaped, join the finished part. */
  lemma EscapeStep(done: string, rest: string, k: nat)
    requires k < |rest| && Plain(rest[..k]) && Special(rest[k])
    ensures Escape(done + rest[..k + 1]) == Escape(done) + rest[..k] + ['\\', rest[k]]
  {
    EscapePlain(rest[..k]);
    assert Escape([rest[k]]) == ['\\', rest[k]];
    EscapeAppend(rest[..k], [rest[k]]);
    assert rest[..k + 1] == rest[..k] + [rest[k]];
    EscapeAppend(done, rest[..k + 1]);
  }

  lemma FoundInRest(s: string, e: string, rest: string, pos: int)
    requires s == e + rest && pos == IndexOfSpecial(s, |e|)
    ensures pos >= 0 ==> |e| <= pos < |e| + |rest| && Plain(rest[..pos - |e|]) && Special(rest[pos - |e|])
    ensures pos < 0 ==> Plain(rest)
  {
    assert rest == s[|e|..];
    if pos >= 0 {
      var head := rest[..pos - |e|];
      forall j | 0 <= j < |head| ensures !Special(head[j]) {
        assert head[j] == s[|e| + j];
      }
    } else {
      forall j | 0 <= j < |rest| ensures !Special(rest[j]) {
        assert rest[j] == s[|e| + j];
      }
    }
  }

  /** The loop of fish/fish.cpp:842-845: find the next special character, insert a
      backslash before it in place, and go on behind the pair. */
  method EscapeInPlace(text: string) returns (arg: string)
    ensures arg == Escape(text)
  {
    arg := text;
    ghost var done, rest := "", text;  // `done` is escaped already, `rest` is untouched
    var pos := IndexOfSpecial(arg, 0);
    assert arg == Escape(done) + rest;
    while pos >= 0
      invariant text == done + rest && arg == Escape(done) + rest
      invariant pos == IndexOfSpecial(arg, |Escape(done)|)
      decreases |rest|
    {
      FoundInRest(arg, Escape(done), rest, pos);
      EscapeTurn(done, rest, arg, pos);
      arg := arg[..pos] + "\\" + arg[pos..];
      ghost var k := pos - |Escape(done)|;
      done, rest := done + rest[..k + 1], rest[k + 1..];
      pos := IndexOfSpecial(arg, pos + 2);
    }
    FoundInRest(arg, Escape(done), rest, pos);
    EscapePlain(rest);
    EscapeAppend(done, rest);
  }

  lemma EscapeTurn(done: string, rest: string, arg: string, pos: nat)
    requires arg == Escape(done) + rest && |Escape(done)| <= pos < |arg|
    requires var k := pos - |Escape(done)|; Plain(rest[..k]) && Special(rest[k])
    ensures var k := pos - |Escape(done)|;
            && arg[..pos] + "\\" + arg[pos..] == Escape(done + rest[..k + 1]) + rest[k + 1..]
            && |Escape(done + rest[..k + 1])| == pos + 2
            && done + rest == done + rest[..k + 1] + rest[k + 1..]
  {
    var k := pos - |Escape(done)|;
    EscapeStep(done, rest, k);
    InsertAt(Escape(done), rest, k, '\\');
  }

  lemma InsertAt(e: string, rest: string, k: nat, c: char)
    requires k < |rest|
    ensures var s := e + rest; var pos := |e| + k;
            s[..pos] + [c] + s[pos..] == e + rest[..k] + [c, rest[k]] + rest[k + 1..]
  {
  }

  // ----- what a reader makes of an escaped argument -----

  /** Characters that end or change a word of the shell language when they are not quoted
      (section 2.2 of the POSIX Shell Command Language), blanks aside. */
  predicate ShellMeta(c: char) {
    || c == '\n' || c == '|' || c == '&' || c == ';' || c == '<' || c == '>' || c == '(' || c == ')'
    || c == '$' || c == '`' || c == '"' || c == '\'' || c == '*' || c == '?' || c == '[' || c == '#' || c == '~'
  }

  /** Words of an unquoted text, backslashes read by section 2.2.1: backslash-newline
      vanishes, any other backslashed character is literal. `word` is the word being read,
      `None` an empty one. The result is `None` where the text is not a plain word list. */
  function ShellWords(s: string, word: Option<string>): Option<seq<string>> {
    if s == "" then Some(if word.Some? then [word.value] else [])
    else if s[0] == '\\' then
      if |s| == 1 then None
      else if s[1] == '\n' then ShellWords(s[2..], word)
      else ShellWords(s[2..], Some((if word.Some? then word.value else "") + [s[1]]))
    else if s[0] == ' ' || s[0] == '\t' then
      match ShellWords(s[1..], None)
      case None => None
      case Some(ws) => Some((if word.Some? then [word.value] else []) + ws)
    else if ShellMeta(s[0]) then None
    else ShellWords(s[1..], Some((if word.Some? then word.value else "") + [s[0]]))
  }

  /** The reading of the FISH server itself, `s/\\(.)/$1/g` (fish/fish.pl:310). */
  function PerlUnquote(s: string): string {
    if s == "" then ""
    else if s[0] == '\\' && |s| > 1 && s[1] != '\n' then [s[1]] + PerlUnquote(s[2..])
    else [s[0]] + PerlUnquote(s[1..])
  }

  function DropNewlines(s: string): string {
    if s == "" then "" else (if s[0] == '\n' then "" else [s[0]]) + DropNewlines(s[1..])
  }

  lemma {:induction false} DropNewlinesKeeps(s: string)
    ensures DropNewlines(s) == s <==> Free('\n', s)
    ensures |DropNewlines(s)| <= |s|
  {
    if s != "" {
      DropNewlinesKeeps(s[1..]);
      if s[0] != '\n' {
        assert s == [s[0]] + s[1..];
        assert Free('\n', s) <==> Free('\n', s[1..]) by {
          if Free('\n', s[1..]) {
            forall i | 0 <= i < |s| ensures s[i] != '\n' { if i > 0 { assert s[i] == s[1..][i - 1]; } }
          }
        }
        if DropNewlines(s) == s {
          assert DropNewlines(s)[1..] == DropNewlines(s[1..]);
        }
      }
    }
  }

  function Joined(word: Option<string>, more: string): string {
    (if word.Some? then word.value else "") + more
  }

  /** One character of an escaped text. */
  lemma ShellStep(c: char, e: string, word: Option<string>)
    ensures ShellWords(EscapeChar(c) + e, word) == ShellWords(e, if c == '\n' then word else Some(Joined(word, [c])))
  {
    if Special(c) {
      var t := ['\\', c] + e;
      assert t[0] == '\\' && t[1] == c && t[2..] == e;
    } else {
      var t := [c] + e;
      assert t[0] == c && t[1..] == e;
    }
  }

  lemma JoinedMore(word: Option<string>, c: char, more: string)
    ensures Joined(Some(Joined(word, [c])), more) == Joined(word, [c] + more)
  {
  }

  lemma DropFirst(s: string)
    requires s != ""
    ensures DropNewlines(s) == if s[0] == '\n' then DropNewlines(s[1..]) else [s[0]] + DropNewlines(s[1..])
  {
    assert "" + DropNewlines(s[1..]) == DropNewlines(s[1..]);
  }

  /** The words read from an escaped text whose reading is `read`. */
  function WordsOf(word: Option<string>, read: string): seq<string> {
    if word.None? && read == "" then [] else [Joined(word, read)]
  }

  lemma {:induction false} ShellReads(s: string, word: Option<string>)
    ensures ShellWords(Escape(s), word) == Some(WordsOf(word, DropNewlines(s)))
  {
    if s == "" {
      assert word.Some? ==> Joined(word, "") == word.value;
    } else {
      ShellStep(s[0], Escape(s[1..]), word);
      DropFirst(s);
      if s[0] == '\n' {
        ShellReads(s[1..], word);
      } else {
        ShellReads(s[1..], Some(Joined(word, [s[0]])));
        JoinedMore(word, s[0], DropNewlines(s[1..]));
      }
    }
  }

  /** An escaped argument is exactly one shell word, the argument itself, just when the
      argument is not empty and holds no newline. */
  lemma ShellInverse(s: string)
    ensures ShellWords(Escape(s), None) == Some([s]) <==> s != "" && Free('\n', s)
  {
    ShellReads(s, None);
    DropNewlinesKeeps(s);
    assert "" + DropNewlines(s) == DropNewlines(s);
    if ShellWords(Escape(s), None) == Some([s]) {
      assert [DropNewlines(s)] == [s];
    }
  }

  lemma PerlReadsChar(c: char, e: string)
    ensures PerlUnquote(EscapeChar(c) + e) == (if c == '\n' then ['\\', '\n'] else [c]) + PerlUnquote(e)
  {
    var s := EscapeChar(c) + e;
    if Special(c) {
      assert s[1..] == [c] + e;
      assert s[2..] == e;
      assert ([c] + e)[1..] == e;
    } else {
      assert s[1..] == e;
    }
  }

  lemma {:induction false} PerlReads(s: string)
    ensures |PerlUnquote(Escape(s))| == |s| + Count(s, '\n')
    ensures Count(s, '\n') == 0 ==> PerlUnquote(Escape(s)) == s
  {
    if s != "" {
      PerlReads(s[1..]);
      PerlReadsChar(s[0], Escape(s[1..]));
    }
  }

  /** The server's own unquoting gives the argument back just when it holds no newline. */
  lemma PerlInverse(s: string)
    ensures PerlUnquote(Escape(s)) == s <==> Count(s, '\n') == 0
  {
    PerlReads(s);
  }

  // ----- the replacements -----

  /** `realAlt.replace("%k", arg)` for the digit `k` (fish/fish.cpp:848): left to right,
      no second look at what was put in. */
  function ReplaceArg(s: string, k: char, arg: string): string {
    if |s| < 2 then s
    else if s[0] == '%' && s[1] == k then arg + ReplaceArg(s[2..], k, arg)
    else [s[0]] + ReplaceArg(s[1..], k, arg)
  }

  /** Placeholder %k occurs in `s`. */
  predicate Mentions(s: string, k: char) {
    |s| >= 2 && ((s[0] == '%' && s[1] == k) || Mentions(s[1..], k))
  }

  /** The loop over `info.params`: %1, then %2, then %3. */
  function ReplaceFrom(s: string, args: seq<string>, i: nat): string
    requires |args| <= 3 && i <= |args|
    decreases |args| - i
  {
    if i == |args| then s else ReplaceFrom(ReplaceArg(s, Digit(i + 1), args[i]), args, i + 1)
  }

  /** A template cut into literal characters and placeholders. */
  datatype Piece = Lit(c: char) | Arg(k: nat)

  function Expand(ps: seq<Piece>, texts: seq<string>): string
    requires InRange(ps, |texts|)
  {
    if ps == [] then "" else PieceText(ps[0], texts) + Expand(ps[1..], texts)
  }

  function PieceText(p: Piece, texts: seq<string>): string
    requires p.Arg? ==> 1 <= p.k <= |texts|
  {
    match p case Lit(c) => [c] case Arg(k) => texts[k - 1]
  }

  predicate InRange(ps: seq<Piece>, n: nat) {
    forall i :: 0 <= i < |ps| && ps[i].Arg? ==> 1 <= ps[i].k <= n
  }

  /** How the templates of fish/fish.cpp:182-244 are spaced: no '%' right before and no
      digit right after a placeholder, no stray "%digit". */
  predicate WellSpaced(ps: seq<Piece>) {
    forall i :: 0 <= i < |ps| - 1 ==> Apart(ps[i], ps[i + 1])
  }

  predicate Apart(p: Piece, q: Piece) {
    match p
    case Arg(_) => q.Lit? && !IsDigit(q.c)
    case Lit(c) => c == '%' ==> q.Lit? && !IsDigit(q.c)
  }

  /** The texts the placeholders stand for after the replacement of %k. */
  function Replaced(texts: seq<string>, k: char, arg: string): (r: seq<string>)
    ensures |r| == |texts|
  {
    seq(|texts|, i requires 0 <= i < |texts| => ReplaceArg(texts[i], k, arg))
  }

  lemma {:induction false} ReplaceSplits(a: string, b: string, k: char, arg: string)
    requires a == "" || b == "" || a[|a| - 1] != '%' || b[0] != k
    ensures ReplaceArg(a + b, k, arg) == ReplaceArg(a, k, arg) + ReplaceArg(b, k, arg)
    decreases |a|
  {
    var s := a + b;
    if a == "" {
      assert s == b;
    } else if |a| == 1 {
      assert s[1..] == b;
      if b == "" { assert s == a; }
    } else if a[0] == '%' && a[1] == k {
      assert s[2..] == a[2..] + b;
      ReplaceSplits(a[2..], b, k, arg);
      assert arg + (ReplaceArg(a[2..], k, arg) + ReplaceArg(b, k, arg))
            == arg + ReplaceArg(a[2..], k, arg) + ReplaceArg(b, k, arg);
    } else {
      assert s[1..] == a[1..] + b;
      ReplaceSplits(a[1..], b, k, arg);
    }
  }

  /** One replacement acts on every placeholder text by itself. */
  lemma {:induction false} ReplaceExpands(ps: seq<Piece>, texts: seq<string>, k: char, arg: string)
    requires IsDigit(k) && WellSpaced(ps) && InRange(ps, |texts|)
    ensures ReplaceArg(Expand(ps, texts), k, arg) == Expand(ps, Replaced(texts, k, arg))
  {
    if ps != [] {
      var head, tail := PieceText(ps[0], texts), Expand(ps[1..], texts);
      forall i | 0 <= i < |ps[1..]| - 1 ensures Apart(ps[1..][i], ps[1..][i + 1]) {
        assert Apart(ps[i + 1], ps[i + 2]);
      }
      ReplaceExpands(ps[1..], texts, k, arg);
      if tail != "" && head != "" && head[|head| - 1] == '%' {
        assert Apart(ps[0], ps[1]);
        assert tail == PieceText(ps[1], texts) + Expand(ps[2..], texts) by { assert ps[1..][1..] == ps[2..]; }
      }
      ReplaceSplits(head, tail, k, arg);
    }
  }

  lemma {:induction false} NotMentioned(s: string, k: char, arg: string)
    requires !Mentions(s, k)
    ensures ReplaceArg(s, k, arg) == s
  {
    if |s| >= 2 {
      NotMentioned(s[1..], k, arg);
    }
  }

  /** The texts left when the replacements from %(i+1) on have run. */
  function Settled(texts: seq<string>, args: seq<string>, i: nat): (r: seq<string>)
    requires |args| <= 3 && i <= |args|
    ensures |r| == |texts|
    decreases |args| - i
  {
    if i == |args| then texts else Settled(Replaced(texts, Digit(i + 1), args[i]), args, i + 1)
  }

  lemma {:induction false} ReplaceFromExpands(ps: seq<Piece>, texts: seq<string>, args: seq<string>, i: nat)
    requires |args| <= 3 && i <= |args| && WellSpaced(ps) && InRange(ps, |texts|)
    ensures ReplaceFrom(Expand(ps, texts), args, i) == Expand(ps, Settled(texts, args, i))
    decreases |args| - i
  {
    if i < |args| {
      ReplaceExpands(ps, texts, Digit(i + 1), args[i]);
      ReplaceFromExpands(ps, Replaced(texts, Digit(i + 1), args[i]), args, i + 1);
    }
  }

  function Marks(n: nat): (r: seq<string>)
    requires n <= 3
    ensures |r| == n
  {
    seq(n, i requires 0 <= i < n => ['%', Digit(i + 1)])
  }

  lemma ReplaceMark(j: nat, k: nat, arg: string)
    requires j < 10 && k < 10
    ensures ReplaceArg(['%', Digit(j)], Digit(k), arg) == if j == k then arg else ['%', Digit(j)]
  {
    var mark := ['%', Digit(j)];
    assert mark[2..] == "" && mark[1..] == [Digit(j)];
    assert DigitValue(Digit(j)) == j && DigitValue(Digit(k)) == k;
    assert ReplaceArg("", Digit(k), arg) == "";
    assert ReplaceArg([Digit(j)], Digit(k), arg) == [Digit(j)];
    assert arg + "" == arg;
  }

  /** Argument text `s` mentions the placeholder of parameter number `b`, from 0. */
  predicate MentionsParam(s: string, b: nat)
    requires b < 3
  {
    Mentions(s, Digit(b + 1))
  }

  predicate NoLaterMark(args: seq<string>)
    requires |args| <= 3
  {
    forall a, b :: 0 <= a < b < |args| ==> !MentionsParam(args[a], b)
  }

  /** With `i` replacements done, the first `i` texts are the arguments and the others
      still their marks. */
  lemma {:induction false} SettledArgs(args: seq<string>, i: nat)
    requires |args| <= 3 && i <= |args|
    requires NoLaterMark(args)
    ensures Settled(args[..i] + Marks(|args|)[i..], args, i) == args
    decreases |args| - i
  {
    var n := |args|;
    var texts := args[..i] + Marks(n)[i..];
    if i < n {
      var next := Replaced(texts, Digit(i + 1), args[i]);
      forall j | 0 <= j < n ensures next[j] == (args[..i + 1] + Marks(n)[i + 1..])[j] {
        assert next[j] == ReplaceArg(texts[j], Digit(i + 1), args[i]);
        if j < i {
          assert texts[j] == args[j] && !MentionsParam(args[j], i);
          NotMentioned(args[j], Digit(i + 1), args[i]);
        } else {
          assert texts[j] == Marks(n)[j];
          ReplaceMark(j + 1, i + 1, args[i]);
        }
      }
      assert next == args[..i + 1] + Marks(n)[i + 1..];
      SettledArgs(args, i + 1);
    } else {
      assert texts == args;
    }
  }

  /** When no argument mentions a later placeholder, the three replacements one after the
      other equal the simultaneous substitution. */
  lemma SequentialIsSimultaneous(ps: seq<Piece>, args: seq<string>)
    requires |args| <= 3 && WellSpaced(ps) && InRange(ps, |args|)
    requires NoLaterMark(args)
    ensures ReplaceFrom(Expand(ps, Marks(|args|)), args, 0) == Expand(ps, args)
  {
    ReplaceFromExpands(ps, Marks(|args|), args, 0);
    SettledArgs(args, 0);
    assert args[..0] + Marks(|args|)[0..] == Marks(|args|);
  }

  lemma {:induction false} ReplaceLength(s: string, k: char, arg: string)
    ensures |arg| >= 2 ==> |ReplaceArg(s, k, arg)| >= |s|
    ensures |arg| <= 2 ==> |ReplaceArg(s, k, arg)| <= |s|
  {
    if |s| >= 2 {
      ReplaceLength(s[1..], k, arg);
      ReplaceLength(s[2..], k, arg);
    }
  }

  lemma {:induction false} MentionedChanges(s: string, k: char, arg: string)
    requires Mentions(s, k) && arg != ['%', k]
    ensures ReplaceArg(s, k, arg) != s
  {
    var r := ReplaceArg(s, k, arg);
    if s[0] == '%' && s[1] == k {
      ReplaceLength(s[2..], k, arg);
      if |arg| == 2 {
        assert r[..2] == arg && s[..2] == ['%', k];
      }
    } else {
      MentionedChanges(s[1..], k, arg);
      assert r[1..] == ReplaceArg(s[1..], k, arg);
    }
  }

  lemma {:induction false} ExpandGrows(ps: seq<Piece>, t: string, u: string, a: string)
    requires InRange(ps, 2) && |t| <= |u|
    ensures |Expand(ps, [t, a])| <= |Expand(ps, [u, a])|
    ensures |t| < |u| && Arg(1) in ps ==> |Expand(ps, [t, a])| < |Expand(ps, [u, a])|
  {
    if ps != [] {
      ExpandGrows(ps[1..], t, u, a);
      assert ps == [ps[0]] + ps[1..];
    }
  }

  lemma {:induction false} ExpandTells(ps: seq<Piece>, t: string, u: string, a: string)
    requires InRange(ps, 2) && Arg(1) in ps && t != u
    ensures Expand(ps, [t, a]) != Expand(ps, [u, a])
  {
    var x, y := Expand(ps, [t, a]), Expand(ps, [u, a]);
    if |t| != |u| {
      if |t| < |u| { ExpandGrows(ps, t, u, a); } else { ExpandGrows(ps, u, t, a); }
    } else if ps[0] == Arg(1) {
      assert x[..|t|] == t && y[..|t|] == u;
    } else {
      assert Arg(1) in ps[1..];
      ExpandTells(ps[1..], t, u, a);
      var n := |PieceText(ps[0], [t, a])|;
      assert x[n..] == Expand(ps[1..], [t, a]) && y[n..] == Expand(ps[1..], [u, a]);
    }
  }

  /** For commands of two parameters (RENAME, SYMLINK, COPY, ...) the condition is exact:
      the replacements go wrong just when the first argument mentions %2 and is used. */
  lemma TwoParametersExactly(ps: seq<Piece>, a: string, b: string)
    requires WellSpaced(ps) && InRange(ps, 2) && b != "%2"
    ensures ReplaceFrom(Expand(ps, Marks(2)), [a, b], 0) == Expand(ps, [a, b])
            <==> !Mentions(a, '2') || Arg(1) !in ps
  {
    var args := [a, b];
    var mixed := ReplaceArg(a, '2', b);
    ReplaceFromExpands(ps, Marks(2), args, 0);
    ReplaceMark(1, 1, a); ReplaceMark(2, 1, a); ReplaceMark(2, 2, b);
    var one := Replaced(Marks(2), Digit(1), a);
    assert one == [a, ['%', Digit(2)]];
    assert Replaced(one, Digit(2), b) == [mixed, b];
    assert Settled(Marks(2), args, 0) == Settled(one, args, 1) == Settled([mixed, b], args, 2) == [mixed, b];
    if !Mentions(a, '2') {
      NotMentioned(a, '2', b);
    } else {
      MentionedChanges(a, '2', b);
      if Arg(1) in ps {
        ExpandTells(ps, mixed, a, b);
      } else {
        Unused(ps, mixed, a, b);
      }
    }
  }

  lemma {:induction false} Unused(ps: seq<Piece>, t: string, u: string, a: string)
    requires InRange(ps, 2) && Arg(1) !in ps
    ensures Expand(ps, [t, a]) == Expand(ps, [u, a])
  {
    if ps != [] {
      Unused(ps[1..], t, u, a);
    }
  }

  lemma MentionsEscapedChar(c: char, e: string, k: char)
    requires IsDigit(k)
    ensures Mentions(EscapeChar(c) + e, k) <==> (c == '%' && e != "" && e[0] == k) || Mentions(e, k)
  {
    var s := EscapeChar(c) + e;
    if Special(c) {
      assert s[1..] == [c] + e;
      assert ([c] + e)[1..] == e;
    } else {
      assert s[1..] == e;
    }
  }

  /** Escaping does not hide a mention, so the condition may be read off the raw argument. */
  lemma {:induction false} MentionsEscaped(s: string, k: char)
    requires IsDigit(k)
    ensures Mentions(Escape(s), k) <==> Mentions(s, k)
  {
    if s != "" {
      MentionsEscaped(s[1..], k);
      MentionsEscapedChar(s[0], Escape(s[1..]), k);
      if |s| >= 2 {
        var e := EscapeChar(s[1]) + Escape(s[2..]);
        assert Escape(s[1..]) == e by { assert s[1..][1..] == s[2..]; }
        assert e[0] == k <==> s[1] == k;
      }
    }
  }

  /** A file named `%2` as the first of two names breaks the shell form of the command. */
  lemma MentionBreaks()
    ensures var alt := [Arg(1), Lit(' '), Arg(2)];
            ReplaceFrom(Expand(alt, Marks(2)), [Escape("%2"), "b"], 0) != Expand(alt, [Escape("%2"), "b"])
  {
    var alt := [Arg(1), Lit(' '), Arg(2)];
    MentionsEscaped("%2", '2');
    TwoParametersExactly(alt, Escape("%2"), "b");
  }
}
