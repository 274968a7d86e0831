/** The texts `sendCommand` really builds are spelled the way the upload needs them, for every
    newline-free path and every table of shell forms laid out like the one of
    fish/fish.cpp:182-244. */
module FishTexts {
  import opened Text
  import opened FishCommands
  import opened FishModel
  import Q = FishQuoting
  import S = FishServer
  import U = FishUpload

  /** The shell forms of the commands with data are one line, the others hold no line that
      the server would take for a command. */
  predicate LaidOut(alt: Command -> string) {
    && Free('\n', alt(STOR)) && Free('\n', alt(APPEND)) && Free('\n', alt(WRITE))
    && S.HashFree(alt(LIST), false) && S.HashFree(alt(CHMOD), false)
  }

  ghost predicate Renders(env: Env, alt: Command -> string) {
    forall cmd: Command, args: seq<string> :: |args| <= 3 ==> env.text(cmd, args) == CommandText(alt, cmd, args)
  }

  /** An argument as it arrives in a text: no newline, and not the look of a command. */
  predicate Word(s: string) {
    s != "" && Free('\n', s) && s[0] != '#'
  }

  predicate Words(args: seq<string>) {
    forall i :: 0 <= i < |args| ==> Word(args[i])
  }

  // ----- newlines -----

  lemma {:induction false} EscapeFree(s: string)
    requires Free('\n', s)
    ensures Free('\n', Q.Escape(s))
  {
    if s != "" {
      EscapeFree(s[1..]);
    }
  }

  lemma EscapeWord(s: string)
    requires Free('\n', s) && s != ""
    ensures Word(Q.Escape(s))
  {
    EscapeFree(s);
  }

  lemma {:induction false} SpacedFree(args: seq<string>)
    requires Words(args)
    ensures Free('\n', Spaced(args))
  {
    if args != [] {
      assert Word(args[0]);
      SpacedFree(args[1..]);
    }
  }

  lemma {:induction false} ReplaceFree(s: string, k: char, arg: string)
    requires Free('\n', s) && Free('\n', arg)
    ensures Free('\n', Q.ReplaceArg(s, k, arg))
    decreases |s|
  {
    if |s| >= 2 {
      if s[0] == '%' && s[1] == k {
        ReplaceFree(s[2..], k, arg);
      } else {
        ReplaceFree(s[1..], k, arg);
      }
    }
  }

  lemma {:induction false} ReplaceFromFree(s: string, args: seq<string>, i: nat)
    requires |args| <= 3 && i <= |args| && Free('\n', s) && Words(args)
    ensures Free('\n', Q.ReplaceFrom(s, args, i))
    decreases |args| - i
  {
    if i < |args| {
      assert Word(args[i]);
      ReplaceFree(s, Digit(i + 1), args[i]);
      ReplaceFromFree(Q.ReplaceArg(s, Digit(i + 1), args[i]), args, i + 1);
    }
  }

  // ----- lines that look like commands -----

  lemma {:induction false} HashFreeJoin(a: string, b: string, start: bool)
    requires S.HashFree(a, start) && S.HashFree(b, true)
    ensures S.HashFree(a + b, start)
    decreases |a|
  {
    if a == "" {
      assert a + b == b;
    } else {
      assert (a + b)[1..] == a[1..] + b;
      HashFreeJoin(a[1..], b, a[0] == '\n');
    }
  }

  lemma {:induction false} HashFreeBehind(a: string, b: string, start: bool)
    requires Word(a) && S.HashFree(b, false)
    ensures S.HashFree(a + b, start)
    decreases |a|
  {
    assert (a + b)[1..] == a[1..] + b;
    HashFreeInside(a[1..], b);
  }

  lemma {:induction false} HashFreeInside(a: string, b: string)
    requires Free('\n', a) && S.HashFree(b, false)
    ensures S.HashFree(a + b, false)
    decreases |a|
  {
    if a == "" {
      assert a + b == b;
    } else {
      assert (a + b)[1..] == a[1..] + b;
      HashFreeInside(a[1..], b);
    }
  }

  lemma {:induction false} ReplaceHashFree(s: string, k: char, arg: string, start: bool)
    requires S.HashFree(s, start) && Word(arg)
    ensures S.HashFree(Q.ReplaceArg(s, k, arg), start)
    decreases |s|
  {
    if |s| >= 2 {
      if s[0] == '%' && s[1] == k {
        assert s[1..][1..] == s[2..];
        assert S.HashFree(s[2..], k == '\n');
        if k == '\n' {
          ReplaceHashFree(s[2..], k, arg, true);
          HashFreeAnywhere(Q.ReplaceArg(s[2..], k, arg));
        } else {
          ReplaceHashFree(s[2..], k, arg, false);
        }
        HashFreeBehind(arg, Q.ReplaceArg(s[2..], k, arg), start);
      } else {
        ReplaceHashFree(s[1..], k, arg, s[0] == '\n');
        assert ([s[0]] + Q.ReplaceArg(s[1..], k, arg))[1..] == Q.ReplaceArg(s[1..], k, arg);
      }
    }
  }

  lemma HashFreeAnywhere(s: string)
    requires S.HashFree(s, true)
    ensures S.HashFree(s, false)
  {
  }

  lemma {:induction false} ReplaceFromHashFree(s: string, args: seq<string>, i: nat)
    requires |args| <= 3 && i <= |args| && S.HashFree(s, false) && Words(args)
    ensures S.HashFree(Q.ReplaceFrom(s, args, i), false)
    decreases |args| - i
  {
    if i < |args| {
      assert Word(args[i]);
      ReplaceHashFree(s, Digit(i + 1), args[i], false);
      ReplaceFromHashFree(Q.ReplaceArg(s, Digit(i + 1), args[i]), args, i + 1);
    }
  }

  // ----- whole texts -----

  function Closing(): string {
    " 2>&1;echo '### 200'"
  }

  lemma Closings()
    ensures Free('\n', Closing()) && S.HashFree(Closing() + "\n", true)
  {
    var c := Closing();
    assert (c + "\n")[1..] == c[1..] + "\n";
    assert S.HashFree("\n", false) by { assert "\n"[1..] == ""; }
    HashFreeInside(c[1..], "\n");
  }

  lemma Cut(head: string, gap: string, shell: string, closing: string)
    ensures var text := head + ("\n" + gap) + shell + closing;
            StartsWith(text, head + "\n") && text[|head| + 1..] == gap + (shell + closing)
  {
    var text := head + ("\n" + gap) + shell + closing;
    assert text == (head + "\n") + (gap + (shell + closing));
  }

  /** A text is its first line and behind it the shell part. */
  lemma Frames(head: string, shell: string)
    requires Free('\n', head)
    ensures var text := Assembled(head, shell);
            S.Framed(text, head) && S.ShellPart(text, head) == " " + (shell + (Closing() + "\n"))
  {
    Cut(head, " ", shell, Closing() + "\n");
    assert "\n" + " " == "\n " && Closing() + "\n" == " 2>&1;echo '### 200'\n";
  }

  lemma EndsInNewline(a: string, b: string, c: string)
    requires Free('\n', a) && Free('\n', b) && Free('\n', c)
    ensures var tail := a + (b + (c + "\n"));
            tail != "" && tail[|tail| - 1] == '\n' && Free('\n', tail[..|tail| - 1])
  {
    var tail := a + (b + (c + "\n"));
    assert tail[..|tail| - 1] == a + (b + c);
  }

  lemma OneLineAssembled(head: string, shell: string)
    requires Free('\n', head) && Free('\n', shell)
    ensures S.OneLine(Assembled(head, shell), head)
  {
    Frames(head, shell);
    Closings();
    EndsInNewline(" ", shell, Closing());
  }

  /** Behind the space that begins it, the shell part and what ends it. */
  lemma ShellIgnorable(shell: string, closing: string)
    requires S.HashFree(shell, false) && S.HashFree(closing, true) && closing != "" && closing[|closing| - 1] == '\n'
    ensures S.Ignorable(" " + (shell + closing))
  {
    HashFreeJoin(shell, closing, false);
    var tail := " " + (shell + closing);
    assert tail[1..] == shell + closing;
  }

  lemma IgnorableAssembled(head: string, shell: string)
    requires Free('\n', head) && S.HashFree(shell, false)
    ensures var text := Assembled(head, shell); S.Framed(text, head) && S.Ignorable(S.ShellPart(text, head))
  {
    Frames(head, shell);
    Closings();
    ShellIgnorable(shell, Closing() + "\n");
  }

  lemma HeadFree(cmd: Command, args: seq<string>)
    requires Words(EscapeAll(args)) && Free('\n', Name(cmd))
    ensures Free('\n', Head(cmd, args))
  {
    SpacedFree(EscapeAll(args));
  }

  lemma Lead(text: string)
    ensures "" + text == text
  {
  }

  lemma OneLineOf(alt: Command -> string, cmd: Command, args: seq<string>)
    requires |args| <= 3 && cmd != FISH && Words(EscapeAll(args)) && Free('\n', Head(cmd, args)) && Free('\n', alt(cmd))
    ensures S.OneLine(CommandText(alt, cmd, args), Head(cmd, args))
  {
    var shell := Q.ReplaceFrom(alt(cmd), EscapeAll(args), 0);
    ReplaceFromFree(alt(cmd), EscapeAll(args), 0);
    OneLineAssembled(Head(cmd, args), shell);
    Lead(Assembled(Head(cmd, args), shell));
  }

  lemma IgnorableOf(alt: Command -> string, cmd: Command, args: seq<string>)
    requires |args| <= 3 && cmd != FISH && Words(EscapeAll(args)) && Free('\n', Head(cmd, args))
          && S.HashFree(alt(cmd), false)
    ensures var text := CommandText(alt, cmd, args);
            S.Framed(text, Head(cmd, args)) && S.Ignorable(S.ShellPart(text, Head(cmd, args)))
  {
    var shell := Q.ReplaceFrom(alt(cmd), EscapeAll(args), 0);
    ReplaceFromHashFree(alt(cmd), EscapeAll(args), 0);
    IgnorableAssembled(Head(cmd, args), shell);
    Lead(Assembled(Head(cmd, args), shell));
  }

  lemma NumberWord(s: string)
    requires AllDigits(s) && s != ""
    ensures Word(Q.Escape(s))
  {
    S.DigitsPlain(s);
  }

  lemma Rendered(env: Env, alt: Command -> string, cmd: Command, args: seq<string>)
    requires Renders(env, alt) && |args| <= 3
    ensures env.text(cmd, args) == CommandText(alt, cmd, args)
  {
  }

  lemma OneLineSpelled(env: Env, alt: Command -> string, cmd: Command, args: seq<string>)
    requires Renders(env, alt) && |args| <= 3 && cmd in {STOR, APPEND, WRITE} && Words(EscapeAll(args))
          && Free('\n', alt(cmd))
    ensures U.OneLineText(env, cmd, args)
  {
    HeadFree(cmd, args);
    OneLineOf(alt, cmd, args);
    Rendered(env, alt, cmd, args);
  }

  lemma AnswerSpelled(env: Env, alt: Command -> string, cmd: Command, args: seq<string>)
    requires Renders(env, alt) && |args| <= 3 && cmd in {LIST, CHMOD} && Words(EscapeAll(args))
          && S.HashFree(alt(cmd), false)
    ensures U.Answered(env, cmd, args)
  {
    HeadFree(cmd, args);
    IgnorableOf(alt, cmd, args);
    Rendered(env, alt, cmd, args);
  }

  lemma NumbersAreSpelled(env: Env, alt: Command -> string, a: string, b: string)
    requires Renders(env, alt) && LaidOut(alt) && Word(Q.Escape(env.path))
    requires AllDigits(a) && AllDigits(b) && a != "" && b != ""
    ensures U.NumbersSpelled(env, a, b)
  {
    NumberWord(a);
    NumberWord(b);
    OneLineSpelled(env, alt, APPEND, [a, env.path]);
    OneLineSpelled(env, alt, WRITE, [a, b, env.path]);
    AnswerSpelled(env, alt, CHMOD, [a, env.path]);
  }

  /** The texts of the table, for a path without newlines, are what the server needs. */
  lemma TextsAreSpelled(env: Env, alt: Command -> string)
    requires Renders(env, alt) && LaidOut(alt) && env.path != "" && Free('\n', env.path)
    ensures U.Spelled(env)
  {
    EscapeWord(env.path);
    NumberWord("0");
    AnswerSpelled(env, alt, LIST, [env.path]);
    OneLineSpelled(env, alt, STOR, ["0", env.path]);
    forall a: string, b: string | AllDigits(a) && AllDigits(b) && a != "" && b != ""
      ensures U.NumbersSpelled(env, a, b)
    {
      NumbersAreSpelled(env, alt, a, b);
    }
  }
}
