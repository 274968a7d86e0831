/** Names in a line of the server's input: the regular expressions of fish/fish.pl:54-172 as Perl
    matches them, and what they make of names that `sendCommand` has escaped (fish/fish.cpp:839-847). */
module FishNames {
  import opened Text
  import Q = FishQuoting

  // ----- names in a line -----

  /** `(?:\\.|[^\\])*` takes all of it: every backslash has a character behind it. */
  predicate Whole(s: string) {
    s == "" || if s[0] == '\\' then |s| >= 2 && Whole(s[2..]) else Whole(s[1..])
  }

  /** Length of what `\\.|[^\\]` takes next. */
  function Unit(s: string): (n: nat)
    requires s != ""
    ensures 0 < n <= |s|
  {
    if s[0] == '\\' && |s| >= 2 then 2 else 1
  }

  /** `\s+`, greedily. */
  function Blanks(s: string): (n: nat)
    ensures n <= |s|
  {
    if s != "" && IsSpace(s[0]) then 1 + Blanks(s[1..]) else 0
  }

  /** `(?:\\.|[^\\])*?\s+`: where the shortest name with white space behind it ends, or -1. */
  function Gap(s: string): (n: int)
    ensures -1 <= n <= |s|
  {
    if s == "" then -1
    else if IsSpace(s[0]) then 0
    else
      var n := Gap(s[Unit(s)..]);
      if n < 0 then -1 else Unit(s) + n
  }

  /** `((?:\\.|[^\\])*?)\s*$`: the shortest name with only white space behind it. */
  function Trimmed(s: string): string {
    if Blanks(s) == |s| then "" else s[..Unit(s)] + Trimmed(s[Unit(s)..])
  }

  function OneName(r: string): Option<string> {
    var s := r[Blanks(r)..];
    if Blanks(r) == 0 || !Whole(s) then None else Some(Q.PerlUnquote(Trimmed(s)))
  }

  /** Without white space between two names, the first one is empty if there is white space to spare. */
  function TwoNames(r: string): Option<(string, string)> {
    var s := r[Blanks(r)..];
    if Blanks(r) == 0 || !Whole(s) then None
    else if Gap(s) >= 0 then
      var t := s[Gap(s)..];
      Some((Q.PerlUnquote(s[..Gap(s)]), Q.PerlUnquote(Trimmed(t[Blanks(t)..]))))
    else if Blanks(r) >= 2 then Some(("", Q.PerlUnquote(Trimmed(s))))
    else None
  }

  function OctalRun(s: string): (n: nat)
    ensures n <= |s| && forall i :: 0 <= i < n ==> '0' <= s[i] < '8'
  {
    if s != "" && '0' <= s[0] < '8' then 1 + OctalRun(s[1..]) else 0
  }

  function OctalValue(s: string): nat
    requires forall i :: 0 <= i < |s| ==> '0' <= s[i] < '8'
  {
    if s == "" then 0 else OctalValue(s[..|s| - 1]) * 8 + DigitValue(s[|s| - 1])
  }

  /** `\s+([0-7]+)\s+name` */
  function ModeAndName(r: string): Option<(nat, string)> {
    var s := r[Blanks(r)..];
    var n := OctalRun(s);
    if Blanks(r) == 0 || n == 0 then None
    else
      match OneName(s[n..])
      case None => None
      case Some(name) => Some((OctalValue(s[..n]), name))
  }

  /** `\s+(\d+)`, and what is behind it. */
  function NumberFirst(r: string): Option<(nat, string)> {
    var s := r[Blanks(r)..];
    if Blanks(r) == 0 || DigitRun(s) == 0 then None else Some((DecValue(s[..DigitRun(s)]), s[DigitRun(s)..]))
  }

  /** So many numbers and a name. */
  function NumbersAndName(r: string, n: nat): Option<(seq<nat>, string)>
    decreases n
  {
    if n == 0 then (match OneName(r) case None => None case Some(name) => Some(([], name)))
    else
      match NumberFirst(r)
      case None => None
      case Some(first) =>
        match NumbersAndName(first.1, n - 1)
        case None => None
        case Some(more) => Some(([first.0] + more.0, more.1))
  }

  // ----- escaped names -----

  /** White space that `sendCommand` does not escape: vertical tab, form feed, carriage return. */
  predicate Odd(c: char) {
    '\U{0B}' <= c <= '\r'
  }

  predicate NoOdd(s: string) {
    forall i :: 0 <= i < |s| ==> !Odd(s[i])
  }

  /** No such character at either end. */
  predicate EvenEnds(s: string) {
    s == "" || (!Odd(s[0]) && !Odd(s[|s| - 1]))
  }

  /** The name arrives. */
  predicate Arrives(s: string) {
    Free('\n', s) && EvenEnds(s)
  }

  /** Two names arrive. */
  predicate BothArrive(a: string, b: string) {
    && Free('\n', a) && Free('\n', b)
    && (if a == "" then NoOdd(b) else NoOdd(a) && EvenEnds(b))
  }

  lemma OddIsSpace(c: char)
    ensures Odd(c) <==> IsSpace(c) && !Q.Special(c)
  {
  }

  /** One character of an escaped name is one unit. */
  lemma UnitOf(c: char, e: string)
    ensures var s := Q.EscapeChar(c) + e;
            && Unit(s) == |Q.EscapeChar(c)| && s[Unit(s)..] == e && s[..Unit(s)] == Q.EscapeChar(c)
            && (IsSpace(s[0]) <==> Odd(c)) && (Whole(s) <==> Whole(e))
  {
    OddIsSpace(c);
    assert Q.Special('\\');
    var s := Q.EscapeChar(c) + e;
    if Q.Special(c) {
      assert s[2..] == e;
    } else {
      assert s[1..] == e;
    }
  }

  lemma EscapeMore(s: string, rest: string)
    requires s != ""
    ensures Q.Escape(s) + rest == Q.EscapeChar(s[0]) + (Q.Escape(s[1..]) + rest)
  {
    Regroup(Q.EscapeChar(s[0]), Q.Escape(s[1..]), rest);
  }

  lemma {:induction false} WholeEscaped(s: string, rest: string)
    ensures Whole(Q.Escape(s) + rest) <==> Whole(rest)
    decreases |s|
  {
    if s == "" {
      assert Q.Escape(s) + rest == rest;
    } else {
      EscapeMore(s, rest);
      UnitOf(s[0], Q.Escape(s[1..]) + rest);
      WholeEscaped(s[1..], rest);
    }
  }

  /** The first odd character of a name, or its end. */
  function OddAt(s: string): (n: nat)
    ensures n <= |s| && NoOdd(s[..n]) && (n < |s| ==> Odd(s[n])) && (n == |s| <==> NoOdd(s))
  {
    if s == "" || Odd(s[0]) then 0
    else
      var n := OddAt(s[1..]);
      assert s[..n + 1] == [s[0]] + s[1..][..n];
      assert s == [s[0]] + s[1..];
      n + 1
  }

  /** There the name ends for the server. */
  lemma {:induction false} GapEscaped(s: string, rest: string)
    requires rest == "" || IsSpace(rest[0])
    ensures Gap(Q.Escape(s) + rest) == if rest == "" && NoOdd(s) then -1 else |Q.Escape(s[..OddAt(s)])|
    decreases |s|
  {
    if s == "" {
      assert Q.Escape(s) + rest == rest;
    } else {
      EscapeMore(s, rest);
      UnitOf(s[0], Q.Escape(s[1..]) + rest);
      if !Odd(s[0]) {
        GapEscaped(s[1..], rest);
        var n := OddAt(s[1..]);
        assert s[..n + 1][1..] == s[1..][..n] && s[..n + 1][0] == s[0];
        assert s == [s[0]] + s[1..];
      }
    }
  }

  /** The odd characters that begin a name. */
  function Lead(s: string): (n: nat)
    ensures n <= |s| && (n < |s| ==> !Odd(s[n])) && forall i :: 0 <= i < n ==> Odd(s[i])
  {
    if s != "" && Odd(s[0]) then 1 + Lead(s[1..]) else 0
  }

  lemma {:induction false} BlanksEscaped(s: string, rest: string)
    ensures Blanks(Q.Escape(s) + rest) == Lead(s) + if Lead(s) == |s| then Blanks(rest) else 0
    ensures Lead(s) <= |Q.Escape(s) + rest| && (Q.Escape(s) + rest)[Lead(s)..] == Q.Escape(s[Lead(s)..]) + rest
    decreases |s|
  {
    if s == "" {
      assert Q.Escape(s) + rest == rest && rest[0..] == rest;
    } else {
      var e := Q.Escape(s[1..]) + rest;
      EscapeMore(s, rest);
      UnitOf(s[0], e);
      if Odd(s[0]) {
        OddIsSpace(s[0]);
        BlanksEscaped(s[1..], rest);
        assert Q.EscapeChar(s[0]) == [s[0]] && ([s[0]] + e)[1..] == e;
        assert ([s[0]] + e)[Lead(s)..] == e[Lead(s[1..])..];
        assert s[Lead(s)..] == s[1..][Lead(s[1..])..];
      } else {
        assert s[0..] == s && (Q.Escape(s) + rest)[0..] == Q.Escape(s) + rest;
      }
    }
  }

  /** Without the odd characters at its end. */
  function Stripped(s: string): string {
    if Lead(s) == |s| then "" else [s[0]] + Stripped(s[1..])
  }

  lemma {:induction false} TrimmedEscaped(s: string)
    ensures Trimmed(Q.Escape(s)) == Q.Escape(Stripped(s))
    decreases |s|
  {
    BlanksEscaped(s, "");
    assert Q.Escape(s) + "" == Q.Escape(s);
    if s != "" {
      UnitOf(s[0], Q.Escape(s[1..]));
      if Lead(s) == |s| {
        assert s[Lead(s)..] == "";
      } else {
        assert Q.Escape(s[Lead(s)..]) != "";
        TrimmedEscaped(s[1..]);
        assert ([s[0]] + Stripped(s[1..]))[1..] == Stripped(s[1..]);
      }
    }
  }

  lemma {:induction false} StrippedSame(s: string)
    ensures |Stripped(s)| <= |s|
    ensures Stripped(s) == s <==> s == "" || !Odd(s[|s| - 1])
    decreases |s|
  {
    if s != "" && Lead(s) < |s| {
      StrippedSame(s[1..]);
      assert s == [s[0]] + s[1..];
      if |s| == 1 {
        assert !Odd(s[0]);
      } else {
        assert s[1..][|s| - 2] == s[|s| - 1];
      }
    }
  }

  /** Both ends cut off leave the name exactly if they are even. */
  lemma EndsSame(s: string)
    ensures Stripped(s[Lead(s)..]) == s <==> EvenEnds(s)
  {
    StrippedSame(s[Lead(s)..]);
    if s != "" && Lead(s) == 0 {
      assert s[0..] == s;
    }
  }

  lemma {:induction false} NoNewline(s: string)
    ensures Count(s, '\n') == 0 <==> Free('\n', s)
  {
    if s != "" {
      NoNewline(s[1..]);
      assert s == [s[0]] + s[1..];
      assert forall i :: 0 < i < |s| ==> s[i] == s[1..][i - 1];
    }
  }

  lemma Unquoted(s: string)
    requires Free('\n', s)
    ensures Q.PerlUnquote(Q.Escape(s)) == s
  {
    NoNewline(s);
    Q.PerlReads(s);
  }

  lemma UnquotedPart(s: string, n: nat)
    requires Free('\n', s) && n <= |s|
    ensures Q.PerlUnquote(Q.Escape(s[..n])) == s[..n] && Q.PerlUnquote(Q.Escape(s[n..])) == s[n..]
    ensures Q.Escape(s) == Q.Escape(s[..n]) + Q.Escape(s[n..])
  {
    assert s[..n] + s[n..] == s;
    UnquotedBoth(s[..n], s[n..], s);
  }

  lemma UnquotedBoth(a: string, b: string, s: string)
    requires Free('\n', a) && Free('\n', b) && s == a + b
    ensures Q.PerlUnquote(Q.Escape(a)) == a && Q.PerlUnquote(Q.Escape(b)) == b
    ensures Q.Escape(s) == Q.Escape(a) + Q.Escape(b)
  {
    Unquoted(a);
    Unquoted(b);
    Q.EscapeAppend(a, b);
  }

  lemma {:induction false} StrippedFree(s: string)
    requires Free('\n', s)
    ensures Free('\n', Stripped(s))
  {
    if s != "" && Lead(s) < |s| {
      StrippedFree(s[1..]);
    }
  }

  /** The last name of a line, from the white space before it on. */
  lemma LastName(s: string)
    requires Free('\n', s)
    ensures var r := " " + Q.Escape(s);
            && Blanks(r) == 1 + Lead(s) && r[Blanks(r)..] == Q.Escape(s[Lead(s)..]) && Whole(r[Blanks(r)..])
            && Q.PerlUnquote(Trimmed(r[Blanks(r)..])) == Stripped(s[Lead(s)..])
  {
    var r, e := " " + Q.Escape(s), Q.Escape(s);
    assert r[1..] == e && e + "" == e;
    BlanksEscaped(s, "");
    assert r[1 + Lead(s)..] == e[Lead(s)..];
    var t := s[Lead(s)..];
    assert Q.Escape(t) + "" == Q.Escape(t);
    WholeEscaped(t, "");
    TrimmedEscaped(t);
    StrippedFree(t);
    Unquoted(Stripped(t));
  }

  lemma OneNameExactly(s: string)
    requires Free('\n', s)
    ensures OneName(" " + Q.Escape(s)) == Some(s) <==> EvenEnds(s)
  {
    LastName(s);
    EndsSame(s);
  }

  lemma FrontUnquoted(t: string)
    requires Free('\n', t)
    ensures var n := |Q.Escape(t[..OddAt(t)])|;
            n <= |Q.Escape(t)| && Q.PerlUnquote(Q.Escape(t)[..n]) == t[..OddAt(t)]
  {
    UnquotedPart(t, OddAt(t));
    var front, back := Q.Escape(t[..OddAt(t)]), Q.Escape(t[OddAt(t)..]);
    assert (front + back)[..|front|] == front;
  }

  /** The first name is not all white space. */
  lemma FirstName(a: string, b: string)
    requires Free('\n', a) && Free('\n', b) && Lead(a) < |a|
    ensures var r := " " + (Q.Escape(a) + (" " + Q.Escape(b)));
            && Blanks(r) == 1 + Lead(a) && r[Blanks(r)..] == Q.Escape(a[Lead(a)..]) + (" " + Q.Escape(b))
  {
    var e, rest := Q.Escape(a), " " + Q.Escape(b);
    var r := " " + (e + rest);
    assert r[1..] == e + rest;
    BlanksEscaped(a, rest);
    assert r[1 + Lead(a)..] == (e + rest)[Lead(a)..];
  }

  lemma FirstEnds(t: string, b: string)
    requires Free('\n', t) && Free('\n', b)
    ensures var s := Q.Escape(t) + (" " + Q.Escape(b));
            Whole(s) && Gap(s) == |Q.Escape(t[..OddAt(t)])| && Q.PerlUnquote(s[..Gap(s)]) == t[..OddAt(t)]
  {
    var rest := " " + Q.Escape(b);
    WholeEscaped(t, rest);
    assert rest[1..] == Q.Escape(b) && Q.Escape(b) + "" == Q.Escape(b);
    WholeEscaped(b, "");
    GapEscaped(t, rest);
    FrontUnquoted(t);
    var n := |Q.Escape(t[..OddAt(t)])|;
    assert (Q.Escape(t) + rest)[..n] == Q.Escape(t)[..n];
  }

  lemma TwoGoodNames(a: string, b: string)
    requires Free('\n', a) && Free('\n', b) && a != "" && NoOdd(a)
    ensures TwoNames(" " + (Q.Escape(a) + (" " + Q.Escape(b)))) == Some((a, Stripped(b[Lead(b)..])))
  {
    FirstName(a, b);
    FirstEnds(a, b);
    LastName(b);
    assert Lead(a) == 0 && a[0..] == a && OddAt(a) == |a| && a[..|a|] == a;
    var rest := " " + Q.Escape(b);
    assert (Q.Escape(a) + rest)[|Q.Escape(a)|..] == rest;
  }

  /** A first name with an odd character in it does not arrive. */
  lemma OddName(a: string, b: string)
    requires Free('\n', a) && Free('\n', b) && Lead(a) < |a| && !NoOdd(a)
    ensures var r := TwoNames(" " + (Q.Escape(a) + (" " + Q.Escape(b)))); r.Some? && r.value.0 != a
  {
    var t := a[Lead(a)..];
    FirstName(a, b);
    FirstEnds(t, b);
    if Lead(a) == 0 {
      assert a[0..] == a;
    }
    assert |t[..OddAt(t)]| < |a|;
  }

  lemma Slices(e: string, rest: string, n: nat)
    requires n <= |rest|
    ensures (" " + (e + rest))[1..] == e + rest && (" " + (e + rest))[1 + |e| + n..] == rest[n..]
  {
    var r := " " + (e + rest);
    assert r == (" " + e) + rest;
  }

  lemma AllBlank(a: string, rest: string)
    requires Lead(a) == |a|
    ensures |Q.Escape(a)| == |a|
  {
    BlanksEscaped(a, rest);
    assert a[|a|..] == "";
    assert |(Q.Escape(a) + rest)[|a|..]| == |rest|;
  }

  lemma BlankFront(a: string, b: string)
    requires Lead(a) == |a| && Free('\n', b)
    ensures var r := " " + (Q.Escape(a) + (" " + Q.Escape(b)));
            Blanks(r) == 2 + |a| + Lead(b) && r[Blanks(r)..] == Q.Escape(b[Lead(b)..])
  {
    BlanksEscaped(a, " " + Q.Escape(b));
    AllBlank(a, " " + Q.Escape(b));
    LastName(b);
    BehindBlanks(Q.Escape(a), " " + Q.Escape(b));
  }

  lemma BehindBlanks(e: string, rest: string)
    requires Blanks(e + rest) == |e| + Blanks(rest)
    ensures var r := " " + (e + rest); Blanks(r) == 1 + |e| + Blanks(rest) && r[Blanks(r)..] == rest[Blanks(rest)..]
  {
    Slices(e, rest, Blanks(rest));
  }

  /** Nothing but odd characters, or nothing, in front of the second name. */
  lemma BlankName(a: string, b: string)
    requires Free('\n', a) && Free('\n', b) && Lead(a) == |a|
    ensures var t, r := b[Lead(b)..], TwoNames(" " + (Q.Escape(a) + (" " + Q.Escape(b))));
            if NoOdd(t) then r == Some(("", t)) else r.Some? && r.value.0 == t[..OddAt(t)]
  {
    var t := b[Lead(b)..];
    BlankFront(a, b);
    assert Q.Escape(t) + "" == Q.Escape(t);
    WholeEscaped(t, "");
    GapEscaped(t, "");
    FrontUnquoted(t);
    if NoOdd(t) {
      TrimmedEscaped(t);
      StrippedSame(t);
      Unquoted(t);
    }
  }

  lemma BlankExactly(a: string, b: string)
    requires Free('\n', a) && Free('\n', b) && Lead(a) == |a|
    ensures TwoNames(" " + (Q.Escape(a) + (" " + Q.Escape(b)))) == Some((a, b)) <==> a == "" && NoOdd(b)
  {
    BlankName(a, b);
    var t := b[Lead(b)..];
    assert b != "" && Lead(b) == 0 ==> b[0..] == b;
    assert NoOdd(b) ==> Lead(b) == 0;
    if !NoOdd(t) {
      assert OddAt(t) > 0 && !Odd(t[0]) && t[..OddAt(t)][0] == t[0];
    }
  }

  /** Two names come out of a line as they went in exactly if they are free of odd characters where these
      matter. */
  lemma TwoNamesExactly(a: string, b: string)
    requires Free('\n', a) && Free('\n', b)
    ensures TwoNames(" " + (Q.Escape(a) + (" " + Q.Escape(b)))) == Some((a, b)) <==> BothArrive(a, b)
  {
    if Lead(a) == |a| {
      BlankExactly(a, b);
    } else if NoOdd(a) {
      TwoGoodNames(a, b);
      EndsSame(b);
    } else {
      OddName(a, b);
    }
  }

  lemma {:induction false} WholeBehindBlanks(s: string)
    ensures Whole(s[Blanks(s)..]) <==> Whole(s)
  {
    if s != "" && IsSpace(s[0]) {
      WholeBehindBlanks(s[1..]);
      assert s[Blanks(s)..] == s[1..][Blanks(s[1..])..];
    } else {
      assert s[0..] == s;
    }
  }

  /** A line that ends in a backslash of its own holds no names. */
  lemma CutShort(r: string)
    requires !Whole(r)
    ensures TwoNames(r) == None && OneName(r) == None
  {
    WholeBehindBlanks(r);
  }
}
