/** The word list of a file search: apostrophes are told from quotes, then the pattern is split at
    spaces outside quotes (filenamesearch/kio_filenamesearch.cpp:338-472). */
module WordList {
  import opened Text

  // ----- first pass: escapeApostrophes -----

  datatype Pass1 = Pass1(out: string, escaped: bool, seenSpace: bool, seenApostrophe: bool, quotes: nat)

  const START1 := Pass1("", false, true, false, 0)

  predicate Separator(c: char) {
    IsSpace(c) || c == '_'
  }

  /** A quote kept back turns out to be a quote. */
  function AsQuote(s: Pass1, c: char): Pass1 {
    if s.seenApostrophe then s.(out := s.out + "'" + [c], quotes := s.quotes + 1, seenApostrophe := false)
    else s.(out := s.out + [c])
  }

  /** A quote kept back turns out to be an apostrophe. */
  function AsApostrophe(s: Pass1, c: char): Pass1 {
    if s.seenApostrophe then s.(out := s.out + "\\'" + [c], seenApostrophe := false)
    else s.(out := s.out + [c])
  }

  function Step1(s: Pass1, c: char): Pass1 {
    if s.escaped then Pass1(s.out + [c], false, Separator(c), false, s.quotes)
    else if c == '\\' then AsApostrophe(s, c).(escaped := true)
    else if c == '\'' then
      if !s.seenSpace && !s.seenApostrophe then s.(seenApostrophe := true)
      else s.(out := s.out + "'", quotes := s.quotes + 1)
    else if Separator(c) then
      (if s.quotes % 2 == 0 then AsApostrophe(s, c) else AsQuote(s, c)).(seenSpace := true)
    else AsApostrophe(s, c).(seenSpace := false)
  }

  function Run1(s: Pass1, text: string): Pass1
    decreases |text|
  {
    if text == "" then s else Run1(Step1(s, text[0]), text[1..])
  }

  function Finish1(s: Pass1): string {
    if !s.seenApostrophe then s.out else if s.quotes % 2 == 0 then s.out + "\\'" else s.out + "'"
  }

  function Escaped(pattern: string): string {
    Finish1(Run1(START1, pattern))
  }

  method EscapeApostrophes(pattern: string) returns (escapedPattern: string)
    ensures escapedPattern == Escaped(pattern)
  {
    var escaped, seenSpace, seenApostrophe, quotes := false, true, false, 0;
    escapedPattern := "";
    for i := 0 to |pattern|
      invariant Run1(START1, pattern) == Run1(Pass1(escapedPattern, escaped, seenSpace, seenApostrophe, quotes),
            pattern[i..])
    {
      var c := pattern[i];
      assert pattern[i..][1..] == pattern[i + 1..];
      if escaped {
        escapedPattern := escapedPattern + [c];
        escaped := false;
        seenSpace := Separator(c);
        seenApostrophe := false;
      } else if c == '\'' {
        if !seenSpace && !seenApostrophe {
          seenApostrophe := true;
        } else {
          escapedPattern := escapedPattern + "'";
          quotes := quotes + 1;
        }
      } else {
        if seenApostrophe {
          if Separator(c) && quotes % 2 != 0 {
            escapedPattern := escapedPattern + "'";
            quotes := quotes + 1;
          } else {
            escapedPattern := escapedPattern + "\\'";
          }
          seenApostrophe := false;
        }
        escapedPattern := escapedPattern + [c];
        if c == '\\' {
          escaped := true;
        } else {
          seenSpace := Separator(c);
        }
      }
    }
    if seenApostrophe {
      escapedPattern := escapedPattern + if quotes % 2 == 0 then "\\'" else "'";
    }
  }

  // ----- it only inserts backslashes before single quotes -----

  /** `out` is `text` with a backslash put before some of its single quotes. */
  ghost predicate Inserted(text: string, out: string)
    decreases |text|
  {
    if text == "" then out == ""
    else
      (out != "" && out[0] == text[0] && Inserted(text[1..], out[1..]))
      || (text[0] == '\'' && |out| >= 2 && out[..2] == "\\'" && Inserted(text[1..], out[2..]))
  }

  lemma {:induction false} InsertedMore(text: string, out: string, c: char, more: string)
    requires Inserted(text, out) && (more == [c] || (c == '\'' && more == "\\'"))
    ensures Inserted(text + [c], out + more)
    decreases |text|
  {
    if text == "" {
      assert text + [c] == [c] && out + more == more;
      assert [c][1..] == "" && more[|more|..] == "";
      assert Inserted("", "");
    } else {
      var t, o := text + [c], out + more;
      assert t[0] == text[0] && t[1..] == text[1..] + [c];
      if out != "" && out[0] == text[0] && Inserted(text[1..], out[1..]) {
        InsertedMore(text[1..], out[1..], c, more);
        assert o[0] == out[0] && o[1..] == out[1..] + more;
      } else {
        InsertedMore(text[1..], out[2..], c, more);
        assert o[..2] == out[..2] && o[2..] == out[2..] + more;
      }
    }
  }

  /** What has been put out stands for what has been read, a quote kept back apart. */
  ghost predicate Faithful(text: string, s: Pass1) {
    && (s.escaped ==> !s.seenApostrophe)
    && if s.seenApostrophe then text != "" && text[|text| - 1] == '\'' && Inserted(text[..|text| - 1], s.out)
       else Inserted(text, s.out)
  }

  lemma Settle(text: string, s: Pass1, c: char, quote: string)
    requires Faithful(text, s) && s.seenApostrophe && (quote == "'" || quote == "\\'")
    ensures Inserted(text, s.out + quote) && Inserted(text + [c], s.out + quote + [c])
  {
    var before := text[..|text| - 1];
    assert before + ['\''] == text;
    InsertedMore(before, s.out, '\'', quote);
    InsertedMore(text, s.out + quote, c, [c]);
  }

  lemma StepFaithful(text: string, s: Pass1, c: char)
    requires Faithful(text, s)
    ensures Faithful(text + [c], Step1(s, c))
  {
    var t := text + [c];
    assert t[..|t| - 1] == text;
    if s.seenApostrophe {
      Settle(text, s, c, "'");
      Settle(text, s, c, "\\'");
    } else {
      InsertedMore(text, s.out, c, [c]);
    }
  }

  lemma {:induction false} RunFaithful(text: string, s: Pass1, more: string)
    requires Faithful(text, s)
    ensures Faithful(text + more, Run1(s, more))
    decreases |more|
  {
    if more == "" {
      assert text + more == text;
    } else {
      StepFaithful(text, s, more[0]);
      RunFaithful(text + [more[0]], Step1(s, more[0]), more[1..]);
      assert text + [more[0]] + more[1..] == text + more;
    }
  }

  /** On every pattern. */
  lemma OnlyInserts(pattern: string)
    ensures Inserted(pattern, Escaped(pattern))
  {
    RunFaithful("", START1, pattern);
    assert "" + pattern == pattern;
    var s := Run1(START1, pattern);
    if s.seenApostrophe {
      Settle(pattern, s, ' ', "'");
      Settle(pattern, s, ' ', "\\'");
    }
  }

  // ----- second pass: splitWordList -----

  datatype Pass2 = Pass2(words: seq<string>, term: string, inSingle: bool, inDouble: bool, escaped: bool)

  const START2 := Pass2([], "", false, false, false)

  /** `escapePhrase` is `phrase`. */
  function AddTerm(s: Pass2, word: string): Pass2 {
    if word != "" then s.(words := s.words + [word], term := "") else s
  }

  function Step2(phrase: string -> string, s: Pass2, c: char): Pass2 {
    if s.escaped then s.(term := s.term + [c], escaped := false)
    else if c == '\\' then s.(escaped := true)
    else if c == '\'' && !s.inDouble then
      (if s.inSingle then AddTerm(s, phrase(s.term)) else s).(inSingle := !s.inSingle)
    else if c == '"' && !s.inSingle then
      (if s.inDouble then AddTerm(s, phrase(s.term)) else s).(inDouble := !s.inDouble)
    else if IsSpace(c) && !s.inSingle && !s.inDouble then
      if s.term != "" then AddTerm(s.(term := phrase(s.term)), phrase(s.term)) else s
    else s.(term := s.term + [c])
  }

  function Run2(phrase: string -> string, s: Pass2, text: string): Pass2
    decreases |text|
  {
    if text == "" then s else Run2(phrase, Step2(phrase, s, text[0]), text[1..])
  }

  function Words(phrase: string -> string, pattern: string): seq<string> {
    var s := Run2(phrase, START2, Escaped(pattern));
    if s.term != "" then AddTerm(s, phrase(s.term)).words else s.words
  }

  method SplitWordList(phrase: string -> string, pattern: string) returns (wordList: seq<string>)
    ensures wordList == Words(phrase, pattern)
  {
    var escapedPattern := EscapeApostrophes(pattern);
    var s := START2;
    for i := 0 to |escapedPattern|
      invariant Run2(phrase, START2, escapedPattern) == Run2(phrase, s, escapedPattern[i..])
    {
      var c := escapedPattern[i];
      assert escapedPattern[i..][1..] == escapedPattern[i + 1..];
      if s.escaped {
        s := s.(term := s.term + [c], escaped := false);
      } else if c == '\\' {
        s := s.(escaped := true);
      } else if c == '\'' && !s.inDouble {
        if s.inSingle {
          s := AddTerm(s, phrase(s.term));
        }
        s := s.(inSingle := !s.inSingle);
      } else if c == '"' && !s.inSingle {
        if s.inDouble {
          s := AddTerm(s, phrase(s.term));
        }
        s := s.(inDouble := !s.inDouble);
      } else if IsSpace(c) && !s.inSingle && !s.inDouble {
        if s.term != "" {
          s := s.(term := phrase(s.term));
          s := AddTerm(s, s.term);
        }
      } else {
        s := s.(term := s.term + [c]);
      }
    }
    if s.term != "" {
      s := AddTerm(s, phrase(s.term));
    }
    return s.words;
  }

  // ----- written phrases -----

  predicate Special(c: char) {
    c == '"' || c == '\'' || c == '\\'
  }

  function Protected(p: string): string {
    if p == "" then "" else (if Special(p[0]) then ['\\', p[0]] else [p[0]]) + Protected(p[1..])
  }

  function Quoted(p: string): string {
    "\"" + (Protected(p) + "\"")
  }

  function Written(ps: seq<string>): string {
    if ps == [] then "" else Quoted(ps[0]) + (if |ps| == 1 then "" else " " + Written(ps[1..]))
  }

  /** Nothing is open. */
  predicate Calm(s: Pass1) {
    !s.escaped && !s.seenApostrophe
  }

  lemma {:induction false} RunAppend1(s: Pass1, a: string, b: string)
    ensures Run1(s, a + b) == Run1(Run1(s, a), b)
    decreases |a|
  {
    if a == "" {
      assert a + b == b;
    } else {
      assert (a + b)[0] == a[0] && (a + b)[1..] == a[1..] + b;
      RunAppend1(Step1(s, a[0]), a[1..], b);
    }
  }

  /** `text` goes through as it is, counts no quote and leaves nothing open. */
  ghost predicate Passes(s: Pass1, text: string) {
    var r := Run1(s, text);
    Calm(r) && r.out == s.out + text && r.quotes == s.quotes
  }

  lemma Compose1(s: Pass1, a: string, b: string)
    requires Passes(s, a) && Passes(Run1(s, a), b)
    ensures Passes(s, a + b)
  {
    RunAppend1(s, a, b);
    assert s.out + a + b == s.out + (a + b);
  }

  lemma Plain1(s: Pass1, c: char)
    requires Calm(s) && c != '\'' && c != '\\'
    ensures Passes(s, [c])
  {
    assert [c][1..] == "";
  }

  lemma Escape1(s: Pass1, c: char)
    requires Calm(s)
    ensures Passes(s, ['\\', c])
  {
    assert ['\\', c][1..] == [c] && [c][1..] == "";
    var s1 := Step1(s, '\\');
    assert Run1(s, ['\\', c]) == Run1(s1, [c]) == Step1(s1, c);
    assert s.out + ['\\'] + [c] == s.out + ['\\', c];
  }

  lemma Empty1(s: Pass1)
    requires Calm(s)
    ensures Passes(s, "")
  {
    assert s.out + "" == s.out;
  }

  lemma {:induction false} Protected1(s: Pass1, p: string)
    requires Calm(s)
    ensures Passes(s, Protected(p))
    decreases |p|
  {
    if p == "" {
      Empty1(s);
    } else {
      var first := if Special(p[0]) then ['\\', p[0]] else [p[0]];
      if Special(p[0]) {
        Escape1(s, p[0]);
      } else {
        Plain1(s, p[0]);
      }
      Protected1(Run1(s, first), p[1..]);
      Compose1(s, first, Protected(p[1..]));
    }
  }

  lemma Quoted1(s: Pass1, p: string)
    requires Calm(s)
    ensures Passes(s, Quoted(p))
  {
    Plain1(s, '"');
    var s1 := Run1(s, "\"");
    Protected1(s1, p);
    Plain1(Run1(s1, Protected(p)), '"');
    Compose1(s1, Protected(p), "\"");
    Compose1(s, "\"", Protected(p) + "\"");
  }

  lemma {:induction false} Written1(s: Pass1, ps: seq<string>)
    requires Calm(s)
    ensures Passes(s, Written(ps))
    decreases |ps|
  {
    if ps == [] {
      Empty1(s);
    } else {
      Quoted1(s, ps[0]);
      var s1 := Run1(s, Quoted(ps[0]));
      if |ps| == 1 {
        assert Written(ps) == Quoted(ps[0]);
      } else {
        Plain1(s1, ' ');
        Written1(Run1(s1, " "), ps[1..]);
        Compose1(s1, " ", Written(ps[1..]));
        Compose1(s, Quoted(ps[0]), " " + Written(ps[1..]));
      }
    }
  }

  /** Written phrases pass the first pass unchanged. */
  lemma WrittenUnchanged(ps: seq<string>)
    ensures Escaped(Written(ps)) == Written(ps)
  {
    Written1(START1, ps);
  }

  lemma {:induction false} RunAppend2(phrase: string -> string, s: Pass2, a: string, b: string)
    ensures Run2(phrase, s, a + b) == Run2(phrase, Run2(phrase, s, a), b)
    decreases |a|
  {
    if a == "" {
      assert a + b == b;
    } else {
      assert (a + b)[0] == a[0] && (a + b)[1..] == a[1..] + b;
      RunAppend2(phrase, Step2(phrase, s, a[0]), a[1..], b);
    }
  }

  lemma {:induction false} Protected2(phrase: string -> string, words: seq<string>, term: string, p: string)
    ensures Run2(phrase, Pass2(words, term, false, true, false), Protected(p))
          == Pass2(words, term + p, false, true, false)
    decreases |p|
  {
    var s := Pass2(words, term, false, true, false);
    if p == "" {
      assert term + p == term;
    } else {
      var first := if Special(p[0]) then ['\\', p[0]] else [p[0]];
      RunAppend2(phrase, s, first, Protected(p[1..]));
      assert ['\\', p[0]][1..] == [p[0]] && [p[0]][1..] == "";
      Protected2(phrase, words, term + [p[0]], p[1..]);
      assert term + [p[0]] + p[1..] == term + p;
    }
  }

  lemma Quoted2(phrase: string -> string, words: seq<string>, p: string)
    requires phrase(p) != ""
    ensures Run2(phrase, Pass2(words, "", false, false, false), Quoted(p))
          == Pass2(words + [phrase(p)], "", false, false, false)
  {
    var s := Pass2(words, "", false, false, false);
    RunAppend2(phrase, s, "\"", Protected(p) + "\"");
    assert "\""[1..] == "" && "" + p == p;
    var s1 := Pass2(words, "", false, true, false);
    RunAppend2(phrase, s1, Protected(p), "\"");
    Protected2(phrase, words, "", p);
  }

  lemma Space2(phrase: string -> string, s: Pass2, more: string)
    requires s.term == "" && !s.inSingle && !s.inDouble && !s.escaped
    ensures Run2(phrase, s, " " + more) == Run2(phrase, s, more)
  {
    assert (" " + more)[0] == ' ' && (" " + more)[1..] == more;
  }

  function Phrases(phrase: string -> string, ps: seq<string>): (r: seq<string>)
    ensures |r| == |ps| && forall i :: 0 <= i < |ps| ==> r[i] == phrase(ps[i])
  {
    seq(|ps|, i requires 0 <= i < |ps| => phrase(ps[i]))
  }

  lemma {:induction false} Written2(phrase: string -> string, words: seq<string>, ps: seq<string>)
    requires forall i :: 0 <= i < |ps| ==> phrase(ps[i]) != ""
    ensures Run2(phrase, Pass2(words, "", false, false, false), Written(ps)) ==
            Pass2(words + Phrases(phrase, ps), "", false, false, false)
    decreases |ps|
  {
    var s := Pass2(words, "", false, false, false);
    if ps == [] {
      assert words + Phrases(phrase, ps) == words;
    } else {
      var s1 := Pass2(words + [phrase(ps[0])], "", false, false, false);
      Quoted2(phrase, words, ps[0]);
      assert words + [phrase(ps[0])] + Phrases(phrase, ps[1..]) == words + Phrases(phrase, ps);
      if |ps| == 1 {
        assert Written(ps) == Quoted(ps[0]);
      } else {
        RunAppend2(phrase, s, Quoted(ps[0]), " " + Written(ps[1..]));
        Space2(phrase, s1, Written(ps[1..]));
        Written2(phrase, words + [phrase(ps[0])], ps[1..]);
      }
    }
  }

  /** Phrases written in quotes come back in order, each as a phrase. */
  lemma WordListRoundTrip(phrase: string -> string, ps: seq<string>)
    requires forall p :: p != "" ==> phrase(p) != ""
    requires forall i :: 0 <= i < |ps| ==> ps[i] != ""
    ensures Words(phrase, Written(ps)) == Phrases(phrase, ps)
  {
    WrittenUnchanged(ps);
    Written2(phrase, [], ps);
    assert [] + Phrases(phrase, ps) == Phrases(phrase, ps);
  }
}
