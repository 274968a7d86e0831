/** What the word list of a search comes to for words as people write them: bare words, apostrophes in
    them included, and phrases in double or single quotes, in any mixture
    (filenamesearch/kio_filenamesearch.cpp:338-472). */
module WordTokens {
  import opened Text
  import opened WordList

  datatype Token = Bare(p: string) | InDouble(p: string) | InSingle(p: string)

  /** A word without white space, double quotes and backslashes; a single quote in it stands behind
      something else than a quote or an underscore. */
  predicate Word(w: string) {
    && w != "" && (forall i :: 0 <= i < |w| ==> !IsSpace(w[i]) && w[i] != '"' && w[i] != '\\')
    && w[0] != '\'' && Apart(w)
  }

  predicate Apart(w: string) {
    forall i :: 0 < i < |w| && w[i] == '\'' ==> w[i - 1] != '\'' && w[i - 1] != '_'
  }

  predicate Good(t: Token) {
    if t.Bare? then Word(t.p) else t.p != ""
  }

  predicate AllGood(ts: seq<Token>) {
    forall i :: 0 <= i < |ts| ==> Good(ts[i])
  }

  /** As it is written. */
  function Spelled(t: Token): string {
    match t
    case Bare(w) => w
    case InDouble(p) => Quoted(p)
    case InSingle(p) => "'" + (Protected(p) + "'")
  }

  function Joined(ts: seq<Token>): string {
    if ts == [] then "" else if |ts| == 1 then Spelled(ts[0]) else Spelled(ts[0]) + " " + Joined(ts[1..])
  }

  /** A word with its apostrophes marked. */
  function Marked(w: string): string {
    if w == "" then "" else (if w[0] == '\'' then "\\'" else [w[0]]) + Marked(w[1..])
  }

  /** What the first pass makes of a token. */
  function Out(t: Token): string {
    if t.Bare? then Marked(t.p) else Spelled(t)
  }

  function Outs(ts: seq<Token>): string {
    if ts == [] then "" else if |ts| == 1 then Out(ts[0]) else Out(ts[0]) + " " + Outs(ts[1..])
  }

  // ----- the first pass -----

  /** Between tokens. */
  predicate Open(s: Pass1) {
    Calm(s) && s.seenSpace && s.quotes % 2 == 0
  }

  /** A quote kept back, taken for an apostrophe. */
  function Kept(s: Pass1): string {
    if s.seenApostrophe then "\\'" else ""
  }

  lemma MarkedFirst(w: string)
    requires w != ""
    ensures Marked(w) == (if w[0] == '\'' then "\\'" else [w[0]]) + Marked(w[1..])
  {
  }

  lemma BareStep(s: Pass1, c: char)
    requires !s.escaped && s.quotes % 2 == 0 && c != '\\' && !IsSpace(c)
    requires c == '\'' ==> !s.seenSpace && !s.seenApostrophe
    ensures var t := Step1(s, c);
            && !t.escaped && t.quotes == s.quotes && (t.seenApostrophe <==> c == '\'')
            && (c != '\'' ==> (t.seenSpace <==> c == '_'))
            && t.out + Kept(t) == s.out + Kept(s) + (if c == '\'' then "\\'" else [c])
  {
    var t := Step1(s, c);
    assert s.out + "" == s.out;
    assert t.out + "" == t.out;
  }

  /** The quotes of a word are apostrophes. */
  lemma {:induction false} BareRun(s: Pass1, w: string)
    requires !s.escaped && s.quotes % 2 == 0 && Apart(w)
    requires forall i :: 0 <= i < |w| ==> !IsSpace(w[i]) && w[i] != '\\'
    requires w != "" && w[0] == '\'' ==> !s.seenSpace && !s.seenApostrophe
    ensures var t := Run1(s, w);
            !t.escaped && t.quotes == s.quotes && t.out + Kept(t) == s.out + Kept(s) + Marked(w)
    decreases |w|
  {
    if w == "" {
      assert s.out + Kept(s) + "" == s.out + Kept(s);
    } else {
      var t := Step1(s, w[0]);
      BareStep(s, w[0]);
      assert |w| > 1 ==> w[1..][0] == w[1];
      forall i | 0 < i < |w[1..]| && w[1..][i] == '\'' ensures w[1..][i - 1] != '\'' && w[1..][i - 1] != '_' {
        assert w[i + 1] == '\'' && w[1..][i - 1] == w[i];
      }
      BareRun(t, w[1..]);
      MarkedFirst(w);
      var first := if w[0] == '\'' then "\\'" else [w[0]];
      assert s.out + Kept(s) + first + Marked(w[1..]) == s.out + Kept(s) + (first + Marked(w[1..]));
    }
  }

  /** A token and the space behind it. */
  predicate Passed(s: Pass1, t: Token) {
    var r := Run1(s, Spelled(t) + " ");
    Open(r) && r.out == s.out + (Out(t) + " ")
  }

  /** The last token. */
  predicate Ended(s: Pass1, t: Token) {
    Finish1(Run1(s, Spelled(t))) == s.out + Out(t)
  }

  lemma ThenSpace(s: Pass1, text: string)
    ensures Run1(s, text + " ") == Step1(Run1(s, text), ' ')
  {
    RunAppend1(s, text, " ");
    assert " "[1..] == "";
    assert Run1(Step1(Run1(s, text), ' '), "") == Step1(Run1(s, text), ' ');
  }

  lemma BarePasses(s: Pass1, w: string)
    requires Open(s) && Word(w)
    ensures Passed(s, Bare(w)) && Ended(s, Bare(w))
  {
    BareRun(s, w);
    ThenSpace(s, w);
    assert s.out + "" == s.out;
    var r := Run1(s, w);
    assert r.out + "" == r.out;
    assert s.out + Marked(w) + " " == s.out + (Marked(w) + " ");
    assert r.out + "\\'" + " " == (r.out + "\\'") + " ";
  }

  lemma DoublePasses(s: Pass1, p: string)
    requires Open(s)
    ensures Passed(s, InDouble(p)) && Ended(s, InDouble(p))
  {
    Quoted1(s, p);
    ThenSpace(s, Quoted(p));
    assert s.out + Quoted(p) + " " == s.out + (Quoted(p) + " ");
  }

  lemma OneThen(s: Pass1, c: char, rest: string)
    ensures Run1(s, [c] + rest) == Run1(Step1(s, c), rest)
  {
    assert ([c] + rest)[1..] == rest;
  }

  /** Inside single quotes, up to the one that closes them. */
  lemma SingleInside(s: Pass1, p: string)
    requires Open(s)
    ensures var r := Run1(s, "'" + Protected(p));
            Calm(r) && r.quotes % 2 == 1 && r.out == s.out + ("'" + Protected(p))
  {
    var s1 := Step1(s, '\'');
    OneThen(s, '\'', Protected(p));
    Protected1(s1, p);
    Regroup(s.out, "'", Protected(p));
  }

  lemma SinglePasses(s: Pass1, p: string)
    requires Open(s)
    ensures Passed(s, InSingle(p)) && Ended(s, InSingle(p))
  {
    var inside, whole := "'" + Protected(p), "'" + (Protected(p) + "'");
    assert whole == inside + "'";
    SingleInside(s, p);
    RunAppend1(s, inside, "'");
    var r := Run1(s, inside);
    assert "'"[1..] == "" && Run1(r, "'") == Run1(Step1(r, '\''), "") == Step1(r, '\'');
    ThenSpace(s, whole);
    assert r.out + "'" == s.out + whole;
    assert r.out + "'" + " " == s.out + (whole + " ");
  }

  lemma TokenPasses(s: Pass1, t: Token)
    requires Open(s) && Good(t)
    ensures Passed(s, t) && Ended(s, t)
  {
    match t {
      case Bare(w) => BarePasses(s, w);
      case InDouble(p) => DoublePasses(s, p);
      case InSingle(p) => SinglePasses(s, p);
    }
  }

  lemma TokenThen(s: Pass1, t: Token, more: string, outs: string)
    requires Passed(s, t) && Finish1(Run1(Run1(s, Spelled(t) + " "), more)) == s.out + (Out(t) + " ") + outs
    ensures Finish1(Run1(s, Spelled(t) + " " + more)) == s.out + (Out(t) + " " + outs)
  {
    RunAppend1(s, Spelled(t) + " ", more);
    Regroup(s.out, Out(t) + " ", outs);
  }

  lemma {:induction false} RunTokens(s: Pass1, ts: seq<Token>)
    requires Open(s) && AllGood(ts)
    ensures Finish1(Run1(s, Joined(ts))) == s.out + Outs(ts)
    decreases |ts|
  {
    if ts == [] {
      assert s.out + "" == s.out;
    } else if |ts| == 1 {
      TokenPasses(s, ts[0]);
    } else {
      TokenPasses(s, ts[0]);
      RunTokens(Run1(s, Spelled(ts[0]) + " "), ts[1..]);
      TokenThen(s, ts[0], Joined(ts[1..]), Outs(ts[1..]));
    }
  }

  /** The first pass marks the apostrophes of words and nothing else. */
  lemma TokensEscaped(ts: seq<Token>)
    requires AllGood(ts)
    ensures Escaped(Joined(ts)) == Outs(ts)
  {
    RunTokens(START1, ts);
    assert "" + Outs(ts) == Outs(ts);
  }

  // ----- the second pass -----

  function Between(words: seq<string>): Pass2 {
    Pass2(words, "", false, false, false)
  }

  lemma {:induction false} BareTerm(phrase: string -> string, words: seq<string>, term: string, w: string)
    requires forall i :: 0 <= i < |w| ==> !IsSpace(w[i]) && w[i] != '"' && w[i] != '\\'
    ensures Run2(phrase, Pass2(words, term, false, false, false), Marked(w))
         == Pass2(words, term + w, false, false, false)
    decreases |w|
  {
    var s := Pass2(words, term, false, false, false);
    if w == "" {
      assert term + w == term;
    } else {
      var first := if w[0] == '\'' then "\\'" else [w[0]];
      RunAppend2(phrase, s, first, Marked(w[1..]));
      assert "\\'"[1..] == "'" && "'"[1..] == "" && [w[0]][1..] == "";
      BareTerm(phrase, words, term + [w[0]], w[1..]);
      assert term + [w[0]] + w[1..] == term + w;
    }
  }

  lemma {:induction false} SingleTerm(phrase: string -> string, words: seq<string>, term: string, p: string)
    ensures Run2(phrase, Pass2(words, term, true, false, false), Protected(p))
         == Pass2(words, term + p, true, false, false)
    decreases |p|
  {
    var s := Pass2(words, term, true, false, false);
    if p == "" {
      assert term + p == term;
    } else {
      var first := if Special(p[0]) then ['\\', p[0]] else [p[0]];
      RunAppend2(phrase, s, first, Protected(p[1..]));
      assert ['\\', p[0]][1..] == [p[0]] && [p[0]][1..] == "";
      SingleTerm(phrase, words, term + [p[0]], p[1..]);
      assert term + [p[0]] + p[1..] == term + p;
    }
  }

  lemma SingleWord(phrase: string -> string, words: seq<string>, p: string)
    requires phrase(p) != ""
    ensures Run2(phrase, Between(words), "'" + (Protected(p) + "'")) == Between(words + [phrase(p)])
  {
    RunAppend2(phrase, Between(words), "'", Protected(p) + "'");
    assert "'"[1..] == "" && "" + p == p;
    RunAppend2(phrase, Pass2(words, "", true, false, false), Protected(p), "'");
    SingleTerm(phrase, words, "", p);
  }

  /** What is left of the second pass at its end. */
  function Last(phrase: string -> string, s: Pass2): seq<string> {
    if s.term != "" then AddTerm(s, phrase(s.term)).words else s.words
  }

  /** A token, and a token with a space behind it, add its phrase. */
  lemma TokenWord(phrase: string -> string, words: seq<string>, t: Token)
    requires Good(t) && phrase(t.p) != ""
    ensures Run2(phrase, Between(words), Out(t) + " ") == Between(words + [phrase(t.p)])
    ensures Last(phrase, Run2(phrase, Between(words), Out(t))) == words + [phrase(t.p)]
  {
    RunAppend2(phrase, Between(words), Out(t), " ");
    assert " "[1..] == "";
    match t {
      case Bare(w) =>
        BareTerm(phrase, words, "", w);
        assert "" + w == w;
      case InDouble(p) => Quoted2(phrase, words, p);
      case InSingle(p) => SingleWord(phrase, words, p);
    }
  }

  function Contents(ts: seq<Token>): (ps: seq<string>)
    ensures |ps| == |ts| && forall i :: 0 <= i < |ts| ==> ps[i] == ts[i].p
  {
    seq(|ts|, i requires 0 <= i < |ts| => ts[i].p)
  }

  lemma {:induction false} RunWords(phrase: string -> string, words: seq<string>, ts: seq<Token>)
    requires AllGood(ts) && forall i :: 0 <= i < |ts| ==> phrase(ts[i].p) != ""
    ensures Last(phrase, Run2(phrase, Between(words), Outs(ts))) == words + Phrases(phrase, Contents(ts))
    decreases |ts|
  {
    if ts == [] {
      assert words + Phrases(phrase, Contents(ts)) == words;
    } else {
      var next := words + [phrase(ts[0].p)];
      TokenWord(phrase, words, ts[0]);
      if |ts| == 1 {
        assert next == words + Phrases(phrase, Contents(ts));
      } else {
        RunAppend2(phrase, Between(words), Out(ts[0]) + " ", Outs(ts[1..]));
        RunWords(phrase, next, ts[1..]);
        assert next + Phrases(phrase, Contents(ts[1..])) == words + Phrases(phrase, Contents(ts));
      }
    }
  }

  /** Words, their apostrophes included, and phrases in either quotes come back in order, each once and
      whole. */
  lemma TokensComeBack(phrase: string -> string, ts: seq<Token>)
    requires forall p :: p != "" ==> phrase(p) != ""
    requires AllGood(ts)
    ensures Words(phrase, Joined(ts)) == Phrases(phrase, Contents(ts))
  {
    TokensEscaped(ts);
    RunWords(phrase, [], ts);
    assert [] + Phrases(phrase, Contents(ts)) == Phrases(phrase, Contents(ts));
  }
}
