/** Which links man2html puts into a line of output (man/man2html.cpp:700-1007), as a function of
    the line, and that nothing of the line is lost. */
module ManLinks {
  import opened Text

  /** What is put out: text of the line as it is; text of the line inside an anchor; or the name
      of a header found in `dir`, for which `raw` stands in the line. */
  datatype Piece =
    | Plain(s: string)
    | Anchor(href: string, s: string)
    | Include(dir: string, raw: string)

  /** The stretch of the line a piece stands for. */
  function Source(p: Piece): string {
    match p
    case Plain(s) => s
    case Anchor(_, s) => s
    case Include(_, raw) => raw + "&gt;"
  }

  /** What a reader sees of it once tags are erased. */
  function Visible(p: Piece): string {
    match p
    case Plain(s) => s
    case Anchor(_, s) => s
    case Include(_, raw) => Trim(raw) + "&gt;"
  }

  function Sources(ps: seq<Piece>): string {
    if ps == [] then "" else Source(ps[0]) + Sources(ps[1..])
  }

  lemma {:induction false} SourcesAppend(a: seq<Piece>, b: seq<Piece>)
    ensures Sources(a + b) == Sources(a) + Sources(b)
  {
    if a == [] {
      assert a + b == b;
    } else {
      assert (a + b)[1..] == a[1..] + b;
      SourcesAppend(a[1..], b);
    }
  }

  lemma SourcesOne(p: Piece)
    ensures Sources([p]) == Source(p)
  {
    assert [p][1..] == [];
  }

  lemma SourcesTwo(p: Piece, q: Piece)
    ensures Sources([p, q]) == Source(p) + Source(q)
  {
    assert [p, q][1..] == [q];
    SourcesOne(q);
  }

  lemma SourcesThree(p: Piece, q: Piece, r: Piece)
    ensures Sources([p, q, r]) == Source(p) + (Source(q) + Source(r))
  {
    assert [p, q, r][1..] == [q, r];
    SourcesTwo(q, r);
  }

  // ----- characters -----

  function ToLower(s: string): (r: string)
    ensures |r| == |s|
  {
    seq(|s|, i requires 0 <= i < |s| => if 'A' <= s[i] <= 'Z' then (s[i] as int + 32) as char else s[i])
  }

  predicate HostChar(c: char) { IsAlnum(c) || c == '_' || c == '-' || c == '+' || c == '.' || c == '/' }
  predicate UserChar(c: char) { IsAlnum(c) || c == '_' || c == '-' || c == '+' || c == '.' || c == '%' }
  predicate MailHostChar(c: char) { IsAlnum(c) || c == '_' || c == '-' || c == '+' || c == '.' }
  predicate NameChar(c: char) { IsAlnum(c) || c == '_' || c == ':' || c == '-' || c == '.' }
  predicate UrlChar(c: char) { !IsSpace(c) && c != '<' && c != '>' && c != '"' && c != '&' }
  predicate NotSemicolon(c: char) { c != ';' }

  // ----- searches -----

  /** What `out_html` collects: up to a newline, or up to the length of its buffer without one. */
  predicate Line(s: string) {
    s != "" && Free('\0', s)
  }

  predicate EndsInNewline(s: string) {
    s != "" && s[|s| - 1] == '\n'
  }

  /** The first occurrence of `pattern` at or after `i`, or -1. */
  function Find(s: string, pattern: string, i: nat): (r: int)
    ensures -1 <= r
    ensures r >= 0 ==> i <= r && OccursAt(s, pattern, r) && forall k :: i <= k < r ==> !OccursAt(s, pattern, k)
    ensures r == -1 ==> forall k :: i <= k ==> !OccursAt(s, pattern, k)
    decreases |s| - i
  {
    if i + |pattern| > |s| then -1
    else if s[i..i + |pattern|] == pattern then i
    else Find(s, pattern, i + 1)
  }

  function Forward(s: string, i: nat, p: char -> bool): (r: nat)
    requires i <= |s|
    ensures i <= r <= |s| && (r < |s| ==> !p(s[r])) && forall k :: i <= k < r ==> p(s[k])
    decreases |s| - i
  {
    if i < |s| && p(s[i]) then Forward(s, i + 1, p) else i
  }

  function Backward(s: string, from: nat, c: nat, p: char -> bool): (r: nat)
    requires c <= from <= |s|
    ensures c <= r <= from
    ensures forall k :: r <= k < from ==> p(s[k])
    ensures r > c ==> !p(s[r - 1])
  {
    if from > c && p(s[from - 1]) then Backward(s, from - 1, c, p) else from
  }

  const PATTERNS := ["://", "@", "www.", "ftp.", "(", ".h&gt;"]

  /** Patterns 2 and 3 may begin at the cursor, the others only behind it. */
  function Match(s: string, c: nat, k: nat): int
    requires k < 6
  {
    Find(s, PATTERNS[k], if k == 2 || k == 3 then c else c + 1)
  }

  /** The matcher whose match comes first, or -1. */
  function Nearest(m: seq<int>, k: nat): (j: int)
    requires k <= |m|
    ensures -1 <= j < k
    ensures j >= 0 ==> m[j] >= 0 && forall i :: 0 <= i < k && m[i] >= 0 ==> m[j] <= m[i]
    ensures j == -1 ==> forall i :: 0 <= i < k ==> m[i] < 0
  {
    if k == 0 then -1
    else
      var j := Nearest(m, k - 1);
      if m[k - 1] >= 0 && (j < 0 || m[k - 1] < m[j]) then k - 1 else j
  }

  // ----- the six cases: what is put out and where the cursor goes -----

  datatype Cut = Cut(pieces: seq<Piece>, c: int)

  /** `<name.h>`; `header` tells in which directory a header can be read. */
  function CutInclude(s: string, c: nat, f: nat, header: string -> Option<string>): Cut
    requires c < f && f + 6 <= |s|
  {
    var g := Backward(s, f, c, NotSemicolon);
    if g != c && header(Trim(s[g..f + 2])).Some? then
      Cut([Plain(s[c..g]), Include(header(Trim(s[g..f + 2])).value, s[g..f + 2])], f + 6)
    else Cut([Plain(s[c..f + 5])], f + 5)
  }

  function CutUrl(s: string, c: nat, f: nat): Cut
    requires c < f && f + 3 <= |s|
  {
    var g := Backward(s, f, c, IsLower);
    var h := Forward(s, f + 3, UrlChar);
    if 2 < f - g < 7 && h - f > 3 && (Find(s, "http://", c) >= 0 || Find(s, "ftp://", c) >= 0) then
      Cut([Plain(s[c..g]), Anchor(s[g..h], s[g..h])], h)
    else Cut([Plain(s[c..f + 1])], f + 1)
  }

  function MailStart(s: string, c: nat, f: nat): (g: nat)
    requires c <= f <= |s|
    ensures c <= g <= f
  {
    var g := Backward(s, f, c, UserChar);
    if g >= c + 7 && s[g - 7..g] == "mailto:" then g - 7 else g
  }

  function CutMail(s: string, c: nat, f: nat): Cut
    requires c < f && f + 1 <= |s|
  {
    var g := MailStart(s, c, f);
    var h := Forward(s, f + 1, MailHostChar);
    if h - f > 4 && f - g > 1 then Cut([Plain(s[c..g]), Anchor("mailto:" + s[g..h], s[g..h])], h)
    else Cut([Plain(s[c..f])], f)
  }

  function CutHost(s: string, c: nat, f: nat, protocol: string): Cut
    requires c <= f && f + 4 <= |s| && HostChar(s[f])
  {
    var g := HostEnd(s, f);
    if g - f > 4 then Cut([Plain(s[c..f]), Anchor(protocol + "://" + s[f..g], s[f..g])], g)
    else Cut([Plain(s[c..f + 3])], f + 3)
  }

  /** Whether "(...)" at `f` reads as a section, with something it can belong to in front. */
  predicate IsSection(s: string, c: nat, f: nat) {
    var g := Find(s, ")", f);
    && g >= 0 && c < f && g - f < 12 && f + 2 < |s|
    && (IsAlnum(s[f - 1]) || s[f - 1] == '>' || s[f - 1] == ';')
    && (IsDigit(s[f + 1]) || s[f + 1] == 'n') && s[f + 1] != '0'
    && (g - f <= 2 || IsAlpha(s[f + 2]))
    && forall k :: f + 2 <= k < g ==> IsAlnum(s[k])
  }

  /** Where a hard space in front of the section ends the name; a semicolon of anything else
      means there is none. */
  function NameEnd(s: string, c: nat, f: nat): (h: int)
    requires c < f <= |s|
    ensures h == -1 || c <= h < f
  {
    if f - 1 > c + 5 && s[f - 6..f] == "&nbsp;" then f - 7
    else if f - 1 > c + 6 && s[f - 7..f] == "&#8239;" then f - 8
    else if s[f - 1] == ';' then -1
    else f - 1
  }

  function TagStart(s: string, h: nat, c: nat): (r: nat)
    requires c <= h < |s|
    ensures c <= r <= h
  {
    if h != c && s[h] != '<' then TagStart(s, h - 1, c) else h
  }

  /** Backwards over markup. */
  function SkipTags(s: string, h: nat, c: nat): (r: nat)
    requires c <= h < |s|
    ensures c <= r <= h
    decreases h
  {
    if h > c && s[h] == '>' then
      var t := TagStart(s, h, c);
      if t != c then SkipTags(s, t - 1, c) else t
    else h
  }

  lemma SectionEnds(s: string, c: nat, f: nat)
    requires f < |s| && s[f] == '(' && IsSection(s, c, f)
    ensures f + 2 <= Find(s, ")", f) < |s|
  {
    var g := Find(s, ")", f);
    assert s[g..g + 1][0] == s[g];
  }

  datatype Page = Page(start: nat, end: nat, href: string)

  /** The page that the name from `start` to `last` and the section in "(...)" at `f` stand for. */
  function Href(s: string, f: nat, g: nat, start: nat, last: nat): string
    requires start <= last < |s| && f + 2 <= g <= |s|
  {
    "man:/" + s[start..last + 1] + "(" + ([s[f + 1]] + ToLower(s[f + 2..g])) + ")"
  }

  /** The name in front of a section, and what it is linked to. */
  function FindPage(s: string, c: nat, f: nat): (p: Option<Page>)
    requires c < f < |s| && s[f] == '('
    ensures p.Some? ==> c <= p.value.start <= p.value.end <= f
  {
    var h := if IsSection(s, c, f) then NameEnd(s, c, f) else -1;
    if h == -1 || !IsAlnum(s[SkipTags(s, h, c)]) then None
    else
      SectionEnds(s, c, f);
      var last := SkipTags(s, h, c);
      var start := Backward(s, last, c, NameChar);
      Some(Page(start, last + 1, Href(s, f, Find(s, ")", f), start, last)))
  }

  function CutManPage(s: string, c: nat, f: nat): Cut
    requires c < f < |s| && s[f] == '('
  {
    match FindPage(s, c, f)
    case None => Cut([Plain(s[c..f])], f)
    case Some(p) => Cut([Plain(s[c..p.start]), Anchor(p.href, s[p.start..p.end]), Plain(s[p.end..f])], f)
  }

  function CutAt(s: string, c: nat, j: nat, f: nat, header: string -> Option<string>): Cut
    requires j < 6 && f == Match(s, c, j)
  {
    MatchInside(s, c, j);
    if j == 2 || j == 3 then
      HostInside(s, c, j);
      CutHost(s, c, f, if j == 3 then "ftp" else "http")
    else if j == 5 then CutInclude(s, c, f, header)
    else if j == 4 then CutManPage(s, c, f)
    else if j == 1 then CutMail(s, c, f)
    else CutUrl(s, c, f)
  }

  /** A match lies inside the line. */
  lemma MatchInside(s: string, c: nat, j: nat)
    requires j < 6 && Match(s, c, j) >= 0
    ensures var f := Match(s, c, j);
            && c <= f && (j != 2 && j != 3 ==> c < f)
            && f + |PATTERNS[j]| <= |s| && s[f..f + |PATTERNS[j]|] == PATTERNS[j]
            && forall i :: 0 <= i < |PATTERNS[j]| ==> s[f + i] == PATTERNS[j][i]
  {
    var f, p := Match(s, c, j), PATTERNS[j];
    assert forall i :: 0 <= i < |p| ==> p[i] == s[f..f + |p|][i] == s[f + i];
  }

  lemma HostInside(s: string, c: nat, j: nat)
    requires (j == 2 || j == 3) && Match(s, c, j) >= 0
    ensures var f := Match(s, c, j);
            && c <= f && f + 4 <= |s| && s[f + 3] == '.'
            && HostChar(s[f]) && HostChar(s[f + 1]) && HostChar(s[f + 2])
  {
    MatchInside(s, c, j);
    var f, p := Match(s, c, j), PATTERNS[j];
    assert |p| == 4 && s[f + 0] == p[0] && s[f + 1] == p[1] && s[f + 2] == p[2] && s[f + 3] == p[3];
  }

  lemma Glue(s: string, a: nat, b: nat, c: nat)
    requires a <= b <= c <= |s|
    ensures s[a..b] + s[b..c] == s[a..c]
  {
  }

  lemma PlainGlued(s: string, a: nat, b: nat)
    requires a <= b <= |s|
    ensures Sources([Plain(s[a..b])]) == s[a..b]
  {
    SourcesOne(Plain(s[a..b]));
  }

  lemma AnchorGlued(s: string, a: nat, b: nat, c: nat, href: string)
    requires a <= b <= c <= |s|
    ensures Sources([Plain(s[a..b]), Anchor(href, s[b..c])]) == s[a..c]
  {
    SourcesTwo(Plain(s[a..b]), Anchor(href, s[b..c]));
    Glue(s, a, b, c);
  }

  lemma PageGlued(s: string, a: nat, b: nat, c: nat, d: nat, href: string)
    requires a <= b <= c <= d <= |s|
    ensures Sources([Plain(s[a..b]), Anchor(href, s[b..c]), Plain(s[c..d])]) == s[a..d]
  {
    SourcesThree(Plain(s[a..b]), Anchor(href, s[b..c]), Plain(s[c..d]));
    Glue(s, b, c, d);
    Glue(s, a, b, d);
  }

  lemma HeaderTail(s: string, f: nat)
    requires f + 6 <= |s| && s[f..f + 6] == ".h&gt;"
    ensures s[f + 2..f + 6] == "&gt;"
  {
    var t := s[f..f + 6];
    assert t[2] == s[f + 2] && t[3] == s[f + 3] && t[4] == s[f + 4] && t[5] == s[f + 5];
  }

  lemma IncludeSource(plain: string, dir: string, raw: string, end: string)
    requires end == "&gt;"
    ensures Sources([Plain(plain), Include(dir, raw)]) == plain + (raw + end)
  {
    SourcesTwo(Plain(plain), Include(dir, raw));
  }

  lemma IncludeGlued(s: string, a: nat, b: nat, f: nat, dir: string)
    requires a <= b <= f && f + 6 <= |s| && s[f + 2..f + 6] == "&gt;"
    ensures Sources([Plain(s[a..b]), Include(dir, s[b..f + 2])]) == s[a..f + 6]
  {
    IncludeSource(s[a..b], dir, s[b..f + 2], s[f + 2..f + 6]);
    Glue(s, b, f + 2, f + 6);
    Glue(s, a, b, f + 6);
  }

  /** What a cut puts out is what it passes over. */
  predicate Conserves(s: string, c: nat, cut: Cut) {
    c < cut.c <= |s| && Sources(cut.pieces) == s[c..cut.c]
  }

  lemma IncludeConserves(s: string, c: nat, f: nat, header: string -> Option<string>)
    requires c < f && f + 6 <= |s| && s[f + 2..f + 6] == "&gt;"
    ensures Conserves(s, c, CutInclude(s, c, f, header))
  {
    var g := Backward(s, f, c, NotSemicolon);
    var dir := header(Trim(s[g..f + 2]));
    if g != c && dir.Some? {
      IncludeGlued(s, c, g, f, dir.value);
    } else {
      PlainGlued(s, c, f + 5);
    }
  }

  lemma UrlConserves(s: string, c: nat, f: nat)
    requires c < f && f + 3 <= |s|
    ensures Conserves(s, c, CutUrl(s, c, f))
  {
    var g, h := Backward(s, f, c, IsLower), Forward(s, f + 3, UrlChar);
    PlainGlued(s, c, f + 1);
    AnchorGlued(s, c, g, h, s[g..h]);
  }

  lemma MailConserves(s: string, c: nat, f: nat)
    requires c < f && f + 1 <= |s|
    ensures Conserves(s, c, CutMail(s, c, f))
  {
    var g, h := MailStart(s, c, f), Forward(s, f + 1, MailHostChar);
    PlainGlued(s, c, f);
    AnchorGlued(s, c, g, h, "mailto:" + s[g..h]);
  }

  function HostEnd(s: string, f: nat): (g: nat)
    requires f + 4 <= |s| && HostChar(s[f])
    ensures f <= g <= |s|
  {
    var e := Forward(s, f, HostChar);
    if s[e - 1] == '.' then e - 1 else e
  }

  lemma HostConserves(s: string, c: nat, f: nat, protocol: string)
    requires c <= f && f + 4 <= |s| && HostChar(s[f])
    ensures Conserves(s, c, CutHost(s, c, f, protocol))
  {
    var g := HostEnd(s, f);
    PlainGlued(s, c, f + 3);
    AnchorGlued(s, c, f, g, protocol + "://" + s[f..g]);
  }

  lemma ManPageConserves(s: string, c: nat, f: nat)
    requires c < f < |s| && s[f] == '('
    ensures Conserves(s, c, CutManPage(s, c, f))
  {
    PlainGlued(s, c, f);
    var page := FindPage(s, c, f);
    if page.Some? {
      PageGlued(s, c, page.value.start, page.value.end, f, page.value.href);
    }
  }

  /** The cursor always moves on, inside the line, and what is put out is what it passed over. */
  lemma CutConserves(s: string, c: nat, j: nat, header: string -> Option<string>)
    requires j < 6 && Match(s, c, j) >= 0
    ensures var cut := CutAt(s, c, j, Match(s, c, j), header);
            Conserves(s, c, cut)
  {
    MatchInside(s, c, j);
    var f := Match(s, c, j);
    if j == 5 {
      HeaderTail(s, f);
      IncludeConserves(s, c, f, header);
    }
    else if j == 4 { ManPageConserves(s, c, f); }
    else if j == 2 || j == 3 {
      HostInside(s, c, j);
      HostConserves(s, c, f, if j == 3 then "ftp" else "http");
    }
    else if j == 1 { MailConserves(s, c, f); }
    else { UrlConserves(s, c, f); }
  }

  // ----- the whole line -----

  function Matches(s: string, c: nat): (m: seq<int>)
    ensures |m| == 6
  {
    seq(6, k requires 0 <= k < 6 => Match(s, c, k))
  }

  /** What is put out for the line from the cursor on. */
  function Links(s: string, c: nat, header: string -> Option<string>): seq<Piece>
    requires c <= |s|
    decreases |s| - c
  {
    var j := Nearest(Matches(s, c), 6);
    if j < 0 then [Plain(s[c..|s|])]
    else
      CutConserves(s, c, j, header);
      var cut := CutAt(s, c, j, Match(s, c, j), header);
      cut.pieces + Links(s, cut.c, header)
  }

  /** Nothing is lost and nothing comes twice: the pieces stand for the line, in order. */
  lemma {:induction false} LinksConserve(s: string, c: nat, header: string -> Option<string>)
    requires c <= |s|
    ensures Sources(Links(s, c, header)) == s[c..|s|]
    decreases |s| - c
  {
    var j := Nearest(Matches(s, c), 6);
    if j < 0 {
      SourcesOne(Plain(s[c..|s|]));
    } else {
      CutConserves(s, c, j, header);
      var cut := CutAt(s, c, j, Match(s, c, j), header);
      LinksConserve(s, cut.c, header);
      SourcesAppend(cut.pieces, Links(s, cut.c, header));
      Glue(s, c, cut.c, |s|);
    }
  }

  // ----- where the searches begin -----

  /** A turn that ends at the end of the line leaves a match behind the cursor that is looked for again
      from the character after the cursor on, which is behind the terminator of the line. */
  predicate Strays(s: string, c: nat, c2: nat) {
    c2 == |s| && exists k {:trigger Match(s, c, k)} :: 0 <= k < 6 && k != 2 && k != 3 && Match(s, c, k) >= 0
  }

  /** No turn does. */
  predicate StaysInside(s: string, c: nat, header: string -> Option<string>)
    requires c <= |s|
    decreases |s| - c
  {
    var j := Nearest(Matches(s, c), 6);
    j >= 0 ==>
      (CutConserves(s, c, j, header);
       var cut := CutAt(s, c, j, Match(s, c, j), header);
       !Strays(s, c, cut.c) && StaysInside(s, cut.c, header))
  }

  lemma ForwardStops(s: string, i: nat, p: char -> bool)
    requires EndsInNewline(s) && i < |s| && !p('\n')
    ensures Forward(s, i, p) < |s|
  {
  }

  /** In a line that ends in a newline no turn reaches the end. */
  lemma CutBefore(s: string, c: nat, j: nat, header: string -> Option<string>)
    requires EndsInNewline(s) && j < 6 && Match(s, c, j) >= 0
    ensures CutAt(s, c, j, Match(s, c, j), header).c < |s|
  {
    MatchInside(s, c, j);
    var f, p := Match(s, c, j), PATTERNS[j];
    assert p[|p| - 1] != '\n';
    assert s[f + (|p| - 1)] != '\n';
    if j == 0 {
      ForwardStops(s, f + 3, UrlChar);
    } else if j == 1 {
      ForwardStops(s, f + 1, MailHostChar);
    } else if j == 2 || j == 3 {
      HostInside(s, c, j);
      ForwardStops(s, f, HostChar);
    }
  }

  /** So such a line is searched inside only. */
  lemma {:induction false} NewlineStays(s: string, c: nat, header: string -> Option<string>)
    requires EndsInNewline(s) && c <= |s|
    ensures StaysInside(s, c, header)
    decreases |s| - c
  {
    var j := Nearest(Matches(s, c), 6);
    if j >= 0 {
      CutConserves(s, c, j, header);
      CutBefore(s, c, j, header);
      NewlineStays(s, CutAt(s, c, j, Match(s, c, j), header).c, header);
    }
  }

  predicate AllAlnum(s: string) {
    forall i :: 0 <= i < |s| ==> IsAlnum(s[i])
  }

  predicate MailLine(s: string, f: nat) {
    2 <= f && f + 5 <= |s| && s[f] == '@' && forall i :: 0 <= i < |s| && i != f ==> IsAlnum(s[i])
  }

  lemma MailCut(s: string, f: nat)
    requires MailLine(s, f)
    ensures CutMail(s, 0, f).c == |s|
  {
    assert forall i :: 0 <= i < f ==> UserChar(s[i]);
    assert forall i :: f < i < |s| ==> MailHostChar(s[i]);
    assert Backward(s, f, 0, UserChar) == 0;
    assert Forward(s, f + 1, MailHostChar) == |s|;
  }

  lemma MailFirst(s: string, f: nat)
    requires MailLine(s, f)
    ensures Match(s, 0, 1) == f && Nearest(Matches(s, 0), 6) == 1
  {
    var m := Matches(s, 0);
    forall k | 0 <= k < 6 ensures m[k] == if k == 1 then f else -1 {
      OnlyMail(s, f, k);
    }
    assert m[1] == Match(s, 0, 1);
  }

  lemma MailLineStrays(s: string, f: nat, header: string -> Option<string>)
    requires MailLine(s, f)
    ensures !StaysInside(s, 0, header)
  {
    MailFirst(s, f);
    MailCut(s, f);
    CutConserves(s, 0, 1, header);
    assert Strays(s, 0, CutAt(s, 0, 1, f, header).c);
  }

  /** An over-long line cut off behind a mail address is not: its search goes on behind the end. */
  lemma MailAtEndStrays(user: string, host: string, header: string -> Option<string>)
    requires AllAlnum(user) && AllAlnum(host) && |user| >= 2 && |host| >= 4
    ensures !StaysInside(user + "@" + host, 0, header)
  {
    MailLineStrays(user + "@" + host, |user|, header);
  }

  lemma OnlyMail(s: string, f: nat, k: nat)
    requires k < 6 && MailLine(s, f)
    ensures Match(s, 0, k) == if k == 1 then f else -1
  {
    var m, p := Match(s, 0, k), PATTERNS[k];
    if m >= 0 {
      MatchInside(s, 0, k);
      assert s[m + 0] == p[0] && s[m + (|p| - 1)] == p[|p| - 1];
    }
    if k == 1 {
      assert s[f..f + 1] == "@";
      assert OccursAt(s, "@", f);
    }
  }

  /** What a reader sees once the inserted tags are erased. */
  function Erased(ps: seq<Piece>): string {
    if ps == [] then "" else Visible(ps[0]) + Erased(ps[1..])
  }

  lemma {:induction false} ErasedIsSource(ps: seq<Piece>)
    requires forall p :: p in ps && p.Include? ==> Trim(p.raw) == p.raw
    ensures Erased(ps) == Sources(ps)
  {
    if ps != [] {
      assert forall p :: p in ps[1..] ==> p in ps;
      ErasedIsSource(ps[1..]);
    }
  }

  /** With the inserted tags erased the output is the line; only white space around the name of a
      linked header is missing. */
  lemma ErasedIsLine(s: string, header: string -> Option<string>)
    requires forall p :: p in Links(s, 0, header) && p.Include? ==> Trim(p.raw) == p.raw
    ensures Erased(Links(s, 0, header)) == s
  {
    LinksConserve(s, 0, header);
    ErasedIsSource(Links(s, 0, header));
    assert s[0..|s|] == s;
  }
}
