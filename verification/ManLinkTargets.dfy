/** Where the links that man2html puts into a line lead, read off the text of each link and what stands
    behind it, and that plain host names, addresses, URLs, pages and headers are linked
    (man/man2html.cpp:704-721, 723-1006). */
module ManLinkTargets {
  import opened Text
  import opened ManLinks

  // ----- every link -----

  /** The section in the first parentheses. */
  function Section(behind: string): string {
    var f := IndexOf(behind, '(', 0);
    var g := if f < 0 then -1 else IndexOf(behind, ')', f);
    if g < f + 2 then "" else [behind[f + 1]] + ToLower(behind[f + 2..g])
  }

  /** Where a text that stands in front of `behind` leads: a host name, a URL, an address, or a page. */
  function Target(text: string, behind: string): string {
    if StartsWith(text, "www.") then "http://" + text
    else if StartsWith(text, "ftp.") then "ftp://" + text
    else if Contains(text, "://") then text
    else if !Free('@', text) then "mailto:" + text
    else "man:/" + text + "(" + Section(behind) + ")"
  }

  predicate Leads(p: Piece, behind: string, header: string -> Option<string>) {
    match p
    case Plain(_) => true
    case Anchor(href, text) => href == Target(text, behind)
    case Include(dir, raw) => header(Trim(raw)) == Some(dir)
  }

  /** So does every piece of the line. */
  predicate AllLead(ps: seq<Piece>, header: string -> Option<string>) {
    ps == [] || (Leads(ps[0], Sources(ps[1..]), header) && AllLead(ps[1..], header))
  }

  lemma PlainFirst(a: string, ps: seq<Piece>, header: string -> Option<string>)
    requires AllLead(ps, header)
    ensures AllLead([Plain(a)] + ps, header)
  {
    assert ([Plain(a)] + ps)[1..] == ps;
  }

  lemma LinkBehind(a: string, p: Piece, ps: seq<Piece>, header: string -> Option<string>)
    requires AllLead(ps, header) && Leads(p, Sources(ps), header)
    ensures AllLead([Plain(a), p] + ps, header)
  {
    LinkFirst(p, ps, header);
    PlainFirst(a, [p] + ps, header);
    TwoFirst(Plain(a), p, ps);
  }

  lemma LinkFirst(p: Piece, ps: seq<Piece>, header: string -> Option<string>)
    requires AllLead(ps, header) && Leads(p, Sources(ps), header)
    ensures AllLead([p] + ps, header)
  {
    assert ([p] + ps)[1..] == ps;
  }

  lemma TwoFirst(a: Piece, b: Piece, ps: seq<Piece>)
    ensures [a, b] + ps == [a] + ([b] + ps)
  {
  }

  lemma LinkBetween(a: string, p: Piece, b: string, ps: seq<Piece>, header: string -> Option<string>)
    requires AllLead(ps, header) && Leads(p, b + Sources(ps), header)
    ensures AllLead([Plain(a), p, Plain(b)] + ps, header)
  {
    PlainFirst(b, ps, header);
    SourcesOne(Plain(b));
    SourcesAppend([Plain(b)], ps);
    assert [Plain(a), p, Plain(b)] + ps == [Plain(a), p] + ([Plain(b)] + ps);
    LinkBehind(a, p, [Plain(b)] + ps, header);
  }

  /** No host name begins between the cursor and the nearest match. */
  lemma NoHostBefore(s: string, c: nat, j: nat, k: nat)
    requires c <= k && j == Nearest(Matches(s, c), 6) && k < Match(s, c, j)
    ensures !OccursAt(s, "www.", k) && !OccursAt(s, "ftp.", k)
  {
    var m := Matches(s, c);
    assert m[2] == Match(s, c, 2) && m[3] == Match(s, c, 3) && m[j] == Match(s, c, j);
  }

  lemma StartOccurs(s: string, a: nat, b: nat, p: string)
    requires a <= b <= |s| && StartsWith(s[a..b], p)
    ensures OccursAt(s, p, a)
  {
    assert s[a..b][..|p|] == s[a..a + |p|];
  }

  lemma HostLeads(s: string, c: nat, j: nat, f: nat, behind: string, header: string -> Option<string>)
    requires (j == 2 || j == 3) && f == Match(s, c, j) && f + 4 <= |s| && HostChar(s[f])
    ensures var g := HostEnd(s, f);
            g - f > 4 ==> Leads(Anchor((if j == 3 then "ftp" else "http") + "://" + s[f..g], s[f..g]), behind, header)
  {
    MatchInside(s, c, j);
    var g := HostEnd(s, f);
    if g - f > 4 {
      var text := s[f..g];
      assert text[..4] == s[f..f + 4] == PATTERNS[j];
      assert j == 3 ==> text[0] == 'f';
      assert "http" + "://" == "http://" && "ftp" + "://" == "ftp://";
    }
  }

  /** A text without a slash is no URL. */
  lemma NoSlash(text: string)
    requires Free('/', text)
    ensures !Contains(text, "://")
  {
    forall i | 0 <= i <= |text| ensures !OccursAt(text, "://", i) {
      if i + 3 <= |text| {
        assert text[i..i + 3][1] == text[i + 1];
      }
    }
  }

  lemma NotHost(s: string, c: nat, j: nat, a: nat, b: nat)
    requires c <= a <= b <= |s| && j == Nearest(Matches(s, c), 6) && a < Match(s, c, j)
    ensures !StartsWith(s[a..b], "www.") && !StartsWith(s[a..b], "ftp.")
  {
    NoHostBefore(s, c, j, a);
    if StartsWith(s[a..b], "www.") {
      StartOccurs(s, a, b, "www.");
    }
    if StartsWith(s[a..b], "ftp.") {
      StartOccurs(s, a, b, "ftp.");
    }
  }

  lemma MailText(s: string, c: nat, f: nat, behind: string, header: string -> Option<string>)
    requires c < f && f + 1 <= |s| && s[f] == '@'
    requires 1 == Nearest(Matches(s, c), 6) && f == Match(s, c, 1)
    ensures var g, h := MailStart(s, c, f), Forward(s, f + 1, MailHostChar);
            f - g > 1 ==> Leads(Anchor("mailto:" + s[g..h], s[g..h]), behind, header)
  {
    var g, h := MailStart(s, c, f), Forward(s, f + 1, MailHostChar);
    if f - g > 1 {
      var text := s[g..h];
      NotHost(s, c, 1, g, h);
      MailPlain(s, c, f);
      assert forall i :: 0 <= i < |text| ==> text[i] == s[g + i];
      assert text[f - g] == '@';
      MailTarget(text, behind);
    }
  }

  lemma MailTarget(text: string, behind: string)
    requires !StartsWith(text, "www.") && !StartsWith(text, "ftp.") && Free('/', text) && !Free('@', text)
    ensures Target(text, behind) == "mailto:" + text
  {
    NoSlash(text);
  }

  /** An address holds no slash. */
  lemma MailPlain(s: string, c: nat, f: nat)
    requires c < f && f + 1 <= |s| && s[f] == '@'
    ensures forall i :: MailStart(s, c, f) <= i < Forward(s, f + 1, MailHostChar) ==> s[i] != '/'
  {
    var g := Backward(s, f, c, UserChar);
    if MailStart(s, c, f) < g {
      assert forall i :: g - 7 <= i < g ==> s[i] == s[g - 7..g][i - (g - 7)];
    }
  }

  lemma UrlText(s: string, c: nat, f: nat, behind: string, header: string -> Option<string>)
    requires c < f && f + 3 <= |s| && s[f..f + 3] == "://"
    ensures var g, h := Backward(s, f, c, IsLower), Forward(s, f + 3, UrlChar);
            2 < f - g ==> Leads(Anchor(s[g..h], s[g..h]), behind, header)
  {
    var g, h := Backward(s, f, c, IsLower), Forward(s, f + 3, UrlChar);
    if 2 < f - g {
      var text := s[g..h];
      assert text[f - g..f - g + 3] == s[f..f + 3];
      assert OccursAt(text, "://", f - g);
      assert s[f..f + 3][0] == s[f];
      assert text[3] == s[g + 3] && text[3] != '.';
      assert text[..4][3] == text[3];
    }
  }

  /** No character before its first occurrence. */
  lemma FoundFirst(s: string, ch: char, i: nat)
    requires Find(s, [ch], i) >= 0
    ensures var r := Find(s, [ch], i); i <= r < |s| && s[r] == ch && forall k :: i <= k < r ==> s[k] != ch
  {
    var r := Find(s, [ch], i);
    assert s[r..r + 1][0] == s[r];
    forall k | i <= k < r ensures s[k] != ch {
      assert !OccursAt(s, [ch], k);
      assert s[k..k + 1] == [s[k]];
    }
  }

  lemma IndexBehind(s: string, ch: char, at: nat, from: nat, r: nat)
    requires at <= from <= r < |s| && s[r] == ch && forall k :: from <= k < r ==> s[k] != ch
    ensures IndexOf(s[at..], ch, from - at) == r - at
  {
    var t := s[at..];
    assert t[r - at] == ch;
    assert forall k :: from - at <= k < r - at ==> t[k] == s[at + k];
  }

  lemma SectionAt(t: string, f: nat, g: nat)
    requires f + 2 <= g < |t| && IndexOf(t, '(', 0) == f && IndexOf(t, ')', f) == g
    ensures Section(t) == [t[f + 1]] + ToLower(t[f + 2..g])
  {
  }

  lemma ParensFirst(s: string, c: nat, f: nat)
    requires f == Match(s, c, 4) && Find(s, ")", f) >= 0
    ensures forall k :: c < k < f && k < |s| ==> s[k] != '('
    ensures var g := Find(s, ")", f); f <= g < |s| && s[g] == ')' && forall k :: f <= k < g ==> s[k] != ')'
  {
    assert PATTERNS[4] == ['('];
    assert ")" == [')'];
    FoundFirst(s, '(', c + 1);
    FoundFirst(s, ')', f);
  }

  lemma SectionIn(s: string, at: nat, f: nat, g: nat)
    requires at <= f && f + 2 <= g < |s| && s[f] == '(' && s[g] == ')'
    requires (forall k :: at <= k < f ==> s[k] != '(') && (forall k :: f <= k < g ==> s[k] != ')')
    ensures Section(s[at..]) == [s[f + 1]] + ToLower(s[f + 2..g])
  {
    IndexBehind(s, '(', at, at, f);
    IndexBehind(s, ')', at, f, g);
    SectionAt(s[at..], f - at, g - at);
    SectionSlice(s, at, f, g);
  }

  lemma SectionRead(s: string, c: nat, f: nat, last: nat)
    requires c <= last < f < |s| && s[f] == '(' && f == Match(s, c, 4) && IsSection(s, c, f)
    ensures f + 2 <= Find(s, ")", f) < |s|
    ensures Section(s[last + 1..]) == [s[f + 1]] + ToLower(s[f + 2..Find(s, ")", f)])
  {
    SectionEnds(s, c, f);
    ParensFirst(s, c, f);
    SectionIn(s, last + 1, f, Find(s, ")", f));
  }

  lemma SectionSlice(s: string, at: nat, f: nat, g: nat)
    requires at <= f && f + 2 <= g <= |s|
    ensures var t := s[at..]; t[f - at + 1] == s[f + 1] && t[f - at + 2..g - at] == s[f + 2..g]
  {
  }

  lemma NameChars(s: string, c: nat, last: nat)
    requires c <= last < |s| && IsAlnum(s[last])
    ensures var text := s[Backward(s, last, c, NameChar)..last + 1]; Free('/', text) && Free('@', text)
  {
    var start := Backward(s, last, c, NameChar);
    var text := s[start..last + 1];
    assert forall i :: 0 <= i < |text| ==> text[i] == s[start + i];
  }

  /** The text of a page link: no host name, no slash, no at sign. */
  lemma NameText(s: string, c: nat, f: nat, last: nat)
    requires c <= last < f && f <= |s| && IsAlnum(s[last]) && 4 == Nearest(Matches(s, c), 6) && f == Match(s, c, 4)
    ensures var text := s[Backward(s, last, c, NameChar)..last + 1];
            && !StartsWith(text, "www.") && !StartsWith(text, "ftp.") && !Contains(text, "://") && Free('@', text)
  {
    var start := Backward(s, last, c, NameChar);
    NotHost(s, c, 4, start, last + 1);
    NameChars(s, c, last);
    NoSlash(s[start..last + 1]);
  }

  lemma PageText(s: string, c: nat, f: nat, header: string -> Option<string>)
    requires c < f < |s| && s[f] == '(' && 4 == Nearest(Matches(s, c), 6) && f == Match(s, c, 4)
    ensures var p := FindPage(s, c, f);
            p.Some? ==> Leads(Anchor(p.value.href, s[p.value.start..p.value.end]), s[p.value.end..], header)
  {
    if FindPage(s, c, f).Some? {
      var last := SkipTags(s, NameEnd(s, c, f), c);
      var text, section := s[Backward(s, last, c, NameChar)..last + 1], [s[f + 1]] + ToLower(s[f + 2..Find(s, ")", f)]);
      NameText(s, c, f, last);
      SectionRead(s, c, f, last);
      PageTarget(text, s[last + 1..], section);
    }
  }

  lemma PageTarget(text: string, behind: string, section: string)
    requires !StartsWith(text, "www.") && !StartsWith(text, "ftp.") && !Contains(text, "://") && Free('@', text)
    requires Section(behind) == section
    ensures Target(text, behind) == "man:/" + text + "(" + section + ")"
  {
  }

  // ----- turn by turn -----

  lemma PageLeads(s: string, c: nat, f: nat, rest: seq<Piece>, header: string -> Option<string>)
    requires c < f < |s| && s[f] == '(' && 4 == Nearest(Matches(s, c), 6) && f == Match(s, c, 4)
    requires AllLead(rest, header) && Sources(rest) == s[f..|s|]
    ensures AllLead(CutManPage(s, c, f).pieces + rest, header)
  {
    var p := FindPage(s, c, f);
    if p.None? {
      PlainFirst(s[c..f], rest, header);
    } else {
      PageText(s, c, f, header);
      Glue(s, p.value.end, f, |s|);
      assert s[p.value.end..] == s[p.value.end..|s|];
      LinkBetween(s[c..p.value.start], Anchor(p.value.href, s[p.value.start..p.value.end]), s[p.value.end..f], rest,
                  header);
    }
  }

  lemma MailLeads(s: string, c: nat, f: nat, rest: seq<Piece>, header: string -> Option<string>)
    requires c < f && f + 1 <= |s| && s[f] == '@'
    requires 1 == Nearest(Matches(s, c), 6) && f == Match(s, c, 1) && AllLead(rest, header)
    ensures AllLead(CutMail(s, c, f).pieces + rest, header)
  {
    var g, h := MailStart(s, c, f), Forward(s, f + 1, MailHostChar);
    if h - f > 4 && f - g > 1 {
      MailText(s, c, f, Sources(rest), header);
      LinkBehind(s[c..g], Anchor("mailto:" + s[g..h], s[g..h]), rest, header);
    } else {
      PlainFirst(s[c..f], rest, header);
    }
  }

  lemma UrlLeads(s: string, c: nat, f: nat, rest: seq<Piece>, header: string -> Option<string>)
    requires c < f && f + 3 <= |s| && s[f..f + 3] == "://" && AllLead(rest, header)
    ensures AllLead(CutUrl(s, c, f).pieces + rest, header)
  {
    var g, h := Backward(s, f, c, IsLower), Forward(s, f + 3, UrlChar);
    UrlText(s, c, f, Sources(rest), header);
    if CutUrl(s, c, f).c == h && |CutUrl(s, c, f).pieces| == 2 {
      LinkBehind(s[c..g], Anchor(s[g..h], s[g..h]), rest, header);
    } else {
      PlainFirst(s[c..f + 1], rest, header);
    }
  }

  lemma IncludeLeads(s: string, c: nat, f: nat, rest: seq<Piece>, header: string -> Option<string>)
    requires c < f && f + 6 <= |s| && AllLead(rest, header)
    ensures AllLead(CutInclude(s, c, f, header).pieces + rest, header)
  {
    var g := Backward(s, f, c, NotSemicolon);
    var dir := header(Trim(s[g..f + 2]));
    if g != c && dir.Some? {
      LinkBehind(s[c..g], Include(dir.value, s[g..f + 2]), rest, header);
    } else {
      PlainFirst(s[c..f + 5], rest, header);
    }
  }

  lemma HostTurn(s: string, c: nat, j: nat, f: nat, rest: seq<Piece>, header: string -> Option<string>)
    requires (j == 2 || j == 3) && f == Match(s, c, j) && c <= f && f + 4 <= |s| && HostChar(s[f])
    requires AllLead(rest, header)
    ensures AllLead(CutHost(s, c, f, if j == 3 then "ftp" else "http").pieces + rest, header)
  {
    var g, protocol := HostEnd(s, f), if j == 3 then "ftp" else "http";
    HostLeads(s, c, j, f, Sources(rest), header);
    if g - f > 4 {
      LinkBehind(s[c..f], Anchor(protocol + "://" + s[f..g], s[f..g]), rest, header);
    } else {
      PlainFirst(s[c..f + 3], rest, header);
    }
  }

  lemma TurnLeads(s: string, c: nat, j: nat, rest: seq<Piece>, header: string -> Option<string>)
    requires j < 6 && j == Nearest(Matches(s, c), 6) && Match(s, c, j) >= 0
    requires var cut := CutAt(s, c, j, Match(s, c, j), header);
             cut.c <= |s| && AllLead(rest, header) && Sources(rest) == s[cut.c..|s|]
    ensures AllLead(CutAt(s, c, j, Match(s, c, j), header).pieces + rest, header)
  {
    MatchInside(s, c, j);
    var f := Match(s, c, j);
    if j == 2 || j == 3 {
      HostInside(s, c, j);
      HostTurn(s, c, j, f, rest, header);
    } else if j == 5 {
      IncludeLeads(s, c, f, rest, header);
    } else if j == 4 {
      PageLeads(s, c, f, rest, header);
    } else if j == 1 {
      MailLeads(s, c, f, rest, header);
    } else {
      UrlLeads(s, c, f, rest, header);
    }
  }

  /** Every link leads where its text, and for a page the section behind it, says; every header is one that
      can be read where it is said to be. */
  lemma {:induction false} LinksLead(s: string, c: nat, header: string -> Option<string>)
    requires c <= |s|
    ensures AllLead(Links(s, c, header), header)
    decreases |s| - c
  {
    var m := Matches(s, c);
    var j := Nearest(m, 6);
    if j >= 0 {
      assert m[j] == Match(s, c, j);
      CutConserves(s, c, j, header);
      var cut := CutAt(s, c, j, Match(s, c, j), header);
      LinksLead(s, cut.c, header);
      LinksConserve(s, cut.c, header);
      TurnLeads(s, c, j, Links(s, cut.c, header), header);
    } else {
      assert AllLead([], header);
    }
  }
}
