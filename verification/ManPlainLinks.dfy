/** That what man2html is to link is linked: in an otherwise plain line a host name, an address, a URL, a
    page with its section and a header become one link each, and nothing else changes
    (man/man2html.cpp:704-721, 723-1006). */
module ManPlainLinks {
  import opened Text
  import opened ManLinks

  /** Letters, digits, white space and commas. */
  predicate Dull(s: string) {
    forall i :: 0 <= i < |s| ==> IsAlnum(s[i]) || IsSpace(s[i]) || s[i] == ','
  }

  predicate All(s: string, p: char -> bool) {
    forall i :: 0 <= i < |s| ==> p(s[i])
  }

  /** The line from `c` on begins no match. */
  predicate Quiet(s: string, c: nat) {
    forall i :: c <= i < |s| ==> s[i] !in {'/', '@', '.', '&'} && (i > c ==> s[i] != '(')
  }

  /** An occurrence shows the pattern's characters. */
  lemma Shows(s: string, k: nat, i: nat, o: nat)
    requires k < 6 && OccursAt(s, PATTERNS[k], i) && o < |PATTERNS[k]|
    ensures i + o < |s| && s[i + o] == PATTERNS[k][o]
  {
    assert s[i..i + |PATTERNS[k]|][o] == s[i + o];
  }

  lemma QuietLinks(s: string, c: nat, header: string -> Option<string>)
    requires c <= |s| && Quiet(s, c)
    ensures Links(s, c, header) == [Plain(s[c..|s|])]
  {
    var m := Matches(s, c);
    forall k | 0 <= k < 6 ensures m[k] == -1 {
      QuietMatch(s, c, k);
    }
  }

  lemma QuietMatch(s: string, c: nat, k: nat)
    requires k < 6 && Quiet(s, c)
    ensures Match(s, c, k) == -1
  {
    var f := Match(s, c, k);
    if f >= 0 {
      var o := if k == 0 then 1 else if k == 2 || k == 3 then 3 else 0;
      Shows(s, k, f, o);
    }
  }

  /** Where a match of `k` would come before that of `j` at `f`. */
  predicate Ahead(c: nat, k: nat, i: int, f: nat, j: nat) {
    (if k == 2 || k == 3 then c else c + 1) <= i && (i < f || (i == f && k != j))
  }

  /** The first match is that of `j`, at `f`. */
  lemma FirstMatch(s: string, c: nat, j: nat, f: nat)
    requires j < 6 && OccursAt(s, PATTERNS[j], f) && (if j == 2 || j == 3 then c else c + 1) <= f
    requires forall k, i :: 0 <= k < 6 && Ahead(c, k, i, f, j) ==> !OccursAt(s, PATTERNS[k], i)
    ensures Match(s, c, j) == f && Nearest(Matches(s, c), 6) == j
  {
    var m := Matches(s, c);
    assert m[j] == Match(s, c, j);
    forall k | 0 <= k < 6 && k != j ensures m[k] < 0 || m[k] > f {
      assert m[k] == Match(s, c, k);
      assert m[k] >= 0 ==> OccursAt(s, PATTERNS[k], m[k]);
    }
  }

  /** The first turn puts out `a` and the link and goes on at `g`. */
  predicate Turned(s: string, j: nat, f: nat, a: string, link: Piece, g: nat, header: string -> Option<string>) {
    && j < 6 && Match(s, 0, j) == f && Nearest(Matches(s, 0), 6) == j
    && CutAt(s, 0, j, f, header) == Cut([Plain(a), link], g)
  }

  /** The line is put out with one link. */
  predicate Linked(s: string, a: string, link: Piece, b: string, header: string -> Option<string>) {
    Links(s, 0, header) == [Plain(a), link, Plain(b)]
  }

  /** So it is when nothing matches behind the first turn. */
  lemma OneCut(s: string, j: nat, f: nat, a: string, link: Piece, g: nat, header: string -> Option<string>)
    requires Turned(s, j, f, a, link, g, header) && g <= |s| && Quiet(s, g)
    ensures Linked(s, a, link, s[g..|s|], header)
  {
    CutConserves(s, 0, j, header);
    QuietLinks(s, g, header);
  }

  lemma HostIsCut(s: string, j: nat, f: nat, header: string -> Option<string>)
    requires (j == 2 || j == 3) && Match(s, 0, j) == f
    ensures f + 4 <= |s| && HostChar(s[f])
    ensures CutAt(s, 0, j, f, header) == CutHost(s, 0, f, if j == 3 then "ftp" else "http")
  {
    HostInside(s, 0, j);
  }

  lemma MailIsCut(s: string, f: nat, header: string -> Option<string>)
    requires Match(s, 0, 1) == f
    ensures 0 < f && f + 1 <= |s| && CutAt(s, 0, 1, f, header) == CutMail(s, 0, f)
  {
    MatchInside(s, 0, 1);
  }

  lemma UrlIsCut(s: string, f: nat, header: string -> Option<string>)
    requires Match(s, 0, 0) == f
    ensures 0 < f && f + 3 <= |s| && CutAt(s, 0, 0, f, header) == CutUrl(s, 0, f)
  {
    MatchInside(s, 0, 0);
  }

  lemma PageIsCut(s: string, f: nat, header: string -> Option<string>)
    requires Match(s, 0, 4) == f
    ensures 0 < f < |s| && s[f] == '(' && CutAt(s, 0, 4, f, header) == CutManPage(s, 0, f)
  {
    MatchInside(s, 0, 4);
  }

  lemma IncludeIsCut(s: string, f: nat, header: string -> Option<string>)
    requires Match(s, 0, 5) == f
    ensures 0 < f && f + 6 <= |s| && CutAt(s, 0, 5, f, header) == CutInclude(s, 0, f, header)
  {
    MatchInside(s, 0, 5);
  }

  lemma ForwardIs(s: string, i: nat, h: nat, p: char -> bool)
    requires i <= h <= |s| && (forall k :: i <= k < h ==> p(s[k])) && (h < |s| ==> !p(s[h]))
    ensures Forward(s, i, p) == h
  {
  }

  lemma BackwardIs(s: string, from: nat, c: nat, g: nat, p: char -> bool)
    requires c <= g <= from <= |s| && (forall k :: g <= k < from ==> p(s[k])) && (g > c ==> !p(s[g - 1]))
    ensures Backward(s, from, c, p) == g
  {
  }

  lemma Parts(a: string, x: string, b: string)
    ensures var s := a + x + b;
            && s[0..|a|] == a && s[|a|..|a| + |x|] == x && s[|a| + |x|..|s|] == b
            && (forall i :: 0 <= i < |a| ==> s[i] == a[i])
            && (forall i :: |a| <= i < |a| + |x| ==> s[i] == x[i - |a|])
            && (forall i :: |a| + |x| <= i < |s| ==> s[i] == b[i - |a| - |x|])
  {
  }

  /** Behind the middle part nothing matches. */
  lemma QuietBehind(a: string, x: string, b: string)
    requires Dull(b)
    ensures var s, g := a + x + b, |a| + |x|; Quiet(s, g) && s[g..|s|] == b
  {
    Parts(a, x, b);
  }

  /** A first turn that links the middle part is all there is. */
  lemma LinkedMiddle(a: string, x: string, b: string, j: nat, f: nat, link: Piece, header: string -> Option<string>)
    requires Dull(b) && Turned(a + x + b, j, f, a, link, |a| + |x|, header)
    ensures Linked(a + x + b, a, link, b, header)
  {
    QuietBehind(a, x, b);
    OneCut(a + x + b, j, f, a, link, |a| + |x|, header);
  }

  lemma MiddleSlices(a: string, x: string, b: string)
    ensures var s := a + x + b; s[0..|a|] == a && s[|a|..|a| + |x|] == x
  {
  }

  // ----- host names -----

  const PREFIX := ["", "", "www.", "ftp."]

  predicate Host(h: string, j: nat) {
    && (j == 2 || j == 3) && |h| > 4 && h[..4] == PREFIX[j] && All(h, HostChar) && h[|h| - 1] != '.'
  }

  lemma HostFirst(a: string, h: string, b: string, j: nat)
    requires Dull(a) && Host(h, j) && Dull(b)
    ensures var s := a + h + b; Match(s, 0, j) == |a| && Nearest(Matches(s, 0), 6) == j
  {
    var s, f := a + h + b, |a|;
    Parts(a, h, b);
    assert s[f..f + 4] == h[..4] == PATTERNS[j];
    assert forall i :: 0 <= i < 4 ==> h[i] == h[..4][i];
    forall k, i | 0 <= k < 6 && Ahead(0, k, i, f, j)
      ensures !OccursAt(s, PATTERNS[k], i)
    {
      if OccursAt(s, PATTERNS[k], i) {
        Shows(s, k, i, 0);
        if k == 2 || k == 3 {
          Shows(s, k, i, 3);
        }
      }
    }
    FirstMatch(s, 0, j, f);
  }

  lemma HostCutIs(s: string, f: nat, g: nat, protocol: string)
    requires f + 4 < g <= |s| && (forall i :: f <= i < g ==> HostChar(s[i])) && s[g - 1] != '.'
    requires g < |s| ==> !HostChar(s[g])
    ensures CutHost(s, 0, f, protocol) == Cut([Plain(s[0..f]), Anchor(protocol + "://" + s[f..g], s[f..g])], g)
  {
    ForwardIs(s, f, g, HostChar);
  }

  /** What a host name leads to. */
  function HostLink(h: string, j: nat): Piece {
    Anchor((if j == 3 then "ftp" else "http") + "://" + h, h)
  }

  lemma HostTurn(a: string, h: string, b: string, j: nat, header: string -> Option<string>)
    requires Dull(a) && Host(h, j) && Dull(b) && (b == "" || !HostChar(b[0]))
    ensures Turned(a + h + b, j, |a|, a, HostLink(h, j), |a| + |h|, header)
  {
    var s := a + h + b;
    HostFirst(a, h, b, j);
    Parts(a, h, b);
    HostIsCut(s, j, |a|, header);
    HostCutIs(s, |a|, |a| + |h|, if j == 3 then "ftp" else "http");
  }

  /** A name that begins with "www." or "ftp.", as far as its characters go, is linked. */
  lemma HostLinked(a: string, h: string, b: string, j: nat, header: string -> Option<string>)
    requires Dull(a) && Host(h, j) && Dull(b) && (b == "" || !HostChar(b[0]))
    ensures Linked(a + h + b, a, HostLink(h, j), b, header)
  {
    HostTurn(a, h, b, j, header);
    LinkedMiddle(a, h, b, j, |a|, HostLink(h, j), header);
  }

  // ----- addresses -----

  /** A user of two or more characters without a host name in it, and a host of four or more behind the at
      sign at `k`. */
  ghost predicate Address(x: string, k: nat) {
    && 2 <= k && k + 5 <= |x| && x[k] == '@'
    && (forall i :: 0 <= i < k ==> UserChar(x[i])) && (forall i :: k < i < |x| ==> MailHostChar(x[i]))
    && (forall i {:trigger OccursAt(x, "www.", i)} {:trigger OccursAt(x, "ftp.", i)} ::
          0 <= i && i + 4 <= k ==> !OccursAt(x, "www.", i) && !OccursAt(x, "ftp.", i))
  }

  /** No host name begins before `f` if none is in the name that begins at `n`. */
  lemma NoHostAhead(s: string, n: nat, f: nat, k: nat, i: int)
    requires (k == 2 || k == 3) && n <= f < |s| && i < f
    requires forall m :: 0 <= m < n ==> s[m] != '.'
    requires n > 0 ==> s[n - 1] !in {'w', 'f', 't', 'p'}
    requires s[f] !in {'w', 'f', 't', 'p', '.'}
    requires forall m :: n <= m && m + 4 <= f ==> !OccursAt(s, PATTERNS[k], m)
    ensures !OccursAt(s, PATTERNS[k], i)
  {
    if OccursAt(s, PATTERNS[k], i) {
      Shows(s, k, i, 0);
      Shows(s, k, i, 1);
      Shows(s, k, i, 2);
      Shows(s, k, i, 3);
    }
  }

  /** The line holds an address from `n` on with its at sign at `f`, up to `g`. */
  ghost predicate MailIn(s: string, n: nat, f: nat, g: nat) {
    && n + 2 <= f && f + 5 <= g <= |s| && s[f] == '@'
    && (forall i :: 0 <= i < n || g <= i < |s| ==> s[i] !in {'/', '@', '.', '&', '('})
    && (forall i :: n <= i < f ==> UserChar(s[i])) && (forall i :: f < i < g ==> MailHostChar(s[i]))
    && (n > 0 ==> !UserChar(s[n - 1])) && (g < |s| ==> !MailHostChar(s[g]))
    && (forall i {:trigger OccursAt(s, "www.", i)} {:trigger OccursAt(s, "ftp.", i)} ::
          n <= i && i + 4 <= f ==> !OccursAt(s, "www.", i) && !OccursAt(s, "ftp.", i))
  }

  lemma MailFirst(s: string, n: nat, f: nat, g: nat)
    requires MailIn(s, n, f, g)
    ensures Match(s, 0, 1) == f && Nearest(Matches(s, 0), 6) == 1
  {
    assert s[f..f + 1] == ['@'] == PATTERNS[1];
    forall k, i | 0 <= k < 6 && Ahead(0, k, i, f, 1) ensures !OccursAt(s, PATTERNS[k], i) {
      if i < f && (k == 2 || k == 3) {
        NoHostAhead(s, n, f, k, i);
      } else if OccursAt(s, PATTERNS[k], i) {
        Shows(s, k, i, 0);
        if k == 0 || k == 5 {
          Shows(s, k, i, 1);
          Shows(s, k, i, 2);
        }
      }
    }
    FirstMatch(s, 0, 1, f);
  }

  /** The address as `MailStart` takes it. */
  function WithScheme(s: string, n: nat): (m: nat)
    requires n <= |s|
    ensures m <= n
  {
    if n >= 7 && s[n - 7..n] == "mailto:" then n - 7 else n
  }

  lemma MailCutIs(s: string, n: nat, f: nat, g: nat)
    requires MailIn(s, n, f, g)
    ensures var m := WithScheme(s, n);
            CutMail(s, 0, f) == Cut([Plain(s[0..m]), Anchor("mailto:" + s[m..g], s[m..g])], g)
  {
    BackwardIs(s, f, 0, n, UserChar);
    ForwardIs(s, f + 1, g, MailHostChar);
    assert MailStart(s, 0, f) == WithScheme(s, n);
  }

  lemma OccursInside(a: string, x: string, b: string, p: string, i: nat)
    requires |a| <= i && i + |p| <= |a| + |x| && !OccursAt(x, p, i - |a|)
    ensures !OccursAt(a + x + b, p, i)
  {
    var s := a + x + b;
    assert s[i..i + |p|] == x[i - |a|..i - |a| + |p|];
  }

  lemma MailParts(a: string, x: string, k: nat, b: string)
    requires Dull(a) && Address(x, k) && Dull(b)
    requires (a == "" || !UserChar(a[|a| - 1])) && (b == "" || !MailHostChar(b[0]))
    ensures MailIn(a + x + b, |a|, |a| + k, |a| + |x|)
  {
    Parts(a, x, b);
    UserFree(a, x, k, b);
  }

  /** No host name begins in the user of an address. */
  lemma UserFree(a: string, x: string, k: nat, b: string)
    requires Address(x, k)
    ensures var s := a + x + b; forall i {:trigger OccursAt(s, "www.", i)} {:trigger OccursAt(s, "ftp.", i)} ::
              |a| <= i && i + 4 <= |a| + k ==> !OccursAt(s, "www.", i) && !OccursAt(s, "ftp.", i)
  {
    forall i | |a| <= i && i + 4 <= |a| + k
      ensures !OccursAt(a + x + b, "www.", i) && !OccursAt(a + x + b, "ftp.", i)
    {
      OccursInside(a, x, b, "www.", i);
      OccursInside(a, x, b, "ftp.", i);
    }
  }

  lemma MailTurn(s: string, n: nat, f: nat, g: nat, header: string -> Option<string>)
    requires MailIn(s, n, f, g)
    ensures var m := WithScheme(s, n); Turned(s, 1, f, s[0..m], Anchor("mailto:" + s[m..g], s[m..g]), g, header)
  {
    MailFirst(s, n, f, g);
    MailIsCut(s, f, header);
    MailCutIs(s, n, f, g);
  }

  lemma NoScheme(a: string, x: string, b: string)
    requires Dull(a)
    ensures WithScheme(a + x + b, |a|) == |a|
  {
    var s, n := a + x + b, |a|;
    if n >= 7 {
      assert s[n - 7..n] == a[n - 7..];
      assert "mailto:"[6] == ':' && a[n - 7..][6] == a[n - 1];
    }
  }

  /** An address is linked, taken for as far as its characters go. */
  lemma MailLinked(a: string, x: string, k: nat, b: string, header: string -> Option<string>)
    requires Dull(a) && Address(x, k) && Dull(b)
    requires (a == "" || !UserChar(a[|a| - 1])) && (b == "" || !MailHostChar(b[0]))
    ensures Linked(a + x + b, a, Anchor("mailto:" + x, x), b, header)
  {
    MailParts(a, x, k, b);
    NoScheme(a, x, b);
    MiddleSlices(a, x, b);
    MailTurn(a + x + b, |a|, |a| + k, |a| + |x|, header);
    LinkedMiddle(a, x, b, 1, |a| + k, Anchor("mailto:" + x, x), header);
  }

  lemma MailtoParts(a: string, x: string, k: nat, b: string)
    requires Dull(a) && Address(x, k) && Dull(b) && (b == "" || !MailHostChar(b[0]))
    ensures var m := a + "mailto:"; MailIn(m + x + b, |m|, |m| + k, |m| + |x|)
  {
    var m := a + "mailto:";
    var s, n := m + x + b, |m|;
    Parts(m, x, b);
    forall i | n <= i && i + 4 <= n + k ensures !OccursAt(s, "www.", i) && !OccursAt(s, "ftp.", i) {
      OccursInside(m, x, b, "www.", i);
      OccursInside(m, x, b, "ftp.", i);
    }
  }

  lemma SchemeInFront(a: string, x: string, b: string)
    ensures var t := "mailto:" + x;
            (a + "mailto:") + x + b == a + t + b && WithScheme(a + t + b, |a| + 7) == |a|
  {
    var t := "mailto:" + x;
    var s, n := a + t + b, |a| + 7;
    assert (a + "mailto:") + x + b == s;
    assert s[n - 7..n] == "mailto:";
  }

  /** An address that is written with "mailto:" has it twice in front. */
  lemma WrittenMailto(a: string, x: string, k: nat, b: string, header: string -> Option<string>)
    requires Dull(a) && Address(x, k) && Dull(b) && (b == "" || !MailHostChar(b[0]))
    ensures var t := "mailto:" + x; Linked(a + t + b, a, Anchor("mailto:" + t, t), b, header)
  {
    var t, n := "mailto:" + x, |a| + 7;
    MailtoParts(a, x, k, b);
    SchemeInFront(a, x, b);
    MiddleSlices(a, t, b);
    MailTurn(a + t + b, n, n + k, n + |x|, header);
    LinkedMiddle(a, t, b, 1, n + k, Anchor("mailto:" + t, t), header);
  }

  // ----- URLs -----

  /** The line holds a URL from `n` on, its protocol up to `f`, up to `g`. */
  ghost predicate UrlIn(s: string, n: nat, f: nat, g: nat) {
    && n + 3 <= f <= n + 6 && f + 4 <= g <= |s| && s[f..f + 3] == "://"
    && (forall i :: 0 <= i < n || g <= i < |s| ==> s[i] !in {'/', '@', '.', '&', '(', ':'})
    && (forall i :: n <= i < f ==> IsLower(s[i])) && (forall i :: f + 3 <= i < g ==> UrlChar(s[i]))
    && (n > 0 ==> !IsLower(s[n - 1])) && (g < |s| ==> !UrlChar(s[g]))
  }

  lemma UrlFirst(s: string, n: nat, f: nat, g: nat)
    requires UrlIn(s, n, f, g)
    ensures Match(s, 0, 0) == f && Nearest(Matches(s, 0), 6) == 0
  {
    var p := s[f..f + 3];
    assert p == PATTERNS[0] && p[0] == s[f] && p[1] == s[f + 1] && p[2] == s[f + 2];
    forall k, i | 0 <= k < 6 && Ahead(0, k, i, f, 0) ensures !OccursAt(s, PATTERNS[k], i) {
      if OccursAt(s, PATTERNS[k], i) {
        Shows(s, k, i, 0);
        if k == 2 || k == 3 {
          Shows(s, k, i, 3);
        }
      }
    }
    FirstMatch(s, 0, 0, f);
  }

  /** Something in the line begins like an HTTP or FTP URL. */
  predicate HttpOrFtp(s: string) {
    Contains(s, "http://") || Contains(s, "ftp://")
  }

  lemma FindsIt(s: string, p: string)
    requires p != ""
    ensures Find(s, p, 0) >= 0 <==> Contains(s, p)
  {
    var f := Find(s, p, 0);
    assert f >= 0 ==> OccursAt(s, p, f);
  }

  lemma UrlCutIs(s: string, n: nat, f: nat, g: nat)
    requires UrlIn(s, n, f, g)
    ensures CutUrl(s, 0, f) == if HttpOrFtp(s) then Cut([Plain(s[0..n]), Anchor(s[n..g], s[n..g])], g)
                               else Cut([Plain(s[0..f + 1])], f + 1)
  {
    BackwardIs(s, f, 0, n, IsLower);
    ForwardIs(s, f + 3, g, UrlChar);
    FindsIt(s, "http://");
    FindsIt(s, "ftp://");
  }

  /** Whatever its protocol, a URL is linked exactly if the line holds something like an HTTP or FTP URL. */
  lemma UrlTurn(s: string, n: nat, f: nat, g: nat, header: string -> Option<string>)
    requires UrlIn(s, n, f, g)
    ensures if HttpOrFtp(s) then Turned(s, 0, f, s[0..n], Anchor(s[n..g], s[n..g]), g, header)
            else Match(s, 0, 0) == f && CutAt(s, 0, 0, f, header) == Cut([Plain(s[0..f + 1])], f + 1)
  {
    UrlFirst(s, n, f, g);
    UrlIsCut(s, f, header);
    UrlCutIs(s, n, f, g);
  }

  lemma UrlParts(a: string, p: string, t: string, b: string)
    requires Dull(a) && All(p, IsLower) && 3 <= |p| <= 6 && t != "" && All(t, UrlChar) && Dull(b)
    requires (a == "" || !IsLower(a[|a| - 1])) && (b == "" || !UrlChar(b[0]))
    ensures var x := p + "://" + t; UrlIn(a + x + b, |a|, |a| + |p|, |a| + |x|)
  {
    var x := p + "://" + t;
    Parts(p, "://", t);
    Parts(a, x, b);
    var s, f := a + x + b, |a| + |p|;
    assert s[f..f + 3] == x[|p|..|p| + 3];
  }

  /** An HTTP or FTP URL is linked, as far as its characters go. */
  lemma UrlLinked(a: string, p: string, t: string, b: string, header: string -> Option<string>)
    requires p in {"http", "ftp"} && Dull(a) && t != "" && All(t, UrlChar) && Dull(b)
    requires (a == "" || !IsLower(a[|a| - 1])) && (b == "" || !UrlChar(b[0]))
    ensures var x := p + "://" + t; Linked(a + x + b, a, Anchor(x, x), b, header)
  {
    var x := p + "://" + t;
    UrlParts(a, p, t, b);
    UrlBegins(a, p, t, b);
    MiddleSlices(a, x, b);
    UrlTurn(a + x + b, |a|, |a| + |p|, |a| + |x|, header);
    LinkedMiddle(a, x, b, 0, |a| + |p|, Anchor(x, x), header);
  }

  lemma UrlBegins(a: string, p: string, t: string, b: string)
    requires p in {"http", "ftp"}
    ensures HttpOrFtp(a + (p + "://" + t) + b)
  {
    var s, q := a + (p + "://" + t) + b, p + "://";
    assert s[|a|..|a| + |q|] == q;
    assert OccursAt(s, q, |a|);
    assert q == "http://" || q == "ftp://";
  }

  // ----- pages -----

  /** The line holds a name from `n` to `f`, where its only parenthesis opens. */
  ghost predicate NameIn(s: string, n: nat, f: nat) {
    && n < f < |s| && s[f] == '('
    && (forall i :: 0 <= i < |s| && i != f ==> s[i] !in {'/', '@', '&', '('} && (i < n || i > f ==> s[i] != '.'))
    && (forall i :: n <= i < f ==> NameChar(s[i])) && IsAlnum(s[f - 1]) && (n > 0 ==> !NameChar(s[n - 1]))
    && (forall i {:trigger OccursAt(s, "www.", i)} {:trigger OccursAt(s, "ftp.", i)} ::
          n <= i && i + 4 <= f ==> !OccursAt(s, "www.", i) && !OccursAt(s, "ftp.", i))
  }

  /** A section in parentheses from `f` to `r`. */
  ghost predicate SectionIn(s: string, f: nat, r: nat) {
    && f + 2 <= r < |s| && r - f < 12 && s[r] == ')'
    && (s[f + 1] == 'n' || (IsDigit(s[f + 1]) && s[f + 1] != '0'))
    && (r == f + 2 || IsAlpha(s[f + 2])) && (forall i :: f + 2 <= i < r ==> IsAlnum(s[i]))
  }

  ghost predicate PageIn(s: string, n: nat, f: nat, r: nat) {
    NameIn(s, n, f) && SectionIn(s, f, r)
  }

  lemma PageFirst(s: string, n: nat, f: nat)
    requires NameIn(s, n, f)
    ensures Match(s, 0, 4) == f && Nearest(Matches(s, 0), 6) == 4
  {
    assert s[f..f + 1] == ['('] == PATTERNS[4];
    forall k, i | 0 <= k < 6 && Ahead(0, k, i, f, 4) ensures !OccursAt(s, PATTERNS[k], i) {
      if i < f && (k == 2 || k == 3) {
        NoHostAhead(s, n, f, k, i);
      } else if OccursAt(s, PATTERNS[k], i) {
        Shows(s, k, i, 0);
        if k == 0 || k == 5 {
          Shows(s, k, i, 1);
          Shows(s, k, i, 2);
        }
      }
    }
    FirstMatch(s, 0, 4, f);
  }

  lemma CloseAt(s: string, n: nat, f: nat, r: nat)
    requires PageIn(s, n, f, r)
    ensures Find(s, ")", f) == r
  {
    assert s[r..r + 1] == ")" && OccursAt(s, ")", r);
    forall k | f <= k < r ensures !OccursAt(s, ")", k) {
      assert s[k..k + 1] == [s[k]];
    }
  }

  lemma PageCutIs(s: string, n: nat, f: nat, r: nat)
    requires PageIn(s, n, f, r)
    ensures CutManPage(s, 0, f) ==
            Cut([Plain(s[0..n]), Anchor("man:/" + s[n..f] + "(" + ([s[f + 1]] + ToLower(s[f + 2..r])) + ")", s[n..f]),
                 Plain(s[f..f])], f)
  {
    CloseAt(s, n, f, r);
    assert IsSection(s, 0, f);
    assert f > 6 ==> s[f - 6..f][0] == s[f - 6];
    assert f > 7 ==> s[f - 7..f][0] == s[f - 7];
    assert NameEnd(s, 0, f) == f - 1 && SkipTags(s, f - 1, 0) == f - 1;
    BackwardIs(s, f - 1, 0, n, NameChar);
  }

  /** What the link to a page says. */
  function PageHref(name: string, section: string): string
    requires section != ""
  {
    "man:/" + name + "(" + ([section[0]] + ToLower(section[1..])) + ")"
  }

  /** The line is put out with the name linked, and goes on with the section. */
  predicate PageOut(s: string, a: string, href: string, x: string, t: string, header: string -> Option<string>) {
    Links(s, 0, header) == [Plain(a), Anchor(href, x), Plain("")] + [Plain(t)]
  }

  lemma PageLinks(s: string, n: nat, f: nat, r: nat, header: string -> Option<string>)
    requires PageIn(s, n, f, r)
    ensures PageOut(s, s[0..n], PageHref(s[n..f], s[f + 1..r]), s[n..f], s[f..|s|], header)
  {
    PageFirst(s, n, f);
    PageIsCut(s, f, header);
    PageCutIs(s, n, f, r);
    assert s[f + 1..r][0] == s[f + 1] && s[f + 1..r][1..] == s[f + 2..r] && s[f..f] == "";
    CutConserves(s, 0, 4, header);
    QuietLinks(s, f, header);
  }

  /** A section is what is accepted as one. */
  lemma SectionExactly(s: string, n: nat, f: nat)
    requires NameIn(s, n, f)
    ensures FindPage(s, 0, f).Some? <==> exists r: nat :: SectionIn(s, f, r)
  {
    if FindPage(s, 0, f).Some? {
      SectionEnds(s, 0, f);
      var r := Find(s, ")", f);
      assert s[r..r + 1][0] == s[r];
      assert SectionIn(s, f, r);
    } else if r: nat :| SectionIn(s, f, r) {
      PageCutIs(s, n, f, r);
    }
  }

  /** In a line whose only parenthesis opens behind a name the name is linked exactly if a section follows. */
  lemma PageTurn(s: string, n: nat, f: nat, header: string -> Option<string>)
    requires NameIn(s, n, f)
    ensures (exists r: nat :: SectionIn(s, f, r)) ==>
              exists r: nat :: SectionIn(s, f, r)
                    && PageOut(s, s[0..n], PageHref(s[n..f], s[f + 1..r]), s[n..f], s[f..|s|], header)
    ensures (forall r: nat :: !SectionIn(s, f, r)) ==>
              Links(s, 0, header) == [Plain(s[0..f])] + [Plain(s[f..|s|])]
  {
    if r: nat :| SectionIn(s, f, r) {
      PageLinks(s, n, f, r, header);
    } else {
      SectionExactly(s, n, f);
      PageFirst(s, n, f);
      PageIsCut(s, f, header);
      CutConserves(s, 0, 4, header);
      QuietLinks(s, f, header);
    }
  }

  /** A name a page can have. */
  ghost predicate PageName(x: string) {
    && x != "" && All(x, NameChar) && IsAlnum(x[|x| - 1])
    && (forall i {:trigger OccursAt(x, "www.", i)} {:trigger OccursAt(x, "ftp.", i)} ::
          0 <= i && i + 4 <= |x| ==> !OccursAt(x, "www.", i) && !OccursAt(x, "ftp.", i))
  }

  /** A digit but 0, or an n, and at most nine more letters and digits, of which the first is a letter. */
  predicate SectionName(x: string) {
    && 1 <= |x| <= 10 && (x[0] == 'n' || (IsDigit(x[0]) && x[0] != '0'))
    && (|x| == 1 || IsAlpha(x[1])) && All(x, IsAlnum)
  }

  /** A section in parentheses, and plain text behind it. */
  predicate Tail(t: string, y: string) {
    && |t| >= |y| + 2 && t[0] == '(' && t[|y| + 1] == ')' && t[1..|y| + 1] == y
    && forall i :: |y| + 2 <= i < |t| ==> t[i] !in {'/', '@', '&', '(', '.'}
  }

  lemma TailOf(y: string, b: string)
    requires Dull(b)
    ensures Tail("(" + y + (")" + b), y)
  {
    var t := "(" + y + (")" + b);
    assert forall i :: |y| + 2 <= i < |t| ==> t[i] == b[i - |y| - 2];
  }

  lemma NoHostInside(a: string, x: string, t: string)
    requires PageName(x)
    ensures forall i {:trigger OccursAt(a + x + t, "www.", i)} {:trigger OccursAt(a + x + t, "ftp.", i)} ::
              |a| <= i && i + 4 <= |a| + |x| ==> !OccursAt(a + x + t, "www.", i) && !OccursAt(a + x + t, "ftp.", i)
  {
    forall i | |a| <= i && i + 4 <= |a| + |x|
      ensures !OccursAt(a + x + t, "www.", i) && !OccursAt(a + x + t, "ftp.", i)
    {
      OccursInside(a, x, t, "www.", i);
      OccursInside(a, x, t, "ftp.", i);
    }
  }

  lemma NameParts(a: string, x: string, y: string, t: string)
    requires Dull(a) && PageName(x) && All(y, IsAlnum) && Tail(t, y) && (a == "" || !NameChar(a[|a| - 1]))
    ensures NameIn(a + x + t, |a|, |a| + |x|)
  {
    Parts(a, x, t);
    NoHostInside(a, x, t);
    TailChars(t, y);
    DullChars(a);
  }

  lemma TailChars(t: string, y: string)
    requires All(y, IsAlnum) && Tail(t, y)
    ensures forall i :: 1 <= i < |t| ==> t[i] !in {'/', '@', '&', '(', '.'}
  {
    assert forall i :: 0 <= i < |y| ==> t[i + 1] == t[1..|y| + 1][i] == y[i];
    assert forall i :: 1 <= i < |y| + 1 ==> t[i] == y[i - 1];
  }

  lemma DullChars(a: string)
    requires Dull(a)
    ensures forall i :: 0 <= i < |a| ==> a[i] !in {'/', '@', '&', '(', '.', ':'}
  {
  }

  lemma SectionParts(a: string, x: string, y: string, t: string)
    requires SectionName(y) && Tail(t, y)
    ensures SectionIn(a + x + t, |a| + |x|, |a| + |x| + 1 + |y|)
  {
    var s, f := a + x + t, |a| + |x|;
    assert forall i :: 0 <= i < |t| ==> s[f + i] == t[i];
    assert forall i :: 0 <= i < |y| ==> s[f + 1 + i] == t[1..|y| + 1][i] == y[i];
    assert forall i :: f + 1 <= i < f + 1 + |y| ==> s[i] == y[i - f - 1];
  }

  lemma TailSlices(a: string, x: string, y: string, t: string)
    requires Tail(t, y)
    ensures var s, f := a + x + t, |a| + |x|; s[f..|s|] == t && s[f + 1..f + 1 + |y|] == y
  {
    var s, f := a + x + t, |a| + |x|;
    assert s[f + 1..f + 1 + |y|] == t[1..|y| + 1];
  }

  lemma PageAs(s: string, n: nat, f: nat, r: nat, a: string, x: string, y: string, t: string,
               header: string -> Option<string>)
    requires PageIn(s, n, f, r) && y != ""
    requires s[0..n] == a && s[n..f] == x && s[f + 1..r] == y && s[f..|s|] == t
    ensures PageOut(s, a, PageHref(x, y), x, t, header)
  {
    PageLinks(s, n, f, r, header);
  }

  /** A name with its section in parentheses behind it is linked to the page. */
  lemma PageLinked(a: string, x: string, y: string, b: string, header: string -> Option<string>)
    requires Dull(a) && PageName(x) && SectionName(y) && Dull(b) && (a == "" || !NameChar(a[|a| - 1]))
    ensures var t := "(" + y + (")" + b); PageOut(a + x + t, a, PageHref(x, y), x, t, header)
  {
    var t := "(" + y + (")" + b);
    TailOf(y, b);
    NameParts(a, x, y, t);
    SectionParts(a, x, y, t);
    MiddleSlices(a, x, t);
    TailSlices(a, x, y, t);
    PageAs(a + x + t, |a|, |a| + |x|, |a| + |x| + 1 + |y|, a, x, y, t, header);
  }

  // ----- headers -----

  /** The line holds the name of a header from `n` on, its ".h" at `f`, between angle brackets. */
  ghost predicate HeaderIn(s: string, n: nat, f: nat) {
    && 4 <= n <= f && f + 6 <= |s| && s[n - 1] == ';' && s[f..f + 6] == ".h&gt;"
    && (forall i :: 0 <= i < |s| ==> s[i] !in {'@', '('} && (i < f || i >= f + 6 ==> s[i] !in {'.', ':'}))
    && (forall i :: f + 6 <= i < |s| ==> s[i] !in {'/', '&'})
    && (forall i :: n <= i < f ==> s[i] != ';')
    && !(f >= 3 && s[f - 3..f] in {"www", "ftp"})
  }

  lemma HostEndsAtDot(s: string, k: nat, i: nat)
    requires (k == 2 || k == 3) && OccursAt(s, PATTERNS[k], i)
    ensures s[i..i + 3] in {"www", "ftp"}
  {
    assert s[i..i + 3] == s[i..i + 4][..3];
    assert "www."[..3] == "www" && "ftp."[..3] == "ftp";
  }

  lemma HeaderFirst(s: string, n: nat, f: nat)
    requires HeaderIn(s, n, f)
    ensures Match(s, 0, 5) == f && Nearest(Matches(s, 0), 6) == 5
  {
    var p := s[f..f + 6];
    assert p == PATTERNS[5] && p[0] == s[f] && p[1] == s[f + 1] && p[2] == s[f + 2];
    forall k, i | 0 <= k < 6 && Ahead(0, k, i, f, 5) ensures !OccursAt(s, PATTERNS[k], i) {
      if OccursAt(s, PATTERNS[k], i) {
        Shows(s, k, i, 0);
        if k == 2 || k == 3 {
          Shows(s, k, i, 3);
          HostEndsAtDot(s, k, i);
        }
      }
    }
    FirstMatch(s, 0, 5, f);
  }

  lemma HeaderTurn(s: string, n: nat, f: nat, dir: string, header: string -> Option<string>)
    requires HeaderIn(s, n, f) && header(Trim(s[n..f + 2])) == Some(dir)
    ensures Turned(s, 5, f, s[0..n], Include(dir, s[n..f + 2]), f + 6, header)
  {
    HeaderFirst(s, n, f);
    IncludeIsCut(s, f, header);
    BackwardIs(s, f, 0, n, NotSemicolon);
  }

  predicate HeaderChar(c: char) {
    IsAlnum(c) || c == '/' || c == '_' || c == '-' || c == '+'
  }

  /** The brackets and what is in front: nothing that matches, and a semicolon at the end. */
  predicate Opened(m: string) {
    && |m| >= 4 && m[|m| - 1] == ';'
    && forall i :: 0 <= i < |m| ==> m[i] !in {'@', '(', '.', ':'}
  }

  lemma OpenedOf(a: string)
    requires Dull(a)
    ensures Opened(a + "&lt;")
  {
    var m := a + "&lt;";
    assert forall i :: 0 <= i < |a| ==> m[i] == a[i];
    assert m[|a|] == '&' && m[|a| + 1] == 'l' && m[|a| + 2] == 't' && m[|a| + 3] == ';';
  }

  lemma HeaderText(x: string)
    requires All(x, HeaderChar)
    ensures var y := x + ".h&gt;";
            && y[|x|..|x| + 6] == ".h&gt;"
            && (forall i :: 0 <= i < |x| ==> y[i] !in {'@', '(', '.', ':', ';'})
            && (forall i :: |x| <= i < |y| ==> y[i] !in {'@', '('})
  {
    var y := x + ".h&gt;";
    assert forall i :: |x| <= i < |y| ==> y[i] == ".h&gt;"[i - |x|];
    assert forall i :: 0 <= i < |x| ==> y[i] == x[i];
  }

  lemma HeaderParts(m: string, x: string, b: string)
    requires Opened(m) && All(x, HeaderChar) && Dull(b) && !(|x| >= 3 && x[|x| - 3..] in {"www", "ftp"})
    ensures HeaderIn(m + (x + ".h&gt;") + b, |m|, |m| + |x|)
  {
    var y := x + ".h&gt;";
    var s, f := m + y + b, |m| + |x|;
    Parts(m, y, b);
    HeaderText(x);
    DullChars(b);
    assert s[f..f + 6] == y[|x|..|x| + 6];
    EndOfName(m, x, b);
  }

  lemma EndOfName(m: string, x: string, b: string)
    requires m != "" && m[|m| - 1] == ';' && !(|x| >= 3 && x[|x| - 3..] in {"www", "ftp"})
    ensures var s, f := m + (x + ".h&gt;") + b, |m| + |x|; !(f >= 3 && s[f - 3..f] in {"www", "ftp"})
  {
    var s, f := m + (x + ".h&gt;") + b, |m| + |x|;
    if |x| >= 3 {
      assert s[f - 3..f] == x[|x| - 3..];
    } else if f >= 3 {
      assert s[|m| - 1] == ';';
      assert s[f - 3..f][2 - |x|] == ';';
    }
  }

  lemma {:induction false} TrimNothing(s: string)
    requires forall i :: 0 <= i < |s| ==> !IsSpace(s[i])
    ensures Trim(s) == s
  {
  }

  /** A header that can be read somewhere is linked to where that is. */
  lemma HeaderLinked(a: string, x: string, b: string, dir: string, header: string -> Option<string>)
    requires Dull(a) && All(x, HeaderChar) && Dull(b) && !(|x| >= 3 && x[|x| - 3..] in {"www", "ftp"})
    requires header(x + ".h") == Some(dir)
    ensures Linked((a + "&lt;") + (x + ".h&gt;") + b, a + "&lt;", Include(dir, x + ".h"), b, header)
  {
    var m, y := a + "&lt;", x + ".h&gt;";
    OpenedOf(a);
    HeaderParts(m, x, b);
    MiddleSlices(m, y, b);
    NameSlice(m, x, b);
    TrimNothing(x + ".h");
    HeaderTurn(m + y + b, |m|, |m| + |x|, dir, header);
    LinkedMiddle(m, y, b, 5, |m| + |x|, Include(dir, x + ".h"), header);
  }

  lemma NameSlice(m: string, x: string, b: string)
    ensures (m + (x + ".h&gt;") + b)[|m|..|m| + |x| + 2] == x + ".h"
  {
  }
}
