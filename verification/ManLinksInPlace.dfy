/** `add_links` as it runs: in the buffer of the line, cutting C strings out of it by putting NULs
    into it and taking them away again (man/man2html.cpp:700-1007). */
module ManLinksInPlace {
  import opened Text
  import opened ManLinks

  /** The C string at `i`. */
  function CString(m: seq<char>, i: nat): string
    decreases |m| - i
  {
    if i >= |m| || m[i] == '\0' then "" else [m[i]] + CString(m, i + 1)
  }

  lemma {:induction false} CStringIs(m: seq<char>, i: nat, end: nat)
    requires i <= end < |m| && m[end] == '\0' && forall k :: i <= k < end ==> m[k] != '\0'
    ensures CString(m, i) == m[i..end]
    decreases end - i
  {
    if i < end {
      CStringIs(m, i + 1, end);
      assert m[i..end] == [m[i]] + m[i + 1..end];
    }
  }

  /** A cached match stays the first one while the cursor stays in front of it. */
  lemma MatchStays(s: string, c: nat, c2: nat, k: nat)
    requires c <= c2 && k < 6
    ensures Match(s, c, k) < 0 ==> Match(s, c2, k) < 0
    ensures Match(s, c, k) >= (if k == 2 || k == 3 then c2 else c2 + 1) ==> Match(s, c2, k) == Match(s, c, k)
  {
    var m, m2 := Match(s, c, k), Match(s, c2, k);
    assert m2 >= 0 ==> OccursAt(s, PATTERNS[k], m2);
    assert m >= 0 ==> OccursAt(s, PATTERNS[k], m);
  }

  /** A matcher's entry is its first match, or so old that it will be looked for again. */
  predicate Known(s: string, was: nat, c: nat, k: nat, entry: int) {
    k < 6 && (entry == Match(s, was, k) || 0 <= entry < (if k == 2 || k == 3 then c else c + 1))
  }

  lemma StillKnown(s: string, c: nat, c2: nat, f: int, j: nat, idtest: seq<int>, idtest2: seq<int>)
    requires idtest == Matches(s, c) && c <= f <= c2 && j < 6 && (j == 4 ==> c < f)
    requires idtest2 == if j == 4 then idtest[4 := f - 1] else if j == 1 then idtest[1 := if c2 == f then c else f]
          else idtest
    ensures |idtest2| == 6 && forall k :: 0 <= k < 6 ==> Known(s, c, c2, k, idtest2[k])
  {
  }

  lemma CutReaches(s: string, c: nat, j: nat, header: string -> Option<string>)
    requires j < 6 && Match(s, c, j) >= 0
    ensures c <= Match(s, c, j) <= CutAt(s, c, j, Match(s, c, j), header).c && (j == 4 ==> c < Match(s, c, j))
    ensures Match(s, c, j) < |s| && (j == 4 ==> CutAt(s, c, j, Match(s, c, j), header).c == Match(s, c, j))
  {
    MatchInside(s, c, j);
  }

  class Linker {
    const buf: array<char>
    /** Where the terminator of the line is. */
    const end: nat
    var out: seq<Piece>

    constructor (buf: array<char>, end: nat)
      ensures this.buf == buf && this.end == end && out == []
    {
      this.buf, this.end, out := buf, end, [];
    }

    /** From `c` on the buffer holds the line and its terminator. */
    ghost predicate Shows(s: string, c: nat)
      reads buf
    {
      && Line(s) && c <= |s| == end < buf.Length && buf[end] == '\0'
      && forall i :: c <= i < |s| ==> buf[i] == s[i]
    }

    /** The C string at `c` that a NUL at `p` cuts off. */
    method CutOut(ghost s: string, c: nat, p: nat) returns (r: string)
      requires Shows(s, c) && c <= p <= |s|
      modifies buf
      ensures r == s[c..p] && forall i :: 0 <= i < buf.Length ==> buf[i] == old(buf[i])
    {
      var t := buf[p];
      buf[p] := '\0';
      CStringIs(buf[..], c, p);
      r := "";
      var i := c;
      while buf[i] != '\0'
        invariant c <= i <= p && r == s[c..i]
        decreases p - i
      {
        r := r + [buf[i]];
        i := i + 1;
      }
      buf[p] := t;
    }

    /** `output_real(c)`: the rest of the line. */
    method OutputReal(ghost s: string, c: nat)
      requires Shows(s, c)
      modifies this
      ensures out == old(out) + [Plain(s[c..|s|])]
    {
      var r := "";
      var i := c;
      while buf[i] != '\0'
        invariant c <= i <= |s| && r == s[c..i]
        decreases |s| - i
      {
        r := r + [buf[i]];
        i := i + 1;
      }
      out := out + [Plain(r)];
    }

    /** `output_real(c)` with a NUL at `p`. */
    method OutputUntil(ghost s: string, c: nat, p: nat)
      requires Shows(s, c) && c <= p <= |s|
      modifies buf, this
      ensures out == old(out) + [Plain(s[c..p])] && forall i :: 0 <= i < buf.Length ==> buf[i] == old(buf[i])
    {
      var text := CutOut(s, c, p);
      out := out + [Plain(text)];
    }

    /** `strstr`, `strchr`. */
    method StrStr(ghost s: string, ghost c: nat, pattern: string, i: nat) returns (r: int)
      requires Shows(s, c) && c <= i <= |s| && pattern != "" && Free('\0', pattern)
      ensures r == Find(s, pattern, i)
    {
      var p := i;
      while buf[p] != '\0'
        invariant i <= p <= |s| && Find(s, pattern, i) == Find(s, pattern, p)
        decreases |s| - p
      {
        var k := 0;
        while k < |pattern| && buf[p + k] == pattern[k]
          invariant k <= |pattern| && p + k <= |s|
          invariant forall x :: 0 <= x < k ==> s[p + x] == pattern[x]
          decreases |pattern| - k
        {
          k := k + 1;
        }
        if k == |pattern| {
          assert s[p..p + k] == pattern;
          return p;
        }
        assert p + |pattern| <= |s| ==> s[p..p + |pattern|][k] == s[p + k];
        NoneHere(s, pattern, p, k);
        p := p + 1;
      }
      return -1;
    }

    method ScanForward(ghost s: string, ghost c: nat, i: nat, p: char -> bool) returns (r: nat)
      requires Shows(s, c) && c <= i <= |s|
      ensures r == Forward(s, i, p)
    {
      r := i;
      while buf[r] != '\0' && p(buf[r])
        invariant i <= r <= |s| && Forward(s, i, p) == Forward(s, r, p)
        decreases |s| - r
      {
        r := r + 1;
      }
    }

    method ScanBackward(ghost s: string, from: nat, c: nat, p: char -> bool) returns (r: nat)
      requires Shows(s, c) && c <= from <= |s|
      ensures r == Backward(s, from, c, p)
    {
      r := from;
      while r > c && p(buf[r - 1])
        invariant c <= r <= from && Backward(s, from, c, p) == Backward(s, r, c, p)
      {
        r := r - 1;
      }
    }

    /** The text up to `g`, then what is between `g` and `h` as a link to `prefix` and itself. */
    method OutputAnchor(ghost s: string, c: nat, g: nat, h: nat, prefix: string)
      requires Shows(s, c) && c <= g <= h <= |s|
      modifies buf, this
      ensures out == old(out) + [Plain(s[c..g]), Anchor(prefix + s[g..h], s[g..h])]
      ensures forall i :: 0 <= i < buf.Length ==> buf[i] == old(buf[i])
    {
      OutputUntil(s, c, g);
      var text := CutOut(s, g, h);
      out := out + [Anchor(prefix + text, text)];
    }

    // ----- the six cases -----

    method CaseInclude(ghost s: string, c: nat, f: nat, header: string -> Option<string>) returns (c2: nat)
      requires Shows(s, c) && c < f && f + 6 <= |s| && s[f..f + 6] == ".h&gt;"
      modifies buf, this
      ensures var cut := CutInclude(s, c, f, header);
              out == old(out) + cut.pieces && c2 == cut.c && Shows(s, c2)
    {
      var h := f + 2;
      var g := ScanBackward(s, f, c, NotSemicolon);
      var wroteInclude := false;
      c2 := c;
      if g != c {
        var file := buf[g..h];
        assert file == s[g..h];
        var dir := header(Trim(file));
        if dir.Some? {
          OutputUntil(s, c, g);
          buf[h] := '\0';
          out := out + [Include(dir.value, file)];
          c2 := f + 6;
          wroteInclude := true;
        }
      }
      if !wroteInclude {
        OutputUntil(s, c, f + 5);
        c2 := f + 5;
      }
    }

    method FindUrl(ghost s: string, c: nat, f: nat) returns (link: bool, g: nat, h: nat)
      requires Shows(s, c) && c < f && f + 3 <= |s|
      ensures c <= g <= h <= |s|
      ensures CutUrl(s, c, f) == if link then Cut([Plain(s[c..g]), Anchor("" + s[g..h], s[g..h])], h)
            else Cut([Plain(s[c..f + 1])], f + 1)
    {
      g := ScanBackward(s, f, c, IsLower);
      h := ScanForward(s, c, f + 3, UrlChar);
      var http := StrStr(s, c, "http://", c);
      var ftp := StrStr(s, c, "ftp://", c);
      link := 2 < f - g < 7 && h - f > 3 && (http >= 0 || ftp >= 0);
      assert "" + s[g..h] == s[g..h];
    }

    method CaseUrl(ghost s: string, c: nat, f: nat) returns (c2: nat)
      requires Shows(s, c) && c < f && f + 3 <= |s|
      modifies buf, this
      ensures var cut := CutUrl(s, c, f);
              out == old(out) + cut.pieces && c2 == cut.c && Shows(s, c2)
    {
      var link, g, h := FindUrl(s, c, f);
      if link {
        OutputAnchor(s, c, g, h, "");
        c2 := h;
      } else {
        OutputUntil(s, c, f + 1);
        c2 := f + 1;
      }
    }

    method FindMail(ghost s: string, c: nat, f: nat) returns (link: bool, g: nat, h: nat)
      requires Shows(s, c) && c < f && f + 1 <= |s|
      ensures c <= g <= h <= |s|
      ensures CutMail(s, c, f) == if link then Cut([Plain(s[c..g]), Anchor("mailto:" + s[g..h], s[g..h])], h)
            else Cut([Plain(s[c..f])], f)
    {
      g := ScanBackward(s, f, c, UserChar);
      if g >= c + 7 && buf[g - 1] == ':' {
        assert buf[g - 7..g] == s[g - 7..g];
        if buf[g - 7..g] == "mailto:" {
          g := g - 7;
        }
      }
      MailStartIs(s, c, f, g);
      h := ScanForward(s, c, f + 1, MailHostChar);
      link := h - f > 4 && f - g > 1;
    }

    method CaseMail(ghost s: string, c: nat, f: nat) returns (c2: nat)
      requires Shows(s, c) && c < f && f + 1 <= |s|
      modifies buf, this
      ensures var cut := CutMail(s, c, f);
              out == old(out) + cut.pieces && c2 == cut.c && Shows(s, c2)
    {
      var link, g, h := FindMail(s, c, f);
      if link {
        OutputAnchor(s, c, g, h, "mailto:");
        c2 := h;
      } else {
        OutputUntil(s, c, f);
        c2 := f;
      }
    }

    method CaseHost(ghost s: string, c: nat, f: nat, protocol: string) returns (c2: nat)
      requires Shows(s, c) && c <= f && f + 4 <= |s| && HostChar(s[f])
      modifies buf, this
      ensures var cut := CutHost(s, c, f, protocol);
              out == old(out) + cut.pieces && c2 == cut.c && Shows(s, c2)
    {
      var g := ScanForward(s, c, f, HostChar);
      if buf[g - 1] == '.' {
        g := g - 1;
      }
      if g - f > 4 {
        OutputAnchor(s, c, f, g, protocol + "://");
        c2 := g;
      } else {
        OutputUntil(s, c, f + 3);
        c2 := f + 3;
      }
    }

    // ----- manual pages -----

    method CheckSection(ghost s: string, c: nat, f: nat) returns (ok: bool, g: int)
      requires Shows(s, c) && c < f < |s| && s[f] == '('
      ensures g == Find(s, ")", f) && (ok <==> IsSection(s, c, f))
    {
      g := StrStr(s, c, ")", f);
      SectionTail(s, c, f);
      ok := g >= 0 && g - f < 12 && f + 2 <= g
            && (IsAlnum(buf[f - 1]) || buf[f - 1] == '>' || buf[f - 1] == ';')
            && (IsDigit(buf[f + 1]) || buf[f + 1] == 'n') && buf[f + 1] != '0'
            && (g - f <= 2 || IsAlpha(buf[f + 2]));
      if ok {
        var h := f + 2;
        while h < g
          invariant f + 2 <= h <= g && forall k :: f + 2 <= k < h ==> IsAlnum(s[k])
        {
          if !IsAlnum(buf[h]) {
            return false, g;
          }
          h := h + 1;
        }
      }
    }

    method FindNameEnd(ghost s: string, c: nat, f: nat) returns (h: int)
      requires Shows(s, c) && c < f < |s|
      ensures h == NameEnd(s, c, f)
    {
      if f - 1 > c + 5 {
        assert buf[f - 6..f] == s[f - 6..f];
      }
      if f - 1 > c + 6 {
        assert buf[f - 7..f] == s[f - 7..f];
      }
      if f - 1 > c + 5 && buf[f - 6..f] == "&nbsp;" {
        h := f - 7;
      } else if f - 1 > c + 6 && buf[f - 7..f] == "&#8239;" {
        h := f - 8;
      } else if buf[f - 1] == ';' {
        h := -1;
      } else {
        h := f - 1;
      }
    }

    method SkipMarkup(ghost s: string, c: nat, from: nat) returns (h: nat)
      requires Shows(s, c) && c <= from < |s|
      ensures h == SkipTags(s, from, c)
    {
      h := from;
      while h > c && buf[h] == '>'
        invariant c <= h <= from && SkipTags(s, from, c) == SkipTags(s, h, c)
        decreases h
      {
        ghost var was := h;
        while h != c && buf[h] != '<'
          invariant c <= h <= was && TagStart(s, was, c) == TagStart(s, h, c)
          decreases h
        {
          h := h - 1;
        }
        if h != c {
          h := h - 1;
        } else {
          return;
        }
      }
    }

    /** What the name from `start` to `last` is linked to. */
    method ReadHref(ghost s: string, ghost c: nat, f: nat, g: nat, start: nat, last: nat) returns (href: string)
      requires Shows(s, c) && c <= start <= last < f && f + 2 <= g <= |s|
      ensures href == Href(s, f, g, start, last)
    {
      var name := buf[start..last + 1];
      var digits := buf[f + 2..g];
      assert name == s[start..last + 1] && digits == s[f + 2..g];
      href := "man:/" + name + "(" + ([buf[f + 1]] + ToLower(digits)) + ")";
    }

    /** The end of the name in front of a section, or -1, and the section's parenthesis. */
    method SearchName(ghost s: string, c: nat, f: nat) returns (h: int, g: int)
      requires Shows(s, c) && c < f < |s| && s[f] == '('
      ensures g == Find(s, ")", f) && h == if IsSection(s, c, f) then NameEnd(s, c, f) else -1
      ensures h != -1 ==> c <= h < f && f + 2 <= g < |s|
    {
      var ok;
      ok, g := CheckSection(s, c, f);
      h := -1;
      if ok {
        SectionEnds(s, c, f);
        h := FindNameEnd(s, c, f);
      }
    }

    method SearchPage(ghost s: string, c: nat, f: nat) returns (page: Option<Page>)
      requires Shows(s, c) && c < f < |s| && s[f] == '('
      ensures page == FindPage(s, c, f)
    {
      var h, g := SearchName(s, c, f);
      if h == -1 {
        return None;
      }
      var last := SkipMarkup(s, c, h);
      if !IsAlnum(buf[last]) {
        return None;
      }
      var start := ScanBackward(s, last, c, NameChar);
      var href := ReadHref(s, c, f, g, start, last);
      return Some(Page(start, last + 1, href));
    }

    method CaseManPage(ghost s: string, c: nat, f: nat) returns (c2: nat)
      requires Shows(s, c) && c < f < |s| && s[f] == '('
      modifies buf, this
      ensures var cut := CutManPage(s, c, f);
              out == old(out) + cut.pieces && c2 == cut.c && Shows(s, c2)
    {
      var page := SearchPage(s, c, f);
      c2 := c;
      if page.Some? {
        OutputUntil(s, c, page.value.start);
        c2 := page.value.end;
        var name := CutOut(s, page.value.start, c2);
        out := out + [Anchor(page.value.href, name)];
      }
      OutputUntil(s, c2, f);
      c2 := f;
    }

    // ----- the loop -----

    /** The entries after the cursor has moved from `was` to `c`: those it has passed are looked for
        again. The source does so even if it means to search from behind the terminator; that is not
        `inside`. */
    method Refresh(ghost s: string, ghost was: nat, c: nat, idtest: seq<int>) returns (inside: bool, fresh6: seq<int>)
      requires Shows(s, c) && was <= c && |idtest| == 6
      requires forall k :: 0 <= k < 6 ==> Known(s, was, c, k, idtest[k])
      ensures inside <==> !Behind(s, c, idtest)
      ensures inside ==> fresh6 == Matches(s, c)
    {
      fresh6 := [];
      for k := 0 to 6
        invariant |fresh6| == k && forall i :: 0 <= i < k ==> fresh6[i] == Match(s, c, i)
        invariant forall i :: 0 <= i < k ==> !BehindAt(s, c, i, idtest[i])
      {
        assert Known(s, was, c, k, idtest[k]);
        MatchStays(s, was, c, k);
        var from := if k == 2 || k == 3 then c else c + 1;
        var entry := idtest[k];
        if entry >= 0 && entry < from {
          if from > end {
            assert BehindAt(s, c, k, idtest[k]);
            return false, fresh6;
          }
          entry := StrStr(s, c, PATTERNS[k], from);
        }
        fresh6 := fresh6 + [entry];
      }
      return true, fresh6;
    }

    method First(idtest: seq<int>) returns (j: int)
      requires |idtest| == 6
      ensures j == Nearest(idtest, 6)
    {
      j := -1;
      for i := 0 to 6
        invariant j == Nearest(idtest, i)
      {
        if idtest[i] >= 0 && (j < 0 || idtest[i] < idtest[j]) {
          j := i;
        }
      }
    }

    method Case(ghost s: string, c: nat, j: nat, f: nat, header: string -> Option<string>) returns (c2: nat)
      requires Shows(s, c) && j < 6 && f == Match(s, c, j)
      modifies buf, this
      ensures var cut := CutAt(s, c, j, f, header);
              out == old(out) + cut.pieces && c2 == cut.c && Shows(s, c2)
    {
      MatchInside(s, c, j);
      if j == 5 {
        c2 := CaseInclude(s, c, f, header);
      } else if j == 4 {
        c2 := CaseManPage(s, c, f);
      } else if j == 3 || j == 2 {
        HostInside(s, c, j);
        c2 := CaseHost(s, c, f, if j == 3 then "ftp" else "http");
      } else if j == 1 {
        c2 := CaseMail(s, c, f);
      } else {
        c2 := CaseUrl(s, c, f);
      }
    }

    /** The first matches of the line. */
    method Initial(ghost s: string) returns (idtest: seq<int>)
      requires Shows(s, 0)
      ensures idtest == Matches(s, 0)
    {
      idtest := [];
      for k := 0 to 6
        invariant |idtest| == k && forall i :: 0 <= i < k ==> idtest[i] == Match(s, 0, i)
      {
        var entry := StrStr(s, 0, PATTERNS[k], if k == 2 || k == 3 then 0 else 1);
        idtest := idtest + [entry];
      }
    }

    /** One turn of the loop. */
    method Turn(ghost s: string, c: nat, j: nat, idtest: seq<int>, header: string -> Option<string>)
      returns (inside: bool, c2: nat, idtest2: seq<int>)
      requires Shows(s, c) && idtest == Matches(s, c) && j == Nearest(idtest, 6)
      modifies buf, this
      ensures c < c2 <= |s| && (StaysInside(s, c, header) <==> inside && StaysInside(s, c2, header))
      ensures inside ==> Shows(s, c2) && idtest2 == Matches(s, c2)
      ensures inside ==> out + Links(s, c2, header) == old(out) + Links(s, c, header)
    {
      ghost var before := out;
      var f := idtest[j];
      LinksStep(s, c, header);
      c2 := Case(s, c, j, f, header);
      CutReaches(s, c, j, header);
      idtest2 := if j == 4 then idtest[4 := f - 1] else if j == 1 then idtest[1 := if c2 == f then c else f]
            else idtest;
      StillKnown(s, c, c2, f, j, idtest, idtest2);
      StraysIsBehind(s, c, c2, idtest, idtest2);
      inside, idtest2 := Refresh(s, c, c2, idtest2);
      Regroup(before, CutAt(s, c, j, f, header).pieces, Links(s, c2, header));
    }

    /** Every search begins inside the line, its terminator included, exactly if no turn strays; and then
        what is put out is what the line has links for. */
    method AddLinks(ghost s: string, header: string -> Option<string>) returns (inside: bool)
      requires Shows(s, 0)
      modifies buf, this
      ensures inside <==> StaysInside(s, 0, header)
      ensures inside ==> out == old(out) + Links(s, 0, header)
    {
      var c := 0;
      var idtest := Initial(s);
      var j := First(idtest);
      while j >= 0
        invariant Shows(s, c) && idtest == Matches(s, c) && j == Nearest(idtest, 6)
        invariant StaysInside(s, 0, header) <==> StaysInside(s, c, header)
        invariant old(out) + Links(s, 0, header) == out + Links(s, c, header)
        decreases |s| - c
      {
        inside, c, idtest := Turn(s, c, j, idtest, header);
        if !inside {
          return;
        }
        j := First(idtest);
      }
      OutputReal(s, c);
      return true;
    }
  }

  /** An entry the cursor has passed is to be looked for from behind the terminator on. */
  predicate BehindAt(s: string, c: nat, k: nat, entry: int) {
    c >= |s| && k != 2 && k != 3 && 0 <= entry <= c
  }

  predicate Behind(s: string, c: nat, idtest: seq<int>)
    requires |idtest| == 6
  {
    exists k :: 0 <= k < 6 && BehindAt(s, c, k, idtest[k])
  }

  lemma StraysIsBehind(s: string, c: nat, c2: nat, idtest: seq<int>, idtest2: seq<int>)
    requires idtest == Matches(s, c) && |idtest2| == 6 && c2 <= |s| && (c2 == |s| ==> idtest2 == idtest)
    ensures Strays(s, c, c2) <==> Behind(s, c2, idtest2)
  {
    if c2 == |s| {
      forall k | 0 <= k < 6 && k != 2 && k != 3 ensures BehindAt(s, c2, k, idtest2[k]) <==> Match(s, c, k) >= 0 {
        assert idtest2[k] == Match(s, c, k);
        if Match(s, c, k) >= 0 {
          MatchInside(s, c, k);
        }
      }
    }
  }

  lemma LinksStep(s: string, c: nat, header: string -> Option<string>)
    requires c <= |s| && Nearest(Matches(s, c), 6) >= 0
    ensures var j := Nearest(Matches(s, c), 6);
            var cut := CutAt(s, c, j, Match(s, c, j), header);
            && c < cut.c <= |s|
            && (StaysInside(s, c, header) <==> !Strays(s, c, cut.c) && StaysInside(s, cut.c, header))
            && Links(s, c, header) == cut.pieces + Links(s, cut.c, header)
  {
    CutConserves(s, c, Nearest(Matches(s, c), 6), header);
  }

  lemma SectionTail(s: string, c: nat, f: nat)
    requires c < f < |s| && s[f] == '('
    ensures IsSection(s, c, f) ==> f + 2 <= Find(s, ")", f)
    ensures var g := Find(s, ")", f); g >= 0 ==> g < |s|
  {
    if IsSection(s, c, f) {
      SectionEnds(s, c, f);
    }
    var g := Find(s, ")", f);
    assert g >= 0 ==> OccursAt(s, ")", g);
  }

  lemma MailStartIs(s: string, c: nat, f: nat, g: nat)
    requires c <= f <= |s|
    requires var b := Backward(s, f, c, UserChar);
             g == if b >= c + 7 && s[b - 1] == ':' && s[b - 7..b] == "mailto:" then b - 7 else b
    ensures g == MailStart(s, c, f)
  {
    var b := Backward(s, f, c, UserChar);
    assert b >= c + 7 ==> s[b - 7..b][6] == s[b - 1];
  }

  lemma NoneHere(s: string, pattern: string, p: nat, k: nat)
    requires p <= |s| && k < |pattern|
    requires p + k >= |s| || s[p + k] != pattern[k]
    ensures p < |s| ==> Find(s, pattern, p) == Find(s, pattern, p + 1)
  {
    if p + |pattern| <= |s| {
      assert s[p..p + |pattern|][k] == s[p + k];
    }
  }
}
