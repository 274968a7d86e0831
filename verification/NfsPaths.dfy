/** Paths as the NFS worker cuts and compares them (`QFileInfo::path`, `QFileInfo::fileName`,
    string prefixes), and what these string operations mean on component lists. */
module NfsPaths {
  import opened Text

  function LastSlash(path: string): (i: int)
    ensures -1 <= i < |path|
  {
    if path == "" then -1 else if path[|path| - 1] == '/' then |path| - 1 else LastSlash(path[..|path| - 1])
  }

  /** It is the last one. */
  lemma {:induction false} LastSlashLast(path: string)
    ensures LastSlash(path) >= 0 ==> path[LastSlash(path)] == '/'
    ensures forall k :: LastSlash(path) < k < |path| ==> path[k] != '/'
  {
    if path != "" && path[|path| - 1] != '/' {
      LastSlashLast(path[..|path| - 1]);
    }
  }

  /** `QFileInfo(path).path()` */
  function Parent(path: string): (p: string)
    ensures |p| < |path| || p == "." || p == "/"
  {
    var i := LastSlash(path);
    if i < 0 then "." else if i == 0 then "/" else path[..i]
  }

  /** `QFileInfo(path).fileName()` */
  function FileName(path: string): string {
    var i := LastSlash(path);
    if i < 0 then path else path[i + 1..]
  }

  predicate IsRoot(path: string) {
    path == "" || path == "/"
  }

  // ----- component lists -----

  predicate Component(c: string) {
    c != "" && Free('/', c)
  }

  predicate Components(cs: seq<string>) {
    forall i :: 0 <= i < |cs| ==> Component(cs[i])
  }

  /** The cleaned absolute path of a component list; the root is the empty string here. */
  function Join(cs: seq<string>): string {
    if cs == [] then "" else "/" + cs[0] + Join(cs[1..])
  }

  lemma {:induction false} JoinAppend(a: seq<string>, b: seq<string>)
    ensures Join(a + b) == Join(a) + Join(b)
  {
    if a == [] {
      assert a + b == b;
    } else {
      assert (a + b)[1..] == a[1..] + b;
      JoinAppend(a[1..], b);
    }
  }

  lemma JoinOne(c: string)
    ensures Join([c]) == "/" + c
  {
    assert [c][1..] == [];
  }

  /** Where a component ends is decided by the next slash. */
  lemma SameComponent(a: string, x: string, b: string, y: string)
    requires Free('/', a) && Free('/', b) && y != "" && y[0] == '/'
    requires x == "" || x[0] == '/'
    requires StartsWith(a + x, b + y)
    ensures a == b && StartsWith(x, y)
  {
    var s := a + x;
    assert s[..|b + y|] == b + y;
    assert s[|b|] == (b + y)[|b|] == '/';
    assert forall i :: 0 <= i < |a| ==> s[i] == a[i];
    assert forall i :: 0 <= i < |b| ==> s[i] == (b + y)[i] == b[i];
    assert x != "" ==> s[|a|] == '/';
    assert |a| == |b|;
    assert a == s[..|a|] == b;
    assert x == s[|a|..];
    assert x[..|y|] == s[|a|..|a| + |y|] == y;
  }

  lemma JoinStarts(cs: seq<string>)
    ensures Join(cs) == "" || Join(cs)[0] == '/'
  {
  }

  /** String prefix with a separator is component prefix, strictly. */
  lemma {:induction false} PrefixAgrees(d: seq<string>, e: seq<string>)
    requires Components(d) && Components(e)
    ensures StartsWith(Join(e), Join(d) + "/") <==> d < e
  {
    if d < e {
      assert e == d + e[|d|..];
      JoinAppend(d, e[|d|..]);
      assert Join(e[|d|..])[0] == '/';
      assert Join(e)[..|Join(d) + "/"|] == Join(d) + "/";
    }
    if StartsWith(Join(e), Join(d) + "/") {
      PrefixStrings(d, e);
    }
  }

  lemma {:induction false} PrefixStrings(d: seq<string>, e: seq<string>)
    requires Components(d) && Components(e) && StartsWith(Join(e), Join(d) + "/")
    ensures d < e
  {
    assert Join(e) != "";
    if d != [] {
      var x, y := Join(e[1..]), Join(d[1..]) + "/";
      JoinStarts(e[1..]);
      JoinStarts(d[1..]);
      assert Component(d[0]) && Component(e[0]);
      assert Join(e) == "/" + (e[0] + x) && Join(d) + "/" == "/" + (d[0] + y);
      assert (e[0] + x) == Join(e)[1..] && (d[0] + y) == (Join(d) + "/")[1..];
      assert StartsWith(e[0] + x, d[0] + y);
      SameComponent(e[0], x, d[0], y);
      PrefixStrings(d[1..], e[1..]);
      assert d == [d[0]] + d[1..] && e == [e[0]] + e[1..];
    }
  }

  lemma {:induction false} JoinInjective(a: seq<string>, b: seq<string>)
    requires Components(a) && Components(b) && Join(a) == Join(b)
    ensures a == b
  {
    if a == [] || b == [] {
    } else {
      JoinStarts(a[1..]);
      JoinStarts(b[1..]);
      var x, y := Join(a[1..]), Join(b[1..]);
      assert Component(a[0]) && Component(b[0]);
      assert a[0] + x == Join(a)[1..] && b[0] + y == Join(b)[1..];
      assert StartsWith(a[0] + (x + "/"), b[0] + (y + "/")) by { assert a[0] + (x + "/") == (a[0] + x) + "/"
            == b[0] + (y + "/"); }
      SameComponent(a[0], x + "/", b[0], y + "/");
      assert x == y by { assert x == (a[0] + x)[|a[0]|..] && y == (b[0] + y)[|b[0]|..]; }
      JoinInjective(a[1..], b[1..]);
      assert a == [a[0]] + a[1..] && b == [b[0]] + b[1..];
    }
  }

  lemma LastSlashIs(p: string, n: nat)
    requires n < |p| && p[n] == '/' && Free('/', p[n + 1..])
    ensures LastSlash(p) == n
  {
    LastSlashLast(p);
    assert forall k :: n < k < |p| ==> p[k] == p[n + 1..][k - n - 1];
  }

  /** Cutting off the last component. */
  lemma ParentOf(cs: seq<string>, c: string)
    requires Components(cs) && Component(c)
    ensures var path := Join(cs + [c]);
            && Parent(path) == (if cs == [] then "/" else Join(cs))
            && FileName(path) == c
            && !IsRoot(path)
  {
    JoinAppend(cs, [c]);
    JoinOne(c);
    var path, n := Join(cs + [c]), |Join(cs)|;
    assert path == Join(cs) + ("/" + c);
    assert path[n + 1..] == c && path[n] == '/' && path[..n] == Join(cs);
    LastSlashIs(path, n);
    if cs != [] {
      assert n > 0;
    }
  }
}
