/** Which handle a path stands for: the mount of its covering export, then LOOKUP component by
    component; and how each change of the tree moves these handles. */
module NfsWalk {
  import opened Text
  import opened NfsPaths
  import opened NfsExports
  import opened NfsTree

  /** What mounting gave: the exported directories, and the handles of those that could be mounted. */
  datatype Mounted = Mounted(exports: seq<string>, handles: map<string, Handle>)

  datatype Route = Route(mount: string, below: seq<string>)

  predicate Stuck(path: string) {
    Parent(path) == path
  }

  function Rank(path: string): nat {
    if Stuck(path) then 0 else |path| + 1
  }

  lemma ParentRank(path: string)
    requires !Stuck(path)
    ensures Rank(Parent(path)) < Rank(path)
  {
  }

  /** The covering export of a path and the components below it. */
  function RouteOf(exports: seq<string>, path: string): Option<Route>
    decreases Rank(path)
  {
    if path in exports then Some(Route(path, []))
    else if !OnServer(exports, path) || Stuck(path) then None
    else
      ParentRank(path);
      match RouteOf(exports, Parent(path))
      case None => None
      case Some(r) => Some(r.(below := r.below + [FileName(path)]))
  }

  /** The handle at a route's end. */
  function At(m: Mounted, t: Tree, r: Route): Option<Handle> {
    if r.mount in m.handles then Follow(t, m.handles[r.mount], r.below) else None
  }

  function Walk(m: Mounted, t: Tree, path: string): Option<Handle> {
    match RouteOf(m.exports, path)
    case None => None
    case Some(r) => At(m, t, r)
  }

  /** No export stands for the root or the current directory: `openConnection` never adds one. */
  predicate Sound(exports: seq<string>) {
    "/" !in exports && "." !in exports
  }

  function PathOfRoute(r: Route): string {
    r.mount + Join(r.below)
  }

  predicate IsRoute(exports: seq<string>, r: Route)
    decreases |r.below|
  {
    && r.mount in exports
    && (r.below == [] || (IsRoute(exports, Up(r)) && PathOfRoute(r) !in exports))
  }

  function Up(r: Route): Route
    requires r.below != []
  {
    r.(below := r.below[..|r.below| - 1])
  }

  function Last(r: Route): string
    requires r.below != []
  {
    r.below[|r.below| - 1]
  }

  lemma SameEnds(r: Route, s: Route)
    requires r.below != [] && s.below != []
    ensures Up(r) == Up(s) && Last(r) == Last(s) ==> r == s
  {
    assert r.below == r.below[..|r.below| - 1] + [Last(r)] && s.below == s.below[..|s.below| - 1] + [Last(s)];
  }

  lemma AtUp(m: Mounted, t: Tree, r: Route)
    requires r.below != []
    ensures At(m, t, r) == match At(m, t, Up(r)) { case None => None case Some(dir) => Lookup(t, dir, Last(r)) }
  {
  }

  // ----- paths and routes -----

  /** A path that has a parent on the server is that parent, a slash and its last component. */
  lemma Glued(exports: seq<string>, path: string)
    requires Sound(exports) && RouteOf(exports, Parent(path)).Some?
    ensures path == Parent(path) + "/" + FileName(path)
    ensures OnServer(exports, path) && !Stuck(path)
    ensures path in exports ==> Virtual(exports, Parent(path))
  {
    var p := Parent(path);
    assert Stuck("/") && Stuck(".");
    LastSlashLast(path);
    assert path == path[..LastSlash(path)] + "/" + path[LastSlash(path) + 1..];
    assert StartsWith(path, p + "/");
    assert OnServer(exports, p) by {
      if p in exports {
        var i :| 0 <= i < |exports| && exports[i] == p;
        assert AtOrBelow(p, exports[i]);
      }
    }
    assert !IsRoot(p);
    BelowServed(exports, p, path);
    if path in exports {
      var i :| 0 <= i < |exports| && exports[i] == path;
      assert Above(p, exports[i]);
    }
  }

  lemma BelowServed(exports: seq<string>, p: string, path: string)
    requires OnServer(exports, p) && !IsRoot(p) && StartsWith(path, p + "/")
    ensures OnServer(exports, path)
  {
    var i :| 0 <= i < |exports| && AtOrBelow(p, exports[i]);
    var e := exports[i] + "/";
    assert StartsWith(p + "/", e);
    assert path[..|e|] == (p + "/")[..|e|];
    assert AtOrBelow(path, exports[i]);
  }

  lemma {:induction false} RouteIsPath(exports: seq<string>, path: string)
    requires Sound(exports) && RouteOf(exports, path).Some?
    ensures var r := RouteOf(exports, path).value;
            PathOfRoute(r) == path && IsRoute(exports, r)
    decreases Rank(path)
  {
    if path !in exports {
      var p, c := Parent(path), FileName(path);
      ParentRank(path);
      RouteIsPath(exports, p);
      Glued(exports, path);
      Extend(RouteOf(exports, p).value, c);
    }
  }

  lemma Extend(up: Route, c: string)
    ensures var r := up.(below := up.below + [c]);
            Up(r) == up && PathOfRoute(r) == PathOfRoute(up) + "/" + c
  {
    JoinAppend(up.below, [c]);
    JoinOne(c);
    var r := up.(below := up.below + [c]);
    assert Up(r) == up;
    assert PathOfRoute(r) == up.mount + (Join(up.below) + ("/" + c)) == PathOfRoute(up) + "/" + c;
  }

  lemma SameRoute(exports: seq<string>, p: string, q: string)
    requires Sound(exports) && RouteOf(exports, p).Some? && RouteOf(exports, p) == RouteOf(exports, q)
    ensures p == q
  {
    RouteIsPath(exports, p);
    RouteIsPath(exports, q);
  }

  /** For cleaned paths the route is what one expects: the longest export that is a prefix, and
      the components after it. */
  lemma {:induction false} RouteOfCleaned(exports: seq<string>, ecs: seq<seq<string>>, e: seq<string>,
          below: seq<string>)
    requires Cleaned(exports, ecs) && Components(e + below) && e in ecs
    requires forall k :: 0 < k <= |below| ==> e + below[..k] !in ecs
    ensures RouteOf(exports, Join(e + below)) == Some(Route(Join(e), below))
    decreases |below|
  {
    if below == [] {
      assert e + below == e;
      NotExport(exports, ecs, e);
    } else {
      var n := |below| - 1;
      var upto, c := below[..n], below[n];
      assert below == upto + [c] && e + below == (e + upto) + [c];
      assert Components(e + upto) by { assert forall i :: 0 <= i < |e + upto| ==> (e + upto)[i] == (e + below)[i]; }
      assert Component(c) by { assert c == (e + below)[|e + upto|]; }
      assert forall k :: 0 < k <= |upto| ==> upto[..k] == below[..k];
      RouteOfCleaned(exports, ecs, e, upto);
      assert below[..|below|] == below;
      LastStep(exports, ecs, e + upto, c, Route(Join(e), upto));
    }
  }

  lemma LastStep(exports: seq<string>, ecs: seq<seq<string>>, d: seq<string>, c: string, r: Route)
    requires Cleaned(exports, ecs) && Components(d) && Component(c) && d != [] && d + [c] !in ecs
    requires RouteOf(exports, Join(d)) == Some(r)
    ensures RouteOf(exports, Join(d + [c])) == Some(r.(below := r.below + [c]))
  {
    ParentOf(d, c);
    NotExport(exports, ecs, d + [c]);
    JoinAppend(d, [c]);
    JoinOne(c);
    var path := Join(d + [c]);
    assert path == Join(d) + ("/" + c);
    assert StartsWith(path, Join(d) + "/");
    assert Component(d[0]);
    assert |Join(d)| > 1;
    if Join(d) in exports {
      var i :| 0 <= i < |exports| && exports[i] == Join(d);
      assert AtOrBelow(Join(d), exports[i]);
    }
    BelowServed(exports, Join(d), path);
  }

  lemma NotExport(exports: seq<string>, ecs: seq<seq<string>>, d: seq<string>)
    requires Cleaned(exports, ecs) && Components(d)
    ensures Join(d) in exports <==> d in ecs
  {
    if Join(d) in exports {
      var i :| 0 <= i < |exports| && exports[i] == Join(d);
      JoinInjective(d, ecs[i]);
    }
    if d in ecs {
      var i :| 0 <= i < |ecs| && ecs[i] == d;
      assert exports[i] == Join(d);
    }
  }

  // ----- what a change of the tree does to the handles of all paths -----

  /** A directory is reached by one route only. */
  ghost predicate Unaliased(m: Mounted, t: Tree) {
    forall r, s {:trigger At(m, t, r), At(m, t, s)} ::
      (IsRoute(m.exports, r) && IsRoute(m.exports, s) && At(m, t, r).Some? && At(m, t, r) == At(m, t, s)
       && IsDir(t, At(m, t, r).value)) ==> r == s
  }

  /** Taking away the entry of a leaf takes away only the walk to that leaf. */
  lemma {:induction false} RemovalKeeps(m: Mounted, t: Tree, gone: Route, dir: Handle, r: Route)
    requires Unaliased(m, t)
    requires IsRoute(m.exports, gone) && gone.below != [] && At(m, t, Up(gone)) == Some(dir)
    requires At(m, t, gone).Some? && Leaf(t, At(m, t, gone).value)
    requires IsRoute(m.exports, r) && r != gone && At(m, t, r).Some?
    ensures At(m, Without(t, dir, Last(gone)), r) == At(m, t, r)
    decreases |r.below|
  {
    if r.below != [] {
      var up, t2 := Up(r), Without(t, dir, Last(gone));
      AtUp(m, t, r);
      AtUp(m, t, gone);
      AtUp(m, t2, r);
      var d := At(m, t, up).value;
      assert up != gone;
      RemovalKeeps(m, t, gone, dir, up);
      WithoutLookup(t, dir, Last(gone), d, Last(r));
      SameEnds(r, gone);
    }
  }

  lemma RemovalEnds(m: Mounted, t: Tree, gone: Route, dir: Handle)
    requires gone.below != [] && At(m, t, Up(gone)) == Some(dir)
    ensures At(m, Without(t, dir, Last(gone)), gone) == None
  {
    var t2 := Without(t, dir, Last(gone));
    AtUp(m, t2, gone);
    if At(m, t2, Up(gone)).Some? {
      WithoutShrinks(t, dir, Last(gone), m.handles[gone.mount], Up(gone).below);
      WithoutLookup(t, dir, Last(gone), dir, Last(gone));
    }
  }

  lemma RemovalUnaliased(m: Mounted, t: Tree, dir: Handle, name: string)
    requires Unaliased(m, t)
    ensures Unaliased(m, Without(t, dir, name))
  {
    var t2 := Without(t, dir, name);
    forall r, s | IsRoute(m.exports, r) && IsRoute(m.exports, s) && At(m, t2, r).Some? && At(m, t2, r) == At(m, t2, s)
          && IsDir(t2, At(m, t2, r).value)
      ensures r == s
    {
      WithoutShrinks(t, dir, name, m.handles[r.mount], r.below);
      WithoutShrinks(t, dir, name, m.handles[s.mount], s.below);
      assert At(m, t, r) == At(m, t, s);
    }
  }

  lemma AdditionKeeps(m: Mounted, t: Tree, dir: Handle, name: string, h: Handle, r: Route)
    requires IsDir(t, dir) && Lookup(t, dir, name) == None && h in t && t[h].File?
    ensures var w := At(m, With(t, dir, name, h), r);
            && (At(m, t, r).Some? ==> w == At(m, t, r))
            && (w.Some? ==> w == At(m, t, r) || w == Some(h))
  {
    if r.mount in m.handles {
      WithKeeps(t, dir, name, h, m.handles[r.mount], r.below);
    }
  }

  lemma AdditionUnaliased(m: Mounted, t: Tree, dir: Handle, name: string, h: Handle)
    requires Unaliased(m, t)
    requires IsDir(t, dir) && Lookup(t, dir, name) == None && h in t && t[h].File?
    ensures Unaliased(m, With(t, dir, name, h))
  {
    var t2 := With(t, dir, name, h);
    forall r, s | IsRoute(m.exports, r) && IsRoute(m.exports, s) && At(m, t2, r).Some? && At(m, t2, r) == At(m, t2, s)
          && IsDir(t2, At(m, t2, r).value)
      ensures r == s
    {
      AdditionKeeps(m, t, dir, name, h, r);
      AdditionKeeps(m, t, dir, name, h, s);
      assert At(m, t2, r) != Some(h);
      assert At(m, t, r) == At(m, t, s);
    }
  }

  lemma AdditionLeads(m: Mounted, t: Tree, r: Route, dir: Handle, h: Handle)
    requires r.below != [] && At(m, t, Up(r)) == Some(dir) && IsDir(t, dir) && Lookup(t, dir, Last(r)) == None
    requires h in t && t[h].File?
    ensures At(m, With(t, dir, Last(r), h), r) == Some(h)
  {
    AdditionKeeps(m, t, dir, Last(r), h, Up(r));
    AtUp(m, With(t, dir, Last(r), h), r);
    WithLookup(t, dir, Last(r), h, dir, Last(r));
  }
}
