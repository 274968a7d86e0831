/** When a map from paths to file handles says exactly what the slow walk would find, and what
    this client's own changes of the tree do to it. */
module NfsCoherence {
  import opened Text
  import opened NfsPaths
  import opened NfsExports
  import opened NfsTree
  import opened NfsWalk
  import opened NfsChanges

  type Cache = map<string, Handle>

  /** Every cached path is a valid path, and its handle is the one the walk finds. */
  ghost predicate Agrees(m: Mounted, t: Tree, cache: Cache) {
    forall p :: p in cache ==> Walk(m, t, p) == Some(cache[p])
  }

  /** The tree is one a client can rely on: entries lead to nodes, a directory has one path. */
  ghost predicate Tidy(m: Mounted, t: Tree) {
    Sound(m.exports) && Closed(t) && Unaliased(m, t)
  }

  /** Names a path: mounts are looked for where a path is named only. */
  predicate Named(path: string) {
    true
  }

  ghost predicate Mounts(m: Mounted, cache: Cache) {
    forall e {:trigger Named(e)} :: Named(e) && e in m.handles ==> e in m.exports && e in cache
  }

  /** The cache agrees with the walk and holds all mounts. */
  ghost predicate Coherent(m: Mounted, t: Tree, cache: Cache) {
    Mounts(m, cache) && Agrees(m, t, cache)
  }

  /** The entry `path`: its directory is not virtual and has handle `dir`. */
  predicate IsEntry(m: Mounted, t: Tree, path: string, dir: Handle) {
    !Virtual(m.exports, Parent(path)) && Walk(m, t, Parent(path)) == Some(dir)
  }

  lemma EntryRoute(m: Mounted, t: Tree, path: string, dir: Handle) returns (r: Route)
    requires Sound(m.exports) && IsEntry(m, t, path, dir)
    ensures RouteOf(m.exports, path) == Some(r) && Leads(m, t, r, dir) && Last(r) == FileName(path)
    ensures path !in m.exports && Walk(m, t, path) == Lookup(t, dir, FileName(path)) == At(m, t, r)
  {
    Glued(m.exports, path);
    RouteIsPath(m.exports, path);
    r := RouteOf(m.exports, path).value;
    Extend(RouteOf(m.exports, Parent(path)).value, FileName(path));
    AtUp(m, t, r);
  }

  lemma CachedAfter(m: Mounted, t: Tree, t2: Tree, p: string, h: Handle, but: set<Route>)
    requires Sound(m.exports) && Keeps(m, t, t2, but) && Walk(m, t, p) == Some(h)
    requires RouteOf(m.exports, p).Some? && RouteOf(m.exports, p).value !in but
    ensures Walk(m, t2, p) == Some(h)
  {
    RouteIsPath(m.exports, p);
  }

  lemma OtherRoute(m: Mounted, p: string, path: string, r: Route)
    requires Sound(m.exports) && p != path && RouteOf(m.exports, path) == Some(r)
    ensures RouteOf(m.exports, p) != Some(r)
  {
    if RouteOf(m.exports, p) == Some(r) {
      SameRoute(m.exports, p, path);
    }
  }

  /** One path changed: the others stay right. */
  lemma OneChanged(m: Mounted, t: Tree, t2: Tree, cache: Cache, path: string, r: Route)
    requires Sound(m.exports) && Agrees(m, t, cache) && Keeps(m, t, t2, {r}) && RouteOf(m.exports, path) == Some(r)
    ensures Agrees(m, t2, cache - {path})
  {
    forall p | p in cache && p != path ensures Walk(m, t2, p) == Some(cache[p]) {
      OtherRoute(m, p, path, r);
      CachedAfter(m, t, t2, p, cache[p], {r});
    }
  }

  lemma TwoChanged(m: Mounted, t: Tree, t2: Tree, cache: Cache, src: string, s: Route, dest: string, d: Route)
    requires Sound(m.exports) && Agrees(m, t, cache) && Keeps(m, t, t2, {s, d})
    requires RouteOf(m.exports, src) == Some(s) && RouteOf(m.exports, dest) == Some(d)
    ensures Agrees(m, t2, cache - {src} - {dest})
  {
    forall p | p in cache && p != src && p != dest ensures Walk(m, t2, p) == Some(cache[p]) {
      OtherRoute(m, p, src, s);
      OtherRoute(m, p, dest, d);
      CachedAfter(m, t, t2, p, cache[p], {s, d});
    }
  }

  /** After a removal all other cached paths stay right, and the removed one is no path any more. */
  lemma RemovalCoherent(m: Mounted, t: Tree, cache: Cache, path: string, dir: Handle, asDirectory: bool)
    requires Tidy(m, t) && Coherent(m, t, cache) && IsEntry(m, t, path, dir)
    requires Remove(t, dir, FileName(path), asDirectory).Some?
    ensures var t2 := Remove(t, dir, FileName(path), asDirectory).value;
            Walk(m, t2, path) == None && Tidy(m, t2) && Coherent(m, t2, cache - {path})
  {
    var r := EntryRoute(m, t, path, dir);
    RemoveLeaf(m, t, r, dir);
    OneChanged(m, t, Without(t, dir, FileName(path)), cache, path, r);
  }

  /** After a creation all cached paths stay right and the created path leads to its file. */
  lemma CreationCoherent(m: Mounted, t: Tree, cache: Cache, path: string, dir: Handle, unused: Handle)
    requires Tidy(m, t) && Coherent(m, t, cache) && IsEntry(m, t, path, dir)
    requires Create(t, dir, FileName(path), unused).Some?
    ensures var made := Create(t, dir, FileName(path), unused).value;
            Tidy(m, made.0) && Coherent(m, made.0, cache) && Walk(m, made.0, path) == Some(made.1)
                  && IsFile(made.0, made.1)
  {
    var r := EntryRoute(m, t, path, dir);
    Creation(m, t, r, dir, unused);
    CreateResult(t, dir, FileName(path), unused);
    NoneChanged(m, t, Create(t, dir, FileName(path), unused).value.0, cache);
  }

  /** After MKDIR, too, and the path leads to the new directory. */
  lemma MakeDirCoherent(m: Mounted, t: Tree, cache: Cache, path: string, dir: Handle, unused: Handle)
    requires Tidy(m, t) && Coherent(m, t, cache) && IsEntry(m, t, path, dir) && unused !in m.handles.Values
    requires MakeDir(t, dir, FileName(path), unused).Some?
    ensures var t2 := MakeDir(t, dir, FileName(path), unused).value;
            && Tidy(m, t2) && Coherent(m, t2, cache)
            && Walk(m, t, path) == None && Walk(m, t2, path) == Some(unused) && IsDir(t2, unused)
  {
    var r := EntryRoute(m, t, path, dir);
    NewDirectory(m, t, r, dir, unused);
    NoneChanged(m, t, MakeDir(t, dir, FileName(path), unused).value, cache);
  }

  lemma NoneChanged(m: Mounted, t: Tree, t2: Tree, cache: Cache)
    requires Sound(m.exports) && Agrees(m, t, cache) && Keeps(m, t, t2, {})
    ensures Agrees(m, t2, cache)
  {
    forall p | p in cache ensures Walk(m, t2, p) == Some(cache[p]) {
      CachedAfter(m, t, t2, p, cache[p], {});
    }
  }

  // ----- renames -----

  /** The client's bookkeeping after a successful rename and lookup. */
  function Moved(cache: Cache, src: string, dest: string, h: Handle): Cache {
    (cache - {src})[dest := h]
  }

  lemma FileRenameRouted(m: Mounted, t: Tree, cache: Cache, src: string, s: Route, from: Handle, dest: string,
          d: Route, to: Handle, h: Handle)
    requires Tidy(m, t) && Coherent(m, t, cache) && Leads(m, t, s, from) && Leads(m, t, d, to)
    requires RouteOf(m.exports, src) == Some(s) && RouteOf(m.exports, dest) == Some(d)
    requires Lookup(t, from, Last(s)) == Some(h) && IsFile(t, h)
    requires Rename(t, from, Last(s), to, Last(d)).Some?
    ensures var t2 := Rename(t, from, Last(s), to, Last(d)).value;
            && Walk(m, t2, dest) == Some(h)
            && Tidy(m, t2) && Agrees(m, t2, cache - {src} - {dest})
  {
    FileMove(m, t, s, from, d, to, h);
    TwoChanged(m, t, Rename(t, from, Last(s), to, Last(d)).value, cache, src, s, dest, d);
  }

  lemma MovedMounts(m: Mounted, cache: Cache, src: string, dest: string, h: Handle)
    requires Mounts(m, cache) && src !in m.exports && dest !in m.exports
    ensures Mounts(m, Moved(cache, src, dest, h)) && Mounts(m, cache - {src} - {dest})
  {
  }

  /** After a file was moved, whatever was at its new name, all cached paths but the two names
      stay right, and the client's bookkeeping makes these two right as well. */
  lemma FileRenameCoherent(m: Mounted, t: Tree, cache: Cache, src: string, from: Handle, dest: string, to: Handle,
          h: Handle)
    requires Tidy(m, t) && Coherent(m, t, cache) && IsEntry(m, t, src, from) && IsEntry(m, t, dest, to)
    requires Lookup(t, from, FileName(src)) == Some(h) && IsFile(t, h)
    requires Rename(t, from, FileName(src), to, FileName(dest)).Some?
    ensures var t2 := Rename(t, from, FileName(src), to, FileName(dest)).value;
            && Walk(m, t2, dest) == Some(h) && Tidy(m, t2)
            && Coherent(m, t2, cache - {src} - {dest})
            && Coherent(m, t2, Moved(cache, src, dest, h))
  {
    var t2 := Rename(t, from, FileName(src), to, FileName(dest)).value;
    var s := EntryRoute(m, t, src, from);
    var d := EntryRoute(m, t, dest, to);
    FileRenameRouted(m, t, cache, src, s, from, dest, d, to, h);
    MovedMounts(m, cache, src, dest, h);
    MovedAgrees(m, t2, cache, src, dest, h);
  }

  /** Without that bookkeeping the cache stays right exactly if neither name was cached. */
  lemma FileRenameUnnoticed(m: Mounted, t: Tree, cache: Cache, src: string, from: Handle, dest: string, to: Handle)
    requires Tidy(m, t) && Coherent(m, t, cache) && IsEntry(m, t, src, from) && IsEntry(m, t, dest, to)
    requires Lookup(t, from, FileName(src)).Some? && IsFile(t, Lookup(t, from, FileName(src)).value)
    requires Rename(t, from, FileName(src), to, FileName(dest)).Some?
    ensures var t2 := Rename(t, from, FileName(src), to, FileName(dest)).value;
            t2 != t ==> (Coherent(m, t2, cache) <==> src !in cache && dest !in cache)
  {
    var t2, h := Rename(t, from, FileName(src), to, FileName(dest)).value, Lookup(t, from, FileName(src)).value;
    FileRenameCoherent(m, t, cache, src, from, dest, to, h);
    if t2 != t {
      var s := EntryRoute(m, t, src, from);
      var d := EntryRoute(m, t, dest, to);
      FileMoveShows(m, t, s, from, d, to, h);
      assert Walk(m, t2, src) == None && Walk(m, t2, dest) != Walk(m, t, dest);
      NeitherKey(cache, src, dest);
    }
  }

  lemma NeitherKey(cache: Cache, src: string, dest: string)
    ensures src !in cache && dest !in cache ==> cache - {src} - {dest} == cache
  {
  }

  lemma MovedAgrees(m: Mounted, t2: Tree, cache: Cache, src: string, dest: string, h: Handle)
    requires Agrees(m, t2, cache - {src} - {dest}) && Walk(m, t2, dest) == Some(h)
    ensures Agrees(m, t2, Moved(cache, src, dest, h))
  {
    var after := Moved(cache, src, dest, h);
    forall p | p in after ensures Walk(m, t2, p) == Some(after[p]) {
      assert p != dest ==> p in cache - {src} - {dest} && after[p] == cache[p];
    }
  }

  /** Path `p` lies strictly below `src`. */
  predicate Beneath(m: Mounted, p: string, src: string) {
    && p != src && RouteOf(m.exports, p).Some? && RouteOf(m.exports, src).Some?
    && AtOrUnder(RouteOf(m.exports, p).value, RouteOf(m.exports, src).value)
  }

  /** Where the other cached paths lead after a directory was moved. */
  lemma OthersAfterMove(m: Mounted, t: Tree, src: string, s: Route, from: Handle, to: Handle, name: string, h: Handle,
          p: string, hp: Handle)
    requires Sound(m.exports) && Unaliased(m, t) && RouteOf(m.exports, src) == Some(s) && Leads(m, t, s, from)
    requires Lookup(t, from, Last(s)) == Some(h) && IsDir(t, to) && Lookup(t, to, name) == None
    requires Walk(m, t, p) == Some(hp) && p != src
    ensures Walk(m, With(Without(t, from, Last(s)), to, name, h), p) == if Beneath(m, p, src) then None else Some(hp)
  {
    RouteIsPath(m.exports, p);
    var r := RouteOf(m.exports, p).value;
    if AtOrUnder(r, s) {
      MoveEnds(m, t, s, from, to, name, h, r);
    } else {
      MoveKeeps(m, t, s, from, to, name, h, r);
    }
  }

  lemma MovedAgreesIff(m: Mounted, t2: Tree, cache: Cache, src: string, dest: string, h: Handle)
    requires Walk(m, t2, dest) == Some(h) && dest !in cache
    requires forall p :: p in cache && p != src ==>
               Walk(m, t2, p) == (if Beneath(m, p, src) then None else Some(cache[p]))
    ensures Agrees(m, t2, Moved(cache, src, dest, h)) <==> forall p :: p in cache ==> !Beneath(m, p, src)
  {
    var after := Moved(cache, src, dest, h);
    if forall p :: p in cache ==> !Beneath(m, p, src) {
      forall p | p in after ensures Walk(m, t2, p) == Some(after[p]) {
        assert p != dest ==> p in cache && p != src;
      }
    } else {
      var p :| p in cache && Beneath(m, p, src);
      assert p != src && p in after;
      assert Walk(m, t2, p) == None;
    }
  }

  lemma DirectoryRenameRouted(m: Mounted, t: Tree, cache: Cache, src: string, s: Route, from: Handle, dest: string,
          d: Route, to: Handle, h: Handle)
    requires Tidy(m, t) && Coherent(m, t, cache) && Leads(m, t, s, from) && Leads(m, t, d, to)
    requires RouteOf(m.exports, src) == Some(s) && RouteOf(m.exports, dest) == Some(d) && !AtOrUnder(d, s)
    requires Lookup(t, from, Last(s)) == Some(h) && IsDir(t, to) && Lookup(t, to, Last(d)) == None
    ensures var t2 := With(Without(t, from, Last(s)), to, Last(d), h);
            Agrees(m, t2, Moved(cache, src, dest, h)) <==> forall p :: p in cache ==> !Beneath(m, p, src)
  {
    var t1 := Without(t, from, Last(s));
    var t2 := With(t1, to, Last(d), h);
    MoveKeeps(m, t, s, from, to, Last(d), h, Up(d));
    AtUp(m, t, d);
    AtUp(m, t2, d);
    WithLookup(t1, to, Last(d), h, to, Last(d));
    forall p | p in cache && p != src
      ensures Walk(m, t2, p) == (if Beneath(m, p, src) then None else Some(cache[p]))
    {
      OthersAfterMove(m, t, src, s, from, to, Last(d), h, p, cache[p]);
    }
    assert Walk(m, t, dest) == None;
    MovedAgreesIff(m, t2, cache, src, dest, h);
  }

  lemma NotBeneath(m: Mounted, dest: string, d: Route, src: string, s: Route)
    requires src != dest && !Beneath(m, dest, src)
    requires RouteOf(m.exports, src) == Some(s) && RouteOf(m.exports, dest) == Some(d)
    ensures !AtOrUnder(d, s)
  {
  }

  lemma RenameToFreeName(t: Tree, from: Handle, fromName: string, to: Handle, toName: string, h: Handle)
    requires Lookup(t, from, fromName) == Some(h) && h in t && IsDir(t, to) && Lookup(t, to, toName) == None
    ensures Rename(t, from, fromName, to, toName) == Some(With(Without(t, from, fromName), to, toName, h))
  {
  }

  /** After a directory was moved to a free name outside itself, the cache is right exactly when
      nothing strictly below the old name was cached. */
  lemma DirectoryRenameCoherent(m: Mounted, t: Tree, cache: Cache, src: string, from: Handle, dest: string, to: Handle,
          h: Handle)
    requires Tidy(m, t) && Coherent(m, t, cache) && IsEntry(m, t, src, from) && IsEntry(m, t, dest, to)
    requires Lookup(t, from, FileName(src)) == Some(h) && IsDir(t, h)
    requires IsDir(t, to) && Lookup(t, to, FileName(dest)) == None
    requires src != dest && !Beneath(m, dest, src)
    ensures Rename(t, from, FileName(src), to, FileName(dest)).Some?
    ensures var t2 := Rename(t, from, FileName(src), to, FileName(dest)).value;
            Agrees(m, t2, Moved(cache, src, dest, h)) <==> forall p :: p in cache ==> !Beneath(m, p, src)
  {
    var s := EntryRoute(m, t, src, from);
    var d := EntryRoute(m, t, dest, to);
    NotBeneath(m, dest, d, src, s);
    RenameToFreeName(t, from, FileName(src), to, FileName(dest), h);
    DirectoryRenameRouted(m, t, cache, src, s, from, dest, d, to, h);
  }

  /** Such a case: "/e" is exported, "/e/a/f" is cached, "/e/a" becomes "/e/b". */
  lemma DirectoryRenameLeavesStale() returns (m: Mounted, t: Tree, f: string)
    ensures m == Mounted(["/e"], map["/e" := 1]) && f == "/e/a/f"
    ensures t == map[1 := Dir(map["a" := 2]), 2 := Dir(map["f" := 3]), 3 := File]
    ensures Walk(m, t, f) == Some(3)
    ensures Rename(t, 1, "a", 1, "b").Some? && Walk(m, Rename(t, 1, "a", 1, "b").value, f) == None
  {
    m, f := Mounted(["/e"], map["/e" := 1]), "/e/a/f";
    t := map[1 := Dir(map["a" := 2]), 2 := Dir(map["f" := 3]), 3 := File];
    ExampleRoute();
    RenameToFreeName(t, 1, "a", 1, "b", 2);
    var t1 := Without(t, 1, "a");
    WithoutLookup(t, 1, "a", 1, "a");
    WithLookup(t1, 1, "b", 2, 1, "a");
    FollowTwo(t, 1, "a", "f");
    FollowTwo(With(t1, 1, "b", 2), 1, "a", "f");
  }

  /** And one for a file, when nothing is noted: "/e/a/f" is cached and becomes "/e/a/g". */
  lemma FileRenameLeavesStale() returns (m: Mounted, t: Tree, f: string)
    ensures m == Mounted(["/e"], map["/e" := 1]) && f == "/e/a/f"
    ensures t == map[1 := Dir(map["a" := 2]), 2 := Dir(map["f" := 3]), 3 := File]
    ensures Walk(m, t, f) == Some(3)
    ensures Rename(t, 2, "f", 2, "g").Some? && Walk(m, Rename(t, 2, "f", 2, "g").value, f) == None
  {
    m, f := Mounted(["/e"], map["/e" := 1]), "/e/a/f";
    t := map[1 := Dir(map["a" := 2]), 2 := Dir(map["f" := 3]), 3 := File];
    ExampleRoute();
    RenameToFreeName(t, 2, "f", 2, "g", 3);
    var t1 := Without(t, 2, "f");
    WithoutLookup(t, 2, "f", 2, "f");
    WithLookup(t1, 2, "g", 3, 2, "f");
    FollowTwo(t, 1, "a", "f");
    FollowTwo(With(t1, 2, "g", 3), 1, "a", "f");
  }

  lemma ExampleRoute()
    ensures RouteOf(["/e"], "/e/a/f") == Some(Route("/e", ["a", "f"]))
  {
    var e, below := ["e"], ["a", "f"];
    JoinOne("e");
    JoinOne("f");
    assert below == ["a"] + ["f"];
    JoinOne("a");
    JoinAppend(["a"], ["f"]);
    JoinAppend(e, below);
    assert Join(e + below) == "/e/a/f";
    assert Component("e") && Component("a") && Component("f");
    assert e + below == ["e", "a", "f"];
    assert forall k :: 0 < k <= |below| ==> |e + below[..k]| > 1;
    RouteOfCleaned(["/e"], [e], e, below);
  }

  lemma FollowTwo(t: Tree, start: Handle, a: string, b: string)
    ensures Follow(t, start, [a, b]) ==
            match Lookup(t, start, a)
            case None => None
            case Some(dir) => Lookup(t, dir, b)
  {
    assert [a, b][..1] == [a] && [a][..0] == [];
    assert Follow(t, start, [a]) == Lookup(t, start, a);
  }
}
