/** What CREATE, MKDIR, REMOVE, RMDIR and RENAME (sections 3.3.8, 3.3.9, 3.3.12 to 3.3.14 of RFC 1813) do to
    the handles all routes lead to. */
module NfsChanges {
  import opened Text
  import opened NfsTree
  import opened NfsWalk

  /** Route `r` is an entry of the directory `dir`. */
  ghost predicate Leads(m: Mounted, t: Tree, r: Route, dir: Handle) {
    IsRoute(m.exports, r) && r.below != [] && At(m, t, Up(r)) == Some(dir)
  }

  /** All routes but those in `but` lead where they led. */
  ghost predicate Keeps(m: Mounted, t: Tree, t2: Tree, but: set<Route>) {
    forall r {:trigger At(m, t2, r)} ::
      IsRoute(m.exports, r) && r !in but && At(m, t, r).Some? ==> At(m, t2, r) == At(m, t, r)
  }

  lemma RemoveLeaf(m: Mounted, t: Tree, gone: Route, dir: Handle)
    requires Unaliased(m, t) && Closed(t) && Leads(m, t, gone, dir)
    requires At(m, t, gone).Some? && Leaf(t, At(m, t, gone).value)
    ensures var t2 := Without(t, dir, Last(gone));
            Unaliased(m, t2) && Closed(t2) && Keeps(m, t, t2, {gone}) && At(m, t2, gone) == None
  {
    RemovalUnaliased(m, t, dir, Last(gone));
    WithoutClosed(t, dir, Last(gone));
    RemovalEnds(m, t, gone, dir);
    forall r | IsRoute(m.exports, r) && r !in {gone} && At(m, t, r).Some?
      ensures At(m, Without(t, dir, Last(gone)), r) == At(m, t, r)
    {
      RemovalKeeps(m, t, gone, dir, r);
    }
  }

  lemma AddFile(m: Mounted, t: Tree, r: Route, dir: Handle, h: Handle)
    requires Unaliased(m, t) && Closed(t) && Leads(m, t, r, dir)
    requires IsDir(t, dir) && Lookup(t, dir, Last(r)) == None && IsFile(t, h)
    ensures var t2 := With(t, dir, Last(r), h);
            Unaliased(m, t2) && Closed(t2) && Keeps(m, t, t2, {}) && At(m, t2, r) == Some(h)
  {
    AdditionUnaliased(m, t, dir, Last(r), h);
    AdditionLeads(m, t, r, dir, h);
    WithClosed(t, dir, Last(r), h);
    forall r2 | IsRoute(m.exports, r2) && r2 !in {} && At(m, t, r2).Some?
      ensures At(m, With(t, dir, Last(r), h), r2) == At(m, t, r2)
    {
      AdditionKeeps(m, t, dir, Last(r), h, r2);
    }
  }

  /** A file moved to a free name. */
  lemma FileToFreeName(m: Mounted, t: Tree, s: Route, from: Handle, d: Route, to: Handle, h: Handle)
    requires Unaliased(m, t) && Closed(t) && Leads(m, t, s, from) && Leads(m, t, d, to)
    requires Lookup(t, from, Last(s)) == Some(h) && IsFile(t, h)
    requires IsDir(t, to) && Lookup(t, to, Last(d)) == None
    ensures var t2 := With(Without(t, from, Last(s)), to, Last(d), h);
            Unaliased(m, t2) && Closed(t2) && Keeps(m, t, t2, {s}) && At(m, t2, d) == Some(h)
  {
    var t1 := Without(t, from, Last(s));
    AtUp(m, t, s);
    AtUp(m, t, d);
    RemoveLeaf(m, t, s, from);
    assert At(m, t1, Up(d)) == Some(to);
    WithoutLookup(t, from, Last(s), to, Last(d));
    assert IsDir(t1, to) && IsFile(t1, h);
    AddFile(m, t1, d, to, h);
  }

  lemma FileOverFile(m: Mounted, t: Tree, s: Route, from: Handle, d: Route, to: Handle, h: Handle, g: Handle)
    requires Unaliased(m, t) && Closed(t) && Leads(m, t, s, from) && Leads(m, t, d, to)
    requires Lookup(t, from, Last(s)) == Some(h) && IsFile(t, h)
    requires Lookup(t, to, Last(d)) == Some(g) && IsFile(t, g) && g != h && IsDir(t, to)
    ensures var t2 := With(Without(Without(t, to, Last(d)), from, Last(s)), to, Last(d), h);
            Unaliased(m, t2) && Closed(t2) && Keeps(m, t, t2, {s, d}) && At(m, t2, d) == Some(h)
  {
    var t0 := Without(t, to, Last(d));
    AtUp(m, t, d);
    RemoveLeaf(m, t, d, to);
    assert At(m, t0, Up(s)) == Some(from) && At(m, t0, Up(d)) == Some(to);
    WithoutLookup(t, to, Last(d), from, Last(s));
    WithoutLookup(t, to, Last(d), to, Last(d));
    assert IsDir(t0, to) && IsFile(t0, h);
    FileToFreeName(m, t0, s, from, d, to, h);
  }

  /** After a file was moved, whatever was at its new name, all routes but the two names lead
      where they led, and the new name leads to the file. */
  lemma FileMove(m: Mounted, t: Tree, s: Route, from: Handle, d: Route, to: Handle, h: Handle)
    requires Unaliased(m, t) && Closed(t) && Leads(m, t, s, from) && Leads(m, t, d, to)
    requires Lookup(t, from, Last(s)) == Some(h) && IsFile(t, h)
    requires Rename(t, from, Last(s), to, Last(d)).Some?
    ensures var t2 := Rename(t, from, Last(s), to, Last(d)).value;
            Unaliased(m, t2) && Closed(t2) && Keeps(m, t, t2, {s, d}) && At(m, t2, d) == Some(h)
  {
    match Lookup(t, to, Last(d)) {
      case None =>
        FileToFreeName(m, t, s, from, d, to, h);
      case Some(g) =>
        AtUp(m, t, d);
        if g != h {
          FileOverFile(m, t, s, from, d, to, h, g);
        }
    }
  }

  /** If that changed the tree, the old name leads nowhere, and the new one elsewhere than before. */
  lemma FileMoveShows(m: Mounted, t: Tree, s: Route, from: Handle, d: Route, to: Handle, h: Handle)
    requires Unaliased(m, t) && Closed(t) && Leads(m, t, s, from) && Leads(m, t, d, to)
    requires Lookup(t, from, Last(s)) == Some(h) && IsFile(t, h)
    requires Rename(t, from, Last(s), to, Last(d)).Some? && Rename(t, from, Last(s), to, Last(d)) != Some(t)
    ensures var t2 := Rename(t, from, Last(s), to, Last(d)).value;
            At(m, t2, s) == None && At(m, t2, d) != At(m, t, d)
  {
    var t2 := Rename(t, from, Last(s), to, Last(d)).value;
    FileMove(m, t, s, from, d, to, h);
    RenameTakesAway(t, from, Last(s), to, Last(d));
    AtUp(m, t, d);
    assert Up(s) != d;
    assert At(m, t2, Up(s)) == At(m, t, Up(s));
    AtUp(m, t2, s);
  }

  // ----- creation -----

  lemma FreshSameWalks(m: Mounted, t: Tree, unused: Handle)
    requires unused !in t
    ensures forall r: Route :: At(m, t[unused := File], r) == At(m, t, r)
  {
    forall r: Route ensures At(m, t[unused := File], r) == At(m, t, r) {
      if r.mount in m.handles {
        FreshFollow(t, unused, m.handles[r.mount], r.below);
      }
    }
  }

  lemma FreshUnaliased(m: Mounted, t: Tree, unused: Handle)
    requires unused !in t && Unaliased(m, t)
    ensures Unaliased(m, t[unused := File])
  {
    FreshSameWalks(m, t, unused);
    var t2 := t[unused := File];
    forall r, s | IsRoute(m.exports, r) && IsRoute(m.exports, s) && At(m, t2, r).Some? && At(m, t2, r) == At(m, t2, s)
          && IsDir(t2, At(m, t2, r).value)
      ensures r == s
    {
      assert At(m, t, r) == At(m, t, s);
    }
  }

  lemma Creation(m: Mounted, t: Tree, r: Route, dir: Handle, unused: Handle)
    requires Unaliased(m, t) && Closed(t) && Leads(m, t, r, dir) && Create(t, dir, Last(r), unused).Some?
    ensures var made := Create(t, dir, Last(r), unused).value;
            Unaliased(m, made.0) && Closed(made.0) && Keeps(m, t, made.0, {}) && At(m, made.0, r) == Some(made.1)
  {
    CreateResult(t, dir, Last(r), unused);
    if Lookup(t, dir, Last(r)) == None {
      FreshSameWalks(m, t, unused);
      FreshUnaliased(m, t, unused);
      FreshClosed(t, unused);
      AddFile(m, t[unused := File], r, dir, unused);
    } else {
      AtUp(m, t, r);
    }
  }

  /** Only its entry leads to a node that was not there before. */
  lemma OnlyEntry(m: Mounted, t: Tree, r: Route, dir: Handle, unused: Handle, r2: Route)
    requires Closed(t) && Leads(m, t, r, dir) && Lookup(t, dir, Last(r)) == None
    requires Create(t, dir, Last(r), unused).Some? && unused !in m.handles.Values
    ensures var t2 := Create(t, dir, Last(r), unused).value.0;
            At(m, t2, r2) == Some(unused) ==> r2.below != [] && At(m, t2, Up(r2)) == Some(dir) && Last(r2) == Last(r)
  {
    var t2 := Create(t, dir, Last(r), unused).value.0;
    if At(m, t2, r2) == Some(unused) {
      AtUp(m, t2, r2);
      var d := At(m, t2, Up(r2)).value;
      CreateResult(t, dir, Last(r), unused);
      WithLookup(t[unused := File], dir, Last(r), unused, d, Last(r2));
      assert Lookup(t[unused := File], d, Last(r2)) == Lookup(t, d, Last(r2));
    }
  }

  /** A new directory leaves all handles as they were and leads to itself. */
  lemma NewDirectory(m: Mounted, t: Tree, r: Route, dir: Handle, unused: Handle)
    requires Unaliased(m, t) && Closed(t) && Leads(m, t, r, dir) && unused !in m.handles.Values
    requires MakeDir(t, dir, Last(r), unused).Some?
    ensures var t2 := MakeDir(t, dir, Last(r), unused).value;
            && Unaliased(m, t2) && Closed(t2) && Keeps(m, t, t2, {})
            && At(m, t2, r) == Some(unused) && IsDir(t2, unused)
  {
    var d, f := MakeDir(t, dir, Last(r), unused).value, Create(t, dir, Last(r), unused).value.0;
    MakeDirLookups(t, dir, Last(r), unused);
    Creation(m, t, r, dir, unused);
    SameWalks(m, d, f);
    forall a, b | IsRoute(m.exports, a) && IsRoute(m.exports, b) && At(m, d, a).Some? && At(m, d, a) == At(m, d, b)
          && IsDir(d, At(m, d, a).value)
      ensures a == b
    {
      assert At(m, f, a) == At(m, f, b);
      if At(m, f, a) == Some(unused) {
        OnlyEntry(m, t, r, dir, unused, a);
        OnlyEntry(m, t, r, dir, unused, b);
        assert At(m, f, Up(a)) == At(m, f, Up(b)) && IsDir(f, dir);
        SameEnds(a, b);
      }
    }
  }

  lemma SameWalks(m: Mounted, t: Tree, t2: Tree)
    requires forall x, n :: Lookup(t, x, n) == Lookup(t2, x, n)
    ensures forall r: Route :: At(m, t, r) == At(m, t2, r)
  {
    forall r: Route ensures At(m, t, r) == At(m, t2, r) {
      if r.mount in m.handles {
        SameFollow(t, t2, m.handles[r.mount], r.below);
      }
    }
  }

  // ----- directories -----

  /** Route `r` is `s` or leads on from it. */
  predicate AtOrUnder(r: Route, s: Route) {
    r.mount == s.mount && s.below <= r.below
  }

  lemma UnderUp(r: Route, s: Route)
    requires r.below != [] && AtOrUnder(r, s)
    ensures r == s || AtOrUnder(Up(r), s)
  {
    if |r.below| == |s.below| {
      assert r.below == s.below;
    } else {
      assert s.below <= r.below[..|r.below| - 1];
    }
  }

  lemma {:induction false} MoveKeeps(m: Mounted, t: Tree, s: Route, from: Handle, to: Handle, name: string, h: Handle,
          r: Route)
    requires Unaliased(m, t) && IsRoute(m.exports, s) && IsRoute(m.exports, r)
    requires s.below != [] && At(m, t, Up(s)) == Some(from) && IsDir(t, from)
    requires IsDir(t, to) && Lookup(t, to, name) == None
    requires At(m, t, r).Some? && !AtOrUnder(r, s)
    ensures At(m, With(Without(t, from, Last(s)), to, name, h), r) == At(m, t, r)
    decreases |r.below|
  {
    if r.below != [] {
      var t1 := Without(t, from, Last(s));
      var t2 := With(t1, to, name, h);
      assert !AtOrUnder(Up(r), s);
      AtUp(m, t, r);
      AtUp(m, t2, r);
      MoveKeeps(m, t, s, from, to, name, h, Up(r));
      var d := At(m, t, Up(r)).value;
      WithoutLookup(t, from, Last(s), d, Last(r));
      WithLookup(t1, to, name, h, d, Last(r));
      SameEnds(r, s);
    }
  }

  lemma {:induction false} MoveEnds(m: Mounted, t: Tree, s: Route, from: Handle, to: Handle, name: string, h: Handle,
          r: Route)
    requires Unaliased(m, t) && IsRoute(m.exports, s)
    requires s.below != [] && At(m, t, Up(s)) == Some(from) && IsDir(t, from)
    requires IsDir(t, to) && Lookup(t, to, name) == None && Lookup(t, from, Last(s)).Some?
    requires AtOrUnder(r, s)
    ensures At(m, With(Without(t, from, Last(s)), to, name, h), r) == None
    decreases |r.below|
  {
    var t1 := Without(t, from, Last(s));
    var t2 := With(t1, to, name, h);
    assert r.below != [];
    AtUp(m, t2, r);
    if r == s {
      assert !AtOrUnder(Up(s), s);
      MoveKeeps(m, t, s, from, to, name, h, Up(s));
      WithoutLookup(t, from, Last(s), from, Last(s));
      WithLookup(t1, to, name, h, from, Last(s));
    } else {
      UnderUp(r, s);
      MoveEnds(m, t, s, from, to, name, h, Up(r));
    }
  }

}
