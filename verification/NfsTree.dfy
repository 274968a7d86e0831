/** The server's side of section 3.3 of RFC 1813 (LOOKUP, CREATE, MKDIR, REMOVE, RMDIR, RENAME) on a
    tree without symbolic links, and the slow walk that cached file handles are to agree with. */
module NfsTree {
  import opened Text

  type Handle = nat

  datatype Node = File | Dir(names: map<string, Handle>)

  type Tree = map<Handle, Node>

  /** LOOKUP (section 3.3.3) */
  function Lookup(t: Tree, dir: Handle, name: string): Option<Handle> {
    if dir in t && t[dir].Dir? && name in t[dir].names then Some(t[dir].names[name]) else None
  }

  predicate IsDir(t: Tree, h: Handle) {
    h in t && t[h].Dir?
  }

  predicate IsFile(t: Tree, h: Handle) {
    h in t && t[h].File?
  }

  /** LOOKUP after LOOKUP. */
  function Follow(t: Tree, start: Handle, cs: seq<string>): Option<Handle> {
    if cs == [] then Some(start)
    else
      match Follow(t, start, cs[..|cs| - 1])
      case None => None
      case Some(dir) => Lookup(t, dir, cs[|cs| - 1])
  }

  /** Entries lead to nodes. */
  ghost predicate Closed(t: Tree) {
    forall dir, name {:trigger Lookup(t, dir, name)} :: Lookup(t, dir, name).Some? ==> Lookup(t, dir, name).value in t
  }

  // ----- changing one entry -----

  function Without(t: Tree, dir: Handle, name: string): Tree {
    if IsDir(t, dir) then t[dir := Dir(t[dir].names - {name})] else t
  }

  function With(t: Tree, dir: Handle, name: string, h: Handle): Tree {
    if IsDir(t, dir) then t[dir := Dir(t[dir].names[name := h])] else t
  }

  /** Nothing can be looked up in a file or an empty directory. */
  predicate Leaf(t: Tree, h: Handle) {
    h in t && (t[h].Dir? ==> t[h].names == map[])
  }

  lemma WithoutLookup(t: Tree, dir: Handle, name: string, d: Handle, n: string)
    ensures Lookup(Without(t, dir, name), d, n) == if d == dir && n == name then None else Lookup(t, d, n)
  {
  }

  lemma WithLookup(t: Tree, dir: Handle, name: string, h: Handle, d: Handle, n: string)
    requires IsDir(t, dir)
    ensures Lookup(With(t, dir, name, h), d, n) == if d == dir && n == name then Some(h) else Lookup(t, d, n)
  {
  }

  /** Taking away an entry takes away walks only. */
  lemma {:induction false} WithoutShrinks(t: Tree, dir: Handle, name: string, start: Handle, cs: seq<string>)
    ensures Follow(Without(t, dir, name), start, cs).Some?
          ==> Follow(Without(t, dir, name), start, cs) == Follow(t, start, cs)
  {
    if cs != [] {
      var upto := cs[..|cs| - 1];
      WithoutShrinks(t, dir, name, start, upto);
      if Follow(t, start, upto).Some? {
        WithoutLookup(t, dir, name, Follow(t, start, upto).value, cs[|cs| - 1]);
      }
    }
  }

  /** Adding an entry for a file keeps every walk and adds only walks to that file. */
  lemma {:induction false} WithKeeps(t: Tree, dir: Handle, name: string, h: Handle, start: Handle, cs: seq<string>)
    requires IsDir(t, dir) && Lookup(t, dir, name) == None && h in t && t[h].File?
    ensures var w := Follow(With(t, dir, name, h), start, cs);
            && (Follow(t, start, cs).Some? ==> w == Follow(t, start, cs))
            && (w.Some? ==> w == Follow(t, start, cs) || w == Some(h))
  {
    if cs != [] {
      var upto := cs[..|cs| - 1];
      WithKeeps(t, dir, name, h, start, upto);
      var w := Follow(With(t, dir, name, h), start, upto);
      if w.Some? {
        WithLookup(t, dir, name, h, w.value, cs[|cs| - 1]);
      }
    }
  }

  lemma WithoutClosed(t: Tree, dir: Handle, name: string)
    requires Closed(t)
    ensures Closed(Without(t, dir, name))
  {
    forall d, n | Lookup(Without(t, dir, name), d, n).Some? ensures Lookup(Without(t, dir, name), d,
          n).value in Without(t, dir, name) {
      WithoutLookup(t, dir, name, d, n);
      assert Lookup(t, d, n).Some?;
    }
  }

  lemma WithClosed(t: Tree, dir: Handle, name: string, h: Handle)
    requires Closed(t) && IsDir(t, dir) && h in t
    ensures Closed(With(t, dir, name, h))
  {
    forall d, n | Lookup(With(t, dir, name, h), d, n).Some? ensures Lookup(With(t, dir, name, h), d,
          n).value in With(t, dir, name, h) {
      WithLookup(t, dir, name, h, d, n);
      assert Lookup(t, d, n).Some? ==> Lookup(t, d, n).value in t;
    }
  }

  /** A node nobody points to changes nothing. */
  lemma {:induction false} FreshFollow(t: Tree, unused: Handle, start: Handle, cs: seq<string>)
    requires unused !in t
    ensures Follow(t[unused := File], start, cs) == Follow(t, start, cs)
  {
    if cs != [] {
      FreshFollow(t, unused, start, cs[..|cs| - 1]);
    }
  }

  lemma FreshClosed(t: Tree, unused: Handle)
    requires unused !in t && Closed(t)
    ensures Closed(t[unused := File])
  {
    var t2 := t[unused := File];
    forall d, n | Lookup(t2, d, n).Some? ensures Lookup(t2, d, n).value in t2 {
      assert Lookup(t, d, n) == Lookup(t2, d, n);
    }
  }

  // ----- the server's procedures; `None` is an error status -----

  /** UNCHECKED creation with size 0: an existing file is kept (emptied), a directory is not. */
  function Create(t: Tree, dir: Handle, name: string, unused: Handle): Option<(Tree, Handle)> {
    if !IsDir(t, dir) then None
    else
      match Lookup(t, dir, name)
      case Some(h) => if h in t && t[h].File? then Some((t, h)) else None
      case None => if unused in t then None else Some((With(t[unused := File], dir, name, unused), unused))
  }

  /** A name in use is refused. */
  function MakeDir(t: Tree, dir: Handle, name: string, unused: Handle): Option<Tree> {
    if !IsDir(t, dir) || Lookup(t, dir, name).Some? || unused in t then None
    else Some(With(t[unused := Dir(map[])], dir, name, unused))
  }

  /** REMOVE for anything but directories, RMDIR for empty directories. */
  function Remove(t: Tree, dir: Handle, name: string, asDirectory: bool): Option<Tree> {
    match Lookup(t, dir, name)
    case None => None
    case Some(h) => if Leaf(t, h) && IsDir(t, h) == asDirectory then Some(Without(t, dir, name)) else None
  }

  function Rename(t: Tree, from: Handle, fromName: string, to: Handle, toName: string): Option<Tree> {
    match Lookup(t, from, fromName)
    case None => None
    case Some(h) =>
      if h !in t || !IsDir(t, to) then None
      else
        match Lookup(t, to, toName)
        case None => Some(With(Without(t, from, fromName), to, toName, h))
        case Some(g) =>
          if g == h then Some(t)
          else if Leaf(t, g) && IsDir(t, g) == IsDir(t, h) then
            Some(With(Without(Without(t, to, toName), from, fromName), to, toName, h))
          else None
  }

  /** A rename that changes the tree takes the old name away and the object from the new one. */
  lemma RenameTakesAway(t: Tree, from: Handle, fromName: string, to: Handle, toName: string)
    requires Rename(t, from, fromName, to, toName).Some? && Rename(t, from, fromName, to, toName) != Some(t)
    ensures var t2 := Rename(t, from, fromName, to, toName).value;
            && Lookup(t2, from, fromName) == None
            && Lookup(t2, to, toName) == Lookup(t, from, fromName) != Lookup(t, to, toName)
  {
    var h := Lookup(t, from, fromName).value;
    var t0 := if Lookup(t, to, toName).None? then t else Without(t, to, toName);
    WithoutLookup(t, to, toName, from, fromName);
    WithoutLookup(t0, from, fromName, from, fromName);
    WithLookup(Without(t0, from, fromName), to, toName, h, from, fromName);
    WithLookup(Without(t0, from, fromName), to, toName, h, to, toName);
  }

  lemma WithFile(t: Tree, dir: Handle, name: string, h: Handle)
    requires IsDir(t, dir) && IsFile(t, h)
    ensures IsFile(With(t, dir, name, h), h)
  {
  }

  /** Where creation leads, on the tree alone. */
  lemma CreateResult(t: Tree, dir: Handle, name: string, unused: Handle)
    requires Create(t, dir, name, unused).Some?
    ensures var made := Create(t, dir, name, unused).value;
            && IsFile(made.0, made.1)
            && match Lookup(t, dir, name) {
                 case Some(h) => made == (t, h)
                 case None =>
                   var t1 := t[unused := File];
                   && unused !in t && IsDir(t1, dir) && IsFile(t1, unused) && Lookup(t1, dir, name) == None
                   && made == (With(t1, dir, name, unused), unused)
               }
  {
    if Lookup(t, dir, name) == None {
      WithFile(t[unused := File], dir, name, unused);
    }
  }

  /** For every lookup a new directory is like a new file. */
  lemma MakeDirLookups(t: Tree, dir: Handle, name: string, unused: Handle)
    requires MakeDir(t, dir, name, unused).Some?
    ensures Create(t, dir, name, unused).Some? && Create(t, dir, name, unused).value.1 == unused
    ensures var d, f := MakeDir(t, dir, name, unused).value, Create(t, dir, name, unused).value.0;
            && IsDir(d, unused) && d.Keys == f.Keys && unused !in t
            && (forall x, n :: Lookup(d, x, n) == Lookup(f, x, n))
            && (forall x :: x != unused ==> IsDir(d, x) == IsDir(f, x))
  {
  }

  lemma {:induction false} SameFollow(t: Tree, t2: Tree, start: Handle, cs: seq<string>)
    requires forall x, n :: Lookup(t, x, n) == Lookup(t2, x, n)
    ensures Follow(t, start, cs) == Follow(t2, start, cs)
  {
    if cs != [] {
      SameFollow(t, t2, start, cs[..|cs| - 1]);
    }
  }
}
