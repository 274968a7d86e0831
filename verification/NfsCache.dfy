/** The handle cache of the NFS worker: `getFileHandle`, `lookupFileHandle` and `lookupHandle` in
    their mutual recursion, the operations that change the tree, and the listings that fill it
    (nfs/kio_nfs.cpp:545-610, nfs/nfsv3.cpp:143-150, 310-599, 680-726, 1664-1719, 1754-1789, 1834-1970). */
module NfsCache {
  import opened Text
  import opened NfsPaths
  import opened NfsExports
  import opened NfsTree
  import opened NfsWalk
  import opened NfsCoherence

  /** What becomes of one remote call: executed and answered; refused with an error status; lost
      on the way there; executed, but the reply lost. */
  datatype Fate = Answered | Refused | Lost | ReplyLost

  datatype Error = ConnectionBroken | CannotMount | CannotEnterDirectory | DoesNotExist | RemoteError

  datatype Found = Found(handle: Handle) | Failed(error: Error)

  /** An exported directory and what mounting it gave. */
  datatype Offer = Offer(path: string, handle: Option<Handle>)

  /** What looking up the last component in the walked parent gives. */
  function Child(m: Mounted, t: Tree, path: string): Option<Handle> {
    match Walk(m, t, Parent(path))
    case None => None
    case Some(dir) => Lookup(t, dir, FileName(path))
  }

  predicate Extends(before: Cache, after: Cache) {
    forall p :: p in before ==> p in after && after[p] == before[p]
  }

  lemma ExportWalk(m: Mounted, t: Tree, path: string)
    requires path in m.exports && Sound(m.exports)
    ensures Walk(m, t, path) == if path in m.handles then Some(m.handles[path]) else None
  {
  }

  lemma NoWalk(m: Mounted, t: Tree, path: string)
    requires Sound(m.exports) && (!OnServer(m.exports, path) || (Stuck(path) && path !in m.exports))
    ensures Walk(m, t, path) == None
  {
    assert forall i :: 0 <= i < |m.exports| && m.exports[i] == path ==> AtOrBelow(path, m.exports[i]);
  }

  lemma RouteStep(exports: seq<string>, path: string)
    requires path !in exports && OnServer(exports, path) && !Stuck(path)
    ensures RouteOf(exports, path) ==
            match RouteOf(exports, Parent(path))
            case None => None
            case Some(up) => Some(up.(below := up.below + [FileName(path)]))
  {
  }

  lemma StepOfWalk(m: Mounted, t: Tree, path: string, parent: string, name: string)
    requires RouteOf(m.exports, path) ==
             match RouteOf(m.exports, parent)
             case None => None
             case Some(up) => Some(up.(below := up.below + [name]))
    ensures Walk(m, t, path) == match Walk(m, t, parent) case None => None case Some(dir) => Lookup(t, dir, name)
  {
    if RouteOf(m.exports, parent).Some? {
      var up := RouteOf(m.exports, parent).value;
      Extend(up, name);
      AtUp(m, t, up.(below := up.below + [name]));
    }
  }

  lemma ChildWalk(m: Mounted, t: Tree, path: string)
    requires Sound(m.exports) && path !in m.exports && OnServer(m.exports, path) && !Stuck(path)
    ensures Walk(m, t, path) == Child(m, t, path)
  {
    RouteStep(m.exports, path);
    StepOfWalk(m, t, path, Parent(path), FileName(path));
  }

  lemma CachedWalk(m: Mounted, t: Tree, cache: Cache, path: string)
    requires path in cache
    ensures Coherent(m, t, cache) ==> Walk(m, t, path) == Some(cache[path])
  {
  }

  lemma CoherentWith(m: Mounted, t: Tree, cache: Cache, path: string, h: Handle)
    requires Coherent(m, t, cache) && Walk(m, t, path) == Some(h)
    ensures Coherent(m, t, cache[path := h])
  {
  }

  /** `after` is `before` without the entry of `path`. */
  ghost predicate RemovedFrom(m: Mounted, before: Tree, path: string, after: Tree) {
    exists dir, asDirectory :: Walk(m, before, Parent(path)) == Some(dir)
                               && Remove(before, dir, FileName(path), asDirectory) == Some(after)
  }

  lemma RemovalShows(t: Tree, dir: Handle, name: string, asDirectory: bool)
    requires Remove(t, dir, name, asDirectory).Some?
    ensures Remove(t, dir, name, asDirectory).value != t
  {
    WithoutLookup(t, dir, name, dir, name);
  }

  lemma AbsentKey(cache: Cache, path: string)
    ensures path !in cache ==> cache - {path} == cache
  {
  }

  lemma RemovalOutcome(m: Mounted, t: Tree, cache: Cache, path: string, dir: Handle, asDirectory: bool, t2: Tree)
    requires Tidy(m, t) && Coherent(m, t, cache) && IsEntry(m, t, path, dir)
    requires Remove(t, dir, FileName(path), asDirectory) == Some(t2)
    ensures t2 != t && Walk(m, t2, path) == None && Tidy(m, t2) && RemovedFrom(m, t, path, t2)
    ensures Coherent(m, t2, cache - {path}) && (Coherent(m, t2, cache) <==> path !in cache)
  {
    RemovalCoherent(m, t, cache, path, dir, asDirectory);
    RemovalShows(t, dir, FileName(path), asDirectory);
    AbsentKey(cache, path);
  }

  lemma CreationOutcome(m: Mounted, t: Tree, cache: Cache, path: string, dir: Handle, unused: Handle)
    requires Tidy(m, t) && Coherent(m, t, cache) && IsEntry(m, t, path, dir)
    requires Create(t, dir, FileName(path), unused).Some?
    ensures var made := Create(t, dir, FileName(path), unused).value;
            && Tidy(m, made.0) && Coherent(m, made.0, cache) && Walk(m, made.0, path) == Some(made.1)
                  && IsFile(made.0, made.1)
            && (made.0 != t ==> made.1 == unused && Walk(m, t, path) == None)
  {
    CreationCoherent(m, t, cache, path, dir, unused);
    CreateResult(t, dir, FileName(path), unused);
    var r := EntryRoute(m, t, path, dir);
  }

  predicate FileAt(m: Mounted, t: Tree, path: string) {
    Walk(m, t, path).Some? && IsFile(t, Walk(m, t, path).value)
  }

  lemma RenameOutcome(m: Mounted, t: Tree, cache: Cache, src: string, from: Handle, dest: string, to: Handle)
    requires Tidy(m, t) && Coherent(m, t, cache) && IsEntry(m, t, src, from) && IsEntry(m, t, dest, to)
          && FileAt(m, t, src)
    requires Rename(t, from, FileName(src), to, FileName(dest)).Some?
    ensures var t2 := Rename(t, from, FileName(src), to, FileName(dest)).value;
            && Walk(m, t, src).Some? && Walk(m, t2, dest) == Walk(m, t, src) == Lookup(t2, to, FileName(dest))
                  && Tidy(m, t2)
            && (t2 != t ==> (Coherent(m, t2, cache) <==> src !in cache && dest !in cache))
            && Coherent(m, t2, Moved(cache, src, dest, Walk(m, t, src).value))
  {
    var s := EntryRoute(m, t, src, from);
    FileRenameCoherent(m, t, cache, src, from, dest, to, Walk(m, t, src).value);
    RenameShows(t, from, FileName(src), to, FileName(dest));
    FileRenameUnnoticed(m, t, cache, src, from, dest, to);
  }

  /** A directory is to move to a free name outside itself. */
  predicate DirectoryGoes(m: Mounted, t: Tree, src: string, dest: string) {
    && Walk(m, t, src).Some? && IsDir(t, Walk(m, t, src).value)
    && Walk(m, t, dest) == None && src != dest && !Beneath(m, dest, src)
  }

  lemma DirectoryOutcome(m: Mounted, t: Tree, cache: Cache, src: string, from: Handle, dest: string, to: Handle)
    requires Tidy(m, t) && Coherent(m, t, cache) && IsEntry(m, t, src, from) && IsEntry(m, t, dest, to)
    requires Rename(t, from, FileName(src), to, FileName(dest)).Some? && DirectoryGoes(m, t, src, dest)
    ensures Walk(m, t, src).Some?
    ensures var t2, h := Rename(t, from, FileName(src), to, FileName(dest)).value, Walk(m, t, src).value;
            && Lookup(t2, to, FileName(dest)) == Some(h)
            && (Coherent(m, t2, Moved(cache, src, dest, h)) <==>
                forall p :: p in Moved(cache, src, dest, h) ==> !Beneath(m, p, src))
  {
    var h := Walk(m, t, src).value;
    var s := EntryRoute(m, t, src, from);
    var d := EntryRoute(m, t, dest, to);
    RenameShows(t, from, FileName(src), to, FileName(dest));
    DirectoryRenameCoherent(m, t, cache, src, from, dest, to, h);
    MovedMounts(m, cache, src, dest, h);
    MovedBeneath(m, cache, src, dest, h);
  }

  lemma MovedBeneath(m: Mounted, cache: Cache, src: string, dest: string, h: Handle)
    requires !Beneath(m, dest, src)
    ensures (forall p :: p in Moved(cache, src, dest, h) ==> !Beneath(m, p, src))
          <==> (forall p :: p in cache ==> !Beneath(m, p, src))
  {
    if p :| p in cache && Beneath(m, p, src) {
      assert p in Moved(cache, src, dest, h);
    }
  }

  lemma RenameShows(t: Tree, from: Handle, fromName: string, to: Handle, toName: string)
    requires Rename(t, from, fromName, to, toName).Some?
    ensures Lookup(Rename(t, from, fromName, to, toName).value, to, toName) == Lookup(t, from, fromName)
  {
  }

  // ----- when a change is possible -----

  /** The path lies directly in a directory of the server's. */
  predicate InDirectory(m: Mounted, t: Tree, path: string) {
    !Virtual(m.exports, Parent(path)) && Walk(m, t, Parent(path)).Some? && IsDir(t, Walk(m, t, Parent(path)).value)
  }

  /** CREATE: nothing or a file at the path. */
  predicate CanCreate(m: Mounted, t: Tree, path: string) {
    InDirectory(m, t, path) && (Walk(m, t, path) == None || FileAt(m, t, path))
  }

  /** MKDIR: nothing at the path. */
  predicate CanMakeDir(m: Mounted, t: Tree, path: string) {
    InDirectory(m, t, path) && Walk(m, t, path) == None
  }

  /** A file or an empty directory at the path. */
  predicate CanRemove(m: Mounted, t: Tree, path: string) {
    InDirectory(m, t, path) && Walk(m, t, path).Some? && Leaf(t, Walk(m, t, path).value)
  }

  /** A file onto nothing or a file, or a directory onto nothing outside itself. */
  predicate CanRename(m: Mounted, t: Tree, src: string, dest: string) {
    && InDirectory(m, t, src) && InDirectory(m, t, dest)
    && ((FileAt(m, t, src) && (Walk(m, t, dest) == None || FileAt(m, t, dest))) || DirectoryGoes(m, t, src, dest))
  }

  /** Of an entry all this can be read off its directory. */
  lemma PossibleChanges(m: Mounted, t: Tree, path: string, dir: Handle)
    requires Tidy(m, t) && IsEntry(m, t, path, dir)
    ensures Walk(m, t, path) == Lookup(t, dir, FileName(path))
    ensures InDirectory(m, t, path) <==> IsDir(t, dir)
    ensures Walk(m, t, path).Some? ==> IsDir(t, dir) && Walk(m, t, path).value in t
  {
    var r := EntryRoute(m, t, path, dir);
  }

  lemma PossibleRename(m: Mounted, t: Tree, src: string, dir: Handle, dest: string, toDir: Handle)
    requires Tidy(m, t) && IsEntry(m, t, src, dir) && IsEntry(m, t, dest, toDir)
    ensures var goes := NfsTree.Rename(t, dir, FileName(src), toDir, FileName(dest)).Some?;
            && (CanRename(m, t, src, dest) ==> goes)
            && (goes ==> Walk(m, t, src).Some? && InDirectory(m, t, dest))
  {
    PossibleChanges(m, t, src, dir);
    PossibleChanges(m, t, dest, toDir);
  }

  // ----- the exports a connection records -----

  /** Offered directories are recorded one by one, but not those above a recorded one. */
  function Recorded(offered: seq<Offer>): seq<string> {
    if offered == [] then []
    else
      var before, path := Recorded(offered[..|offered| - 1]), offered[|offered| - 1].path;
      if Virtual(before, path) then before else before + [path]
  }

  function Handles(offered: seq<Offer>): Cache {
    if offered == [] then map[]
    else
      var before, o := offered[..|offered| - 1], offered[|offered| - 1];
      if o.handle.None? || Virtual(Recorded(before), o.path) then Handles(before)
      else Handles(before)[o.path := o.handle.value]
  }

  lemma VirtualMore(exports: seq<string>, dir: string, path: string)
    ensures Virtual(exports + [dir], path) <==> Virtual(exports, path) || Above(path, dir)
  {
    var more := exports + [dir];
    assert more[|exports|] == dir;
    forall i | 0 <= i < |exports| && Above(path, exports[i]) ensures Virtual(more, path) {
      assert more[i] == exports[i];
    }
  }

  /** Virtual directories do not depend on the order: they are those above any offered one. */
  lemma {:induction false} RecordedVirtual(offered: seq<Offer>, path: string)
    ensures Virtual(Recorded(offered), path) <==>
            path == "" || path == "/" || exists i :: 0 <= i < |offered| && Above(path, offered[i].path)
  {
    if offered != [] {
      var n := |offered| - 1;
      var before, last := offered[..n], offered[n].path;
      RecordedVirtual(before, path);
      assert forall i :: 0 <= i < n ==> before[i] == offered[i];
      VirtualMore(Recorded(before), last, path);
      if Virtual(Recorded(before), last) && Above(path, last) {
        AboveVirtual(Recorded(before), last, path);
      }
    }
  }

  lemma AboveVirtual(exports: seq<string>, dir: string, path: string)
    requires Virtual(exports, dir) && Above(path, dir)
    ensures Virtual(exports, path)
  {
    if dir != "" && dir != "/" {
      var i :| 0 <= i < |exports| && Above(dir, exports[i]);
      AboveTrans(path, dir, exports[i]);
    } else {
      assert |path + "/"| <= 1;
    }
  }

  lemma AboveTrans(a: string, b: string, c: string)
    requires Above(a, b) && Above(b, c)
    ensures Above(a, c)
  {
  }

  /** An offered directory is recorded exactly if it is not the root and none below it was offered
      earlier. */
  lemma {:induction false} RecordedExactly(offered: seq<Offer>, path: string)
    ensures path in Recorded(offered) <==>
            exists i :: 0 <= i < |offered| && offered[i].path == path && path != "" && path != "/"
                        && forall k :: 0 <= k < i ==> !Above(path, offered[k].path)
  {
    if offered != [] {
      var n := |offered| - 1;
      var before := offered[..n];
      RecordedExactly(before, path);
      RecordedVirtual(before, path);
      assert forall i :: 0 <= i < n ==> before[i] == offered[i];
    }
  }

  lemma RecordedSound(offered: seq<Offer>)
    requires forall i :: 0 <= i < |offered| ==> offered[i].path != "" && offered[i].path[0] == '/'
    ensures Sound(Recorded(offered))
  {
    RecordedExactly(offered, "/");
    RecordedExactly(offered, ".");
  }

  lemma {:induction false} HandlesOffered(offered: seq<Offer>)
    ensures forall e :: e in Handles(offered) ==>
        e in Recorded(offered) && Offer(e, Some(Handles(offered)[e])) in offered
  {
    if offered != [] {
      HandlesOffered(offered[..|offered| - 1]);
      assert forall o :: o in offered[..|offered| - 1] ==> o in offered;
    }
  }

  // ----- listings -----

  /** As `cleanPath` leaves it (nfs/kio_nfs.cpp:70-73): no slash at the end. */
  predicate Trimmed(path: string) {
    IsRoot(path) || path[|path| - 1] != '/'
  }

  /** `QFileInfo(QDir(path), name).filePath()` */
  function EntryOf(path: string, name: string): string {
    if path != "" && path[|path| - 1] == '/' then path + name else path + "/" + name
  }

  /** The names that can be looked up. */
  function Present(m: Mounted, t: Tree, path: string, names: seq<string>): seq<string> {
    if names == [] then []
    else
      var before, name := Present(m, t, path, names[..|names| - 1]), names[|names| - 1];
      if Child(m, t, EntryOf(path, name)).Some? then before + [name] else before
  }

  /** An entry of a READDIRPLUS reply; some servers leave the handle invalid. */
  datatype PlusEntry = PlusEntry(name: string, valid: bool)

  lemma EntryParent(path: string, name: string)
    requires Trimmed(path) && !IsRoot(path) && Component(name)
    ensures Parent(EntryOf(path, name)) == path && FileName(EntryOf(path, name)) == name
  {
    var p, n := EntryOf(path, name), |path|;
    assert p[n] == '/' && p[n + 1..] == name && p[..n] == path;
    LastSlashIs(p, n);
  }

  predicate AllCached(path: string, names: seq<string>, cache: Cache) {
    forall i :: 0 <= i < |names| ==> EntryOf(path, names[i]) in cache
  }

  /** What came with a handle is in the cache, if the walk finds it. */
  predicate ListedPlus(m: Mounted, t: Tree, cache: Cache, path: string, e: PlusEntry) {
    e.valid && e.name !in {".", ".."} && Walk(m, t, EntryOf(path, e.name)).Some? ==> EntryOf(path, e.name) in cache
  }

  predicate AllListed(m: Mounted, t: Tree, cache: Cache, path: string, es: seq<PlusEntry>) {
    forall i :: 0 <= i < |es| ==> ListedPlus(m, t, cache, path, es[i])
  }

  lemma OneMoreListed(m: Mounted, t: Tree, before: Cache, after: Cache, path: string, es: seq<PlusEntry>, i: nat)
    requires i < |es| && AllListed(m, t, before, path, es[..i]) && Extends(before, after)
    requires ListedPlus(m, t, after, path, es[i])
    ensures AllListed(m, t, after, path, es[..i + 1])
  {
    var upto := es[..i + 1];
    forall k | 0 <= k < |upto| ensures ListedPlus(m, t, after, path, upto[k]) {
      if k < i {
        assert ListedPlus(m, t, before, path, es[..i][k]);
      }
    }
  }

  lemma OneMoreCached(path: string, names: seq<string>, before: Cache, after: Cache, name: string, found: bool)
    requires AllCached(path, names, before) && Extends(before, after) && (found ==> EntryOf(path, name) in after)
    ensures AllCached(path, if found then names + [name] else names, after)
  {
  }

  lemma PresentNext(m: Mounted, t: Tree, path: string, names: seq<string>, i: nat)
    requires i < |names|
    ensures Present(m, t, path, names[..i + 1]) ==
            var before := Present(m, t, path, names[..i]);
            if Child(m, t, EntryOf(path, names[i])).Some? then before + [names[i]] else before
  {
    assert names[..i + 1][..i] == names[..i];
  }

  /** An entry of a directory that is not virtual is no export: its handle is the one looked up. */
  lemma EntryWalk(m: Mounted, t: Tree, path: string, name: string)
    requires Sound(m.exports) && Trimmed(path) && !Virtual(m.exports, path)
    ensures Walk(m, t, EntryOf(path, name)) == Child(m, t, EntryOf(path, name))
  {
    var p := EntryOf(path, name);
    if p in m.exports {
      var i :| 0 <= i < |m.exports| && m.exports[i] == p;
      assert Above(path, m.exports[i]);
    }
    if Child(m, t, p).Some? {
      Glued(m.exports, p);
    }
    if OnServer(m.exports, p) && !Stuck(p) {
      ChildWalk(m, t, p);
    } else {
      NoWalk(m, t, p);
    }
  }

  class NfsClient {
    const table: ExportTable
    var connected: bool
    var handleCache: Cache
    /** The server: its tree, and what becomes of the calls to come; after that all are answered. */
    var tree: Tree
    var fates: seq<Fate>
    /** How many calls were not answered, and how many of these were executed all the same. */
    ghost var failures: nat
    ghost var lostReplies: nat
    ghost const mounted: Mounted

    /** nfs/nfsv3.cpp:228-305: the exports in the server's order, each with the handle mounting it
        gave or none. */
    constructor (offered: seq<Offer>, server: Tree, calls: seq<Fate>)
      requires forall i :: 0 <= i < |offered| ==> offered[i].path != "" && offered[i].path[0] == '/'
      ensures tree == server && fates == calls && connected && fresh(table)
      ensures mounted.exports == table.exportedDirs == Recorded(offered)
      ensures mounted.handles == handleCache == Handles(offered)
      ensures Valid()
    {
      var dirs := new ExportTable();
      var cache: Cache := map[];
      assert offered[..0] == [];
      for i := 0 to |offered|
        invariant fresh(dirs)
        invariant dirs.exportedDirs == Recorded(offered[..i]) && cache == Handles(offered[..i])
      {
        assert offered[..i + 1][..i] == offered[..i];
        var known := dirs.IsExportedDir(offered[i].path);
        match offered[i].handle {
          case Some(h) =>
            if known {
              continue;
            }
            cache := cache[offered[i].path := h];
            dirs.AddExportedDir(offered[i].path);
          case None =>
            if !known {
              dirs.AddExportedDir(offered[i].path);
            }
        }
      }
      assert offered[..|offered|] == offered;
      RecordedSound(offered);
      HandlesOffered(offered);
      table := dirs;
      connected := true;
      failures := 0;
      lostReplies := 0;
      handleCache := cache;
      tree := server;
      fates := calls;
      mounted := Mounted(dirs.exportedDirs, cache);
    }

    ghost predicate Valid()
      reads this, table
    {
      mounted.exports == table.exportedDirs && Sound(mounted.exports) && Coherent(mounted, tree, handleCache)
    }

    /** The handle is at hand: no call is needed. */
    predicate Ready(path: string)
      reads this, table
    {
      connected && OnServer(table.exportedDirs, path) && path in handleCache
    }

    /** Why a handle could not be had. */
    function Reason(path: string): Error
      reads this, table
    {
      if !connected then ConnectionBroken
      else if path in table.exportedDirs then CannotMount
      else if !OnServer(table.exportedDirs, path) || Stuck(path) then CannotEnterDirectory
      else DoesNotExist
    }

    method NextFate() returns (fate: Fate)
      modifies this`fates, this`failures, this`lostReplies
      ensures fate == (if old(fates) == [] then Answered else old(fates)[0])
      ensures fates == (if old(fates) == [] then [] else old(fates)[1..])
      ensures failures == old(failures) + if fate == Answered then 0 else 1
      ensures lostReplies == old(lostReplies) + if fate == ReplyLost then 1 else 0
    {
      if fates == [] {
        return Answered;
      }
      fate := fates[0];
      fates := fates[1..];
      failures := failures + if fate == Answered then 0 else 1;
      lostReplies := lostReplies + if fate == ReplyLost then 1 else 0;
    }

    /** What can be said of the handle without a lookup. */
    method AtHand(path: string) returns (r: Option<Found>)
      requires Valid() || Ready(path)
      ensures Ready(path) ==> r == Some(Found(handleCache[path]))
      ensures r.Some? && r.value.Found? ==> Ready(path) && handleCache[path] == r.value.handle
      ensures Valid() && r.Some? && r.value.Found? ==> Walk(mounted, tree, path) == Some(r.value.handle)
      ensures Valid() && r.Some? && r.value.Failed? && connected ==> Walk(mounted, tree, path) == None
      ensures r.Some? && r.value.Failed? ==> r.value.error == Reason(path)
      ensures r.None? ==>
          Valid() && connected && path !in table.exportedDirs && OnServer(table.exportedDirs, path) && !Stuck(path)
      ensures r.None? ==> path !in handleCache
    {
      if !connected {
        return Some(Failed(ConnectionBroken));
      }
      if path in table.exportedDirs {
        if path !in handleCache {
          assert Named(path);
          ExportWalk(mounted, tree, path);
          return Some(Failed(CannotMount));
        }
      }
      var valid := table.IsValidPath(path);
      if !valid {
        NoWalk(mounted, tree, path);
        return Some(Failed(CannotEnterDirectory));
      }
      if path in handleCache {
        CachedWalk(mounted, tree, handleCache, path);
        return Some(Found(handleCache[path]));
      }
      if Parent(path) == path {
        NoWalk(mounted, tree, path);
        return Some(Failed(CannotEnterDirectory));
      }
      return None;
    }

    /** The handle returned is the one the walk finds; without a failing call there is one if the
        walk finds one. */
    method GetFileHandle(path: string) returns (r: Found)
      requires Valid() || Ready(path)
      modifies this`handleCache, this`fates, this`failures, this`lostReplies
      ensures old(Valid()) ==> Valid()
      ensures Extends(old(handleCache), handleCache) && failures >= old(failures) && lostReplies >= old(lostReplies)
      ensures old(Ready(path)) ==>
          r == Found(old(handleCache)[path]) && handleCache == old(handleCache) && failures == old(failures)
      ensures r.Found? ==> Ready(path) && handleCache[path] == r.handle
      ensures old(Valid()) && r.Found? ==> Walk(mounted, tree, path) == Some(r.handle)
      ensures r.Found? ==> failures == old(failures)
      ensures old(Valid()) && r.Failed? && connected && failures == old(failures) ==> Walk(mounted, tree, path) == None
      ensures r.Failed? ==> r.error == Reason(path)
      decreases if Stuck(path) then 0 else 2 * |path| + 2, 1
    {
      var atHand := AtHand(path);
      if atHand.Some? {
        return atHand.value;
      }
      var childFH := LookupFileHandle(path);
      ChildWalk(mounted, tree, path);
      if childFH.Some? {
        CoherentWith(mounted, tree, handleCache, path, childFH.value);
        handleCache := handleCache[path := childFH.value];
      }
      if childFH.None? {
        return Failed(DoesNotExist);
      }
      return Found(childFH.value);
    }

    /** Without symbolic links, a lookup and nothing more. */
    method LookupFileHandle(path: string) returns (r: Option<Handle>)
      requires Valid()
      modifies this`handleCache, this`fates, this`failures, this`lostReplies
      ensures Valid() && Extends(old(handleCache), handleCache) && failures >= old(failures)
            && lostReplies >= old(lostReplies)
      ensures r.Some? ==> Child(mounted, tree, path) == r && failures == old(failures)
      ensures r.None? && connected && failures == old(failures) ==> Child(mounted, tree, path) == None
      decreases 2 * |path| + 1, 1
    {
      r := LookupHandle(path);
    }

    method LookupHandle(path: string) returns (r: Option<Handle>)
      requires Valid() || Ready(Parent(path))
      modifies this`handleCache, this`fates, this`failures, this`lostReplies
      ensures old(Valid()) ==> Valid()
      ensures Extends(old(handleCache), handleCache) && failures >= old(failures) && lostReplies >= old(lostReplies)
      ensures old(Valid()) && r.Some? ==> Child(mounted, tree, path) == r
      ensures r.Some? ==> failures == old(failures)
      ensures old(Valid()) && r.None? && connected && failures == old(failures) ==> Child(mounted, tree, path) == None
      ensures old(Ready(Parent(path))) ==>
                var found := Lookup(tree, old(handleCache)[Parent(path)], FileName(path));
                && handleCache == old(handleCache)
                && (r.Some? ==> r == found)
                && (failures == old(failures) ==> r == found)
      decreases 2 * |path| + 1, 0
    {
      if !connected {
        return None;
      }
      var parentFH := GetFileHandle(Parent(path));
      if parentFH.Failed? {
        return None;
      }
      var fate := NextFate();
      if fate != Answered {
        return None;
      }
      return Lookup(tree, parentFH.handle, FileName(path));
    }

    // ----- calls that change the tree -----

    method CallCreate(dir: Handle, name: string, unused: Handle) returns (r: Found)
      modifies this`tree, this`fates, this`failures, this`lostReplies
      ensures failures >= old(failures) && lostReplies >= old(lostReplies)
      ensures tree == old(tree) || NfsTree.Create(old(tree), dir, name, unused) == Some((tree, unused))
      ensures r.Found? ==> NfsTree.Create(old(tree), dir, name, unused) == Some((tree, r.handle))
      ensures r.Failed? && lostReplies == old(lostReplies) ==> tree == old(tree)
      ensures failures == old(failures) ==> (r.Found? <==> NfsTree.Create(old(tree), dir, name, unused).Some?)
    {
      var fate := NextFate();
      var done := NfsTree.Create(tree, dir, name, unused);
      if done.Some? && (fate == Answered || fate == ReplyLost) {
        CreateResult(tree, dir, name, unused);
        tree := done.value.0;
        if fate == Answered {
          return Found(done.value.1);
        }
      }
      return Failed(RemoteError);
    }

    method CallMakeDir(dir: Handle, name: string, unused: Handle) returns (ok: bool)
      modifies this`tree, this`fates, this`failures, this`lostReplies
      ensures failures >= old(failures) && lostReplies >= old(lostReplies)
      ensures tree == old(tree) || NfsTree.MakeDir(old(tree), dir, name, unused) == Some(tree)
      ensures ok ==> NfsTree.MakeDir(old(tree), dir, name, unused) == Some(tree)
      ensures !ok && lostReplies == old(lostReplies) ==> tree == old(tree)
      ensures failures == old(failures) ==> (ok <==> NfsTree.MakeDir(old(tree), dir, name, unused).Some?)
    {
      var fate := NextFate();
      var done := NfsTree.MakeDir(tree, dir, name, unused);
      if done.Some? && (fate == Answered || fate == ReplyLost) {
        tree := done.value;
        return fate == Answered;
      }
      return false;
    }

    method CallRemove(dir: Handle, name: string, asDirectory: bool) returns (ok: bool)
      modifies this`tree, this`fates, this`failures, this`lostReplies
      ensures failures >= old(failures) && lostReplies >= old(lostReplies)
      ensures tree == old(tree) || NfsTree.Remove(old(tree), dir, name, asDirectory) == Some(tree)
      ensures ok ==> NfsTree.Remove(old(tree), dir, name, asDirectory) == Some(tree)
      ensures !ok && lostReplies == old(lostReplies) ==> tree == old(tree)
      ensures failures == old(failures) ==> (ok <==> NfsTree.Remove(old(tree), dir, name, asDirectory).Some?)
    {
      var fate := NextFate();
      var done := NfsTree.Remove(tree, dir, name, asDirectory);
      if done.Some? && (fate == Answered || fate == ReplyLost) {
        tree := done.value;
        return fate == Answered;
      }
      return false;
    }

    method CallRename(dir: Handle, name: string, toDir: Handle, toName: string) returns (ok: bool)
      modifies this`tree, this`fates, this`failures, this`lostReplies
      ensures failures >= old(failures) && lostReplies >= old(lostReplies)
      ensures tree == old(tree) || NfsTree.Rename(old(tree), dir, name, toDir, toName) == Some(tree)
      ensures ok ==> NfsTree.Rename(old(tree), dir, name, toDir, toName) == Some(tree) && failures == old(failures)
      ensures !ok && lostReplies == old(lostReplies) ==> tree == old(tree)
      ensures failures == old(failures) ==> (ok <==> NfsTree.Rename(old(tree), dir, name, toDir, toName).Some?)
    {
      var fate := NextFate();
      var done := NfsTree.Rename(tree, dir, name, toDir, toName);
      if done.Some? && (fate == Answered || fate == ReplyLost) {
        tree := done.value;
        return fate == Answered;
      }
      return false;
    }

    // ----- the operations -----

    /** nfs/nfsv3.cpp:1664-1719, with the handle the server will give a new file. */
    method Create(path: string, unused: Handle) returns (r: Found)
      requires Valid() && Tidy(mounted, tree)
      requires !Virtual(table.exportedDirs, Parent(path)) && unused !in tree
      modifies this`tree, this`handleCache, this`fates, this`failures, this`lostReplies
      ensures lostReplies >= old(lostReplies) && failures >= old(failures)
      ensures Valid() && Tidy(mounted, tree)
      ensures r.Found? ==> Walk(mounted, tree, path) == Some(r.handle) && IsFile(tree, r.handle)
      ensures r.Failed? && lostReplies == old(lostReplies) ==> tree == old(tree)
      ensures tree != old(tree) ==> Walk(mounted, old(tree), path) == None && Walk(mounted, tree, path) == Some(unused)
      ensures connected && failures == old(failures) ==> (r.Found? <==> CanCreate(mounted, old(tree), path))
    {
      if !connected {
        return Failed(ConnectionBroken);
      }
      var directoryFH := GetFileHandle(Parent(path));
      if directoryFH.Failed? {
        return directoryFH;
      }
      r := CreateIn(directoryFH.handle, path, unused);
    }

    method CreateIn(dir: Handle, path: string, unused: Handle) returns (r: Found)
      requires Valid() && Tidy(mounted, tree) && IsEntry(mounted, tree, path, dir) && unused !in tree
      modifies this`tree, this`fates, this`failures, this`lostReplies
      ensures lostReplies >= old(lostReplies) && failures >= old(failures)
      ensures Valid() && Tidy(mounted, tree)
      ensures r.Found? ==> Walk(mounted, tree, path) == Some(r.handle) && IsFile(tree, r.handle)
      ensures r.Failed? && lostReplies == old(lostReplies) ==> tree == old(tree)
      ensures tree != old(tree) ==> Walk(mounted, old(tree), path) == None && Walk(mounted, tree, path) == Some(unused)
      ensures failures == old(failures) ==> (r.Found? <==> CanCreate(mounted, old(tree), path))
    {
      ghost var before := tree;
      PossibleChanges(mounted, tree, path, dir);
      r := CallCreate(dir, FileName(path), unused);
      if NfsTree.Create(before, dir, FileName(path), unused).Some? {
        CreationOutcome(mounted, before, handleCache, path, dir, unused);
      }
    }

    /** nfs/nfsv3.cpp:680-726, with the handle the server will give a new directory. */
    method MakeDir(path: string, unused: Handle) returns (ok: bool)
      requires Valid() && Tidy(mounted, tree) && unused !in tree && unused !in mounted.handles.Values
      modifies this`tree, this`handleCache, this`fates, this`failures, this`lostReplies
      ensures lostReplies >= old(lostReplies) && failures >= old(failures)
      ensures Valid() && Tidy(mounted, tree) && Extends(old(handleCache), handleCache)
      ensures ok ==> tree != old(tree)
      ensures !ok && lostReplies == old(lostReplies) ==> tree == old(tree)
      ensures tree != old(tree) ==>
          && Walk(mounted, old(tree), path) == None
          && Walk(mounted, tree, path) == Some(unused) && IsDir(tree, unused) && path !in handleCache
      ensures connected && failures == old(failures) ==> (ok <==> CanMakeDir(mounted, old(tree), path))
    {
      var exported := table.IsExportedDir(Parent(path));
      if exported {
        return false;
      }
      var directoryFH := GetFileHandle(Parent(path));
      if directoryFH.Failed? {
        return false;
      }
      ghost var before := tree;
      PossibleChanges(mounted, tree, path, directoryFH.handle);
      ok := CallMakeDir(directoryFH.handle, FileName(path), unused);
      if tree != before || ok {
        MakeDirCoherent(mounted, before, handleCache, path, directoryFH.handle, unused);
      }
    }

    /** nfs/nfsv3.cpp:535-596 for one name. */
    method ListName(path: string, name: string) returns (shown: bool)
      requires Valid() && Trimmed(path) && !Virtual(table.exportedDirs, path)
      modifies this`handleCache, this`fates, this`failures, this`lostReplies
      ensures Valid() && Extends(old(handleCache), handleCache) && failures >= old(failures)
      ensures shown ==> EntryOf(path, name) in handleCache && Child(mounted, tree, EntryOf(path, name)).Some?
      ensures connected && failures == old(failures) ==> shown == Child(mounted, tree, EntryOf(path, name)).Some?
    {
      var child := LookupHandle(EntryOf(path, name));
      shown := child.Some?;
      if child.Some? {
        EntryWalk(mounted, tree, path, name);
        CoherentWith(mounted, tree, handleCache, EntryOf(path, name), child.value);
        handleCache := handleCache[EntryOf(path, name) := child.value];
      }
    }

    /** nfs/nfsv3.cpp:472-599: each name is looked up, and its handle goes into the cache; names whose
        lookup fails are left out. `names` is what READDIR gave, if it was answered. */
    method ListDirCompat(path: string, names: Option<seq<string>>) returns (r: Option<seq<string>>)
      requires Valid() && Trimmed(path)
      modifies this`handleCache, this`fates, this`failures, this`lostReplies
      ensures Valid() && Extends(old(handleCache), handleCache) && failures >= old(failures)
      ensures r.Some? ==> names.Some? && AllCached(path, r.value, handleCache)
      ensures r.Some? && connected && failures == old(failures) ==>
          r.value == Present(mounted, tree, path, names.value)
      ensures r.None? && connected && failures == old(failures) ==>
          names.None? || Virtual(table.exportedDirs, path) || Walk(mounted, tree, path) == None
    {
      var exported := table.IsExportedDir(path);
      if exported {
        return None;
      }
      var fh := GetFileHandle(path);
      if fh.Failed? || names.None? {
        return None;
      }
      var shown: seq<string> := [];
      for i := 0 to |names.value|
        invariant Valid() && Extends(old(handleCache), handleCache) && failures >= old(failures)
        invariant AllCached(path, shown, handleCache)
        invariant connected && failures == old(failures) ==> shown == Present(mounted, tree, path, names.value[..i])
      {
        ghost var before := handleCache;
        var found := ListName(path, names.value[i]);
        OneMoreCached(path, shown, before, handleCache, names.value[i], found);
        PresentNext(mounted, tree, path, names.value, i);
        if found {
          shown := shown + [names.value[i]];
        }
      }
      assert names.value[..|names.value|] == names.value;
      return Some(shown);
    }

    /** nfs/nfsv3.cpp:382-466 for one entry. */
    method AddListed(path: string, dir: Handle, e: PlusEntry)
      requires Valid() && Trimmed(path) && !Virtual(table.exportedDirs, path)
      requires Walk(mounted, tree, path) == Some(dir) && Component(e.name)
      modifies this`handleCache
      ensures Valid() && Extends(old(handleCache), handleCache) && ListedPlus(mounted, tree, handleCache, path, e)
    {
      var h := Lookup(tree, dir, e.name);
      EntryParent(path, e.name);
      EntryWalk(mounted, tree, path, e.name);
      if e.name !in {".", ".."} && e.valid && h.Some? {
        CoherentWith(mounted, tree, handleCache, EntryOf(path, e.name), h.value);
        handleCache := handleCache[EntryOf(path, e.name) := h.value];
      }
    }

    /** nfs/nfsv3.cpp:310-470: the handles come with the entries; `entries` is what READDIRPLUS gave, if
        it was answered. A virtual directory is listed without the server. */
    method ListDir(path: string, entries: Option<seq<PlusEntry>>) returns (ok: bool)
      requires Valid() && Trimmed(path)
      requires entries.Some? ==> forall i :: 0 <= i < |entries.value| ==> Component(entries.value[i].name)
      modifies this`handleCache, this`fates, this`failures, this`lostReplies
      ensures Valid() && Extends(old(handleCache), handleCache) && failures >= old(failures)
      ensures ok ==> entries.Some? && Walk(mounted, tree, path).Some?
      ensures ok ==> AllListed(mounted, tree, handleCache, path, entries.value)
      ensures !ok && connected && failures == old(failures) ==>
          entries.None? || Virtual(table.exportedDirs, path) || Walk(mounted, tree, path) == None
    {
      var exported := table.IsExportedDir(path);
      if exported {
        return false;
      }
      var fh := GetFileHandle(path);
      if fh.Failed? || entries.None? {
        return false;
      }
      for i := 0 to |entries.value|
        invariant Valid() && Extends(old(handleCache), handleCache) && failures >= old(failures)
        invariant Walk(mounted, tree, path) == Some(fh.handle)
        invariant AllListed(mounted, tree, handleCache, path, entries.value[..i])
      {
        ghost var before := handleCache;
        AddListed(path, fh.handle, entries.value[i]);
        OneMoreListed(mounted, tree, before, handleCache, path, entries.value, i);
      }
      assert entries.value[..|entries.value|] == entries.value;
      return true;
    }

    /** nfs/nfsv3.cpp:1834-1897. Afterwards the cache is right unless the object was removed, the
        reply was lost and the path is still cached. */
    method Remove(path: string) returns (ok: bool)
      requires Valid() && Tidy(mounted, tree)
      modifies this`tree, this`handleCache, this`fates, this`failures, this`lostReplies
      ensures lostReplies >= old(lostReplies) && failures >= old(failures)
      ensures Tidy(mounted, tree)
      ensures Valid() <==> tree == old(tree) || path !in handleCache
      ensures !ok && lostReplies == old(lostReplies) ==> tree == old(tree)
      ensures ok ==> path !in handleCache && tree != old(tree)
      ensures tree != old(tree) ==> Walk(mounted, tree, path) == None && RemovedFrom(mounted, old(tree), path, tree)
      ensures connected && failures == old(failures) ==> (ok <==> CanRemove(mounted, old(tree), path))
    {
      if !connected {
        return false;
      }
      var exported := table.IsExportedDir(Parent(path));
      if exported {
        return false;
      }
      var directoryFH := GetFileHandle(Parent(path));
      if directoryFH.Failed? {
        return false;
      }
      PossibleChanges(mounted, tree, path, directoryFH.handle);
      var found := LookupHandle(path);
      if found.None? {
        return false;
      }
      ok := RemoveFrom(directoryFH.handle, path, IsDir(tree, found.value));
    }

    method RemoveFrom(dir: Handle, path: string, asDirectory: bool) returns (ok: bool)
      requires Valid() && Tidy(mounted, tree) && IsEntry(mounted, tree, path, dir)
      modifies this`tree, this`handleCache, this`fates, this`failures, this`lostReplies
      ensures lostReplies >= old(lostReplies) && failures >= old(failures)
      ensures Tidy(mounted, tree)
      ensures Valid() <==> tree == old(tree) || path !in handleCache
      ensures !ok && lostReplies == old(lostReplies) ==> tree == old(tree)
      ensures ok ==> path !in handleCache && tree != old(tree)
      ensures tree != old(tree) ==> Walk(mounted, tree, path) == None && RemovedFrom(mounted, old(tree), path, tree)
      ensures failures == old(failures) ==> (ok <==> NfsTree.Remove(old(tree), dir, FileName(path), asDirectory).Some?)
    {
      ghost var before := tree;
      ok := CallRemove(dir, FileName(path), asDirectory);
      if tree != before {
        RemovalOutcome(mounted, before, handleCache, path, dir, asDirectory, tree);
      } else if ok {
        RemovalShows(before, dir, FileName(path), asDirectory);
      }
      if ok {
        handleCache := handleCache - {path};
      }
    }

    /** nfs/nfsv3.cpp:1907-1970. After a file's rename the cache is right exactly if nothing went, all
        calls were answered, or neither name is cached. */
    method Rename(src: string, dest: string) returns (ok: bool)
      requires Valid() && Tidy(mounted, tree)
      modifies this`tree, this`handleCache, this`fates, this`failures, this`lostReplies
      ensures lostReplies >= old(lostReplies) && failures >= old(failures)
      ensures !ok && lostReplies == old(lostReplies) ==> tree == old(tree) && Valid()
      ensures FileAt(mounted, old(tree), src) ==>
                && Tidy(mounted, tree)
                && (Valid() <==>
                       tree == old(tree) || (ok && failures == old(failures))
                       || (src !in handleCache && dest !in handleCache))
                && (ok ==> Walk(mounted, tree, dest) == Walk(mounted, old(tree), src))
                && (ok && failures == old(failures) ==> dest in handleCache && (src == dest || src !in handleCache))
      ensures DirectoryGoes(mounted, old(tree), src, dest) && ok && failures == old(failures) ==>
                (Valid() <==> forall p :: p in handleCache ==> !Beneath(mounted, p, src))
      ensures connected && failures == old(failures) && CanRename(mounted, old(tree), src, dest) ==> ok
      ensures ok ==> Walk(mounted, old(tree), src).Some? && InDirectory(mounted, old(tree), dest)
    {
      var exported := table.IsExportedDir(Parent(src));
      if exported {
        return false;
      }
      var srcDirectoryFH := GetFileHandle(Parent(src));
      if srcDirectoryFH.Failed? {
        return false;
      }
      exported := table.IsExportedDir(Parent(dest));
      if exported {
        return false;
      }
      var destDirectoryFH := GetFileHandle(Parent(dest));
      if destDirectoryFH.Failed? {
        return false;
      }
      ok := MoveEntry(src, srcDirectoryFH.handle, dest, destDirectoryFH.handle);
    }

    method MoveEntry(src: string, dir: Handle, dest: string, toDir: Handle) returns (ok: bool)
      requires Valid() && Tidy(mounted, tree) && IsEntry(mounted, tree, src, dir) && IsEntry(mounted, tree, dest, toDir)
      requires Ready(Parent(dest)) && handleCache[Parent(dest)] == toDir
      modifies this`tree, this`handleCache, this`fates, this`failures, this`lostReplies
      ensures lostReplies >= old(lostReplies) && failures >= old(failures)
      ensures !ok && lostReplies == old(lostReplies) ==> tree == old(tree) && Valid()
      ensures FileAt(mounted, old(tree), src) ==>
                && Tidy(mounted, tree)
                && (Valid() <==>
                       tree == old(tree) || (ok && failures == old(failures))
                       || (src !in handleCache && dest !in handleCache))
                && (ok ==> Walk(mounted, tree, dest) == Walk(mounted, old(tree), src))
                && (ok && failures == old(failures) ==> dest in handleCache && (src == dest || src !in handleCache))
      ensures DirectoryGoes(mounted, old(tree), src, dest) && ok && failures == old(failures) ==>
                (Valid() <==> forall p :: p in handleCache ==> !Beneath(mounted, p, src))
      ensures failures == old(failures) && CanRename(mounted, old(tree), src, dest) ==> ok
      ensures ok ==> Walk(mounted, old(tree), src).Some? && InDirectory(mounted, old(tree), dest)
    {
      ghost var before := tree;
      PossibleRename(mounted, tree, src, dir, dest, toDir);
      ok := CallRename(dir, FileName(src), toDir, FileName(dest));
      if ok {
        var found := LookupHandle(dest);
        if found.Some? {
          handleCache := handleCache - {src};
          handleCache := handleCache[dest := found.value];
        }
      }
      if NfsTree.Rename(before, dir, FileName(src), toDir, FileName(dest)).Some? && FileAt(mounted, before, src) {
        RenameOutcome(mounted, before, old(handleCache), src, dir, dest, toDir);
      }
      if NfsTree.Rename(before, dir, FileName(src), toDir, FileName(dest)).Some?
            && DirectoryGoes(mounted, before, src, dest) {
        DirectoryOutcome(mounted, before, old(handleCache), src, dir, dest, toDir);
      }
    }
  }
}
