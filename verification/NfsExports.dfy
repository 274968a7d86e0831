/** The tree of virtual directories above the server's exports: the two path tests and the
    listing of a virtual directory (nfs/kio_nfs.cpp:495-543, 612-641, 796-853). */
module NfsExports {
  import opened Text
  import opened NfsPaths

  predicate Above(path: string, dir: string) {
    StartsWith(dir, path + "/")
  }

  /** Above an export, or the root. */
  predicate Virtual(exports: seq<string>, path: string) {
    IsRoot(path) || exists i {:trigger Above(path, exports[i])} :: 0 <= i < |exports| && Above(path, exports[i])
  }

  predicate AtOrBelow(path: string, dir: string) {
    path == dir || StartsWith(path, dir + "/")
  }

  /** At or below an export, or the root. */
  predicate OnServer(exports: seq<string>, path: string) {
    IsRoot(path) || exists i {:trigger AtOrBelow(path, exports[i])} :: 0 <= i < |exports| && AtOrBelow(path, exports[i])
  }

  /** `dirPrefix` of nfs/kio_nfs.cpp:805-807 */
  function DirPrefix(path: string): string {
    if path != "/" then path + "/" else path
  }

  function FirstComponent(name: string): string {
    var k := IndexOf(name, '/', 0);
    if k != -1 then name[..k] else name
  }

  /** The child names the first `n` exports give rise to, each once. */
  function Children(exports: seq<string>, dirPrefix: string, n: nat): seq<string>
    requires n <= |exports|
  {
    if n == 0 then []
    else
      var found := Children(exports, dirPrefix, n - 1);
      if !StartsWith(exports[n - 1], dirPrefix) then found
      else
        var name := FirstComponent(exports[n - 1][|dirPrefix|..]);
        if name in found then found else found + [name]
  }

  /** What one listed entry shows: its name and whether it gets the icon of a virtual folder. */
  datatype Entry = Entry(name: string, network: bool)

  class ExportTable {
    var exportedDirs: seq<string>

    constructor ()
      ensures exportedDirs == []
    {
      exportedDirs := [];
    }

    method AddExportedDir(path: string)
      modifies this
      ensures exportedDirs == old(exportedDirs) + [path]
    {
      exportedDirs := exportedDirs + [path];
    }

    /** `QStringList::removeOne`: the first such entry goes. */
    method RemoveExportedDir(path: string)
      modifies this
      ensures path !in old(exportedDirs) ==> exportedDirs == old(exportedDirs)
      ensures path in old(exportedDirs) ==>
                exists i :: 0 <= i < |old(exportedDirs)| && old(exportedDirs)[i] == path
                      && path !in old(exportedDirs)[..i]
                            && exportedDirs == old(exportedDirs)[..i] + old(exportedDirs)[i + 1..]
    {
      for i := 0 to |exportedDirs|
        invariant exportedDirs == old(exportedDirs) && path !in exportedDirs[..i]
      {
        if exportedDirs[i] == path {
          exportedDirs := exportedDirs[..i] + exportedDirs[i + 1..];
          return;
        }
      }
    }

    /** nfs/kio_nfs.cpp:505-538 */
    method IsExportedDir(path: string) returns (exported: bool)
      ensures exported <==> Virtual(exportedDirs, path)
    {
      if path == "" || path == "/" {
        return true;
      }
      var dirPath := path + "/";
      for i := 0 to |exportedDirs|
        invariant forall k :: 0 <= k < i ==> !Above(path, exportedDirs[k])
      {
        assert Above(path, exportedDirs[i]) <==> StartsWith(exportedDirs[i], dirPath);
        if StartsWith(exportedDirs[i], dirPath) {
          return true;
        }
      }
      return false;
    }

    /** nfs/kio_nfs.cpp:612-641 */
    method IsValidPath(path: string) returns (valid: bool)
      ensures valid <==> OnServer(exportedDirs, path)
    {
      if path == "" || path == "/" {
        return true;
      }
      for i := 0 to |exportedDirs|
        invariant forall k :: 0 <= k < i ==> !AtOrBelow(path, exportedDirs[k])
      {
        assert AtOrBelow(path, exportedDirs[i]) <==> path == exportedDirs[i] || StartsWith(path, exportedDirs[i] + "/");
        if path == exportedDirs[i] {
          return true;
        }
        if StartsWith(path, exportedDirs[i] + "/") {
          return true;
        }
      }
      return false;
    }

    /** nfs/kio_nfs.cpp:796-853: the entries of a virtual directory, "." first, or `None`
        when the server has to be asked. */
    method ListDirInternal(path: string) returns (listed: Option<seq<Entry>>)
      ensures listed.Some? <==> Virtual(exportedDirs, path)
      ensures listed.Some? ==>
                var names := Children(exportedDirs, DirPrefix(path), |exportedDirs|);
                && |listed.value| == |names| + 1 && listed.value[0] == Entry(".", true)
                && forall i :: 0 <= i < |names| ==>
                     listed.value[i + 1] == Entry(names[i], Virtual(exportedDirs, DirPrefix(path) + names[i]))
    {
      var exported := IsExportedDir(path);
      if !exported {
        return None;
      }
      var dirPrefix := path;
      if dirPrefix != "/" {
        dirPrefix := dirPrefix + "/";
      }
      var virtualList := [];
      for i := 0 to |exportedDirs|
        invariant virtualList == Children(exportedDirs, dirPrefix, i)
      {
        var name := exportedDirs[i];
        if !StartsWith(name, dirPrefix) {
          continue;
        }
        name := name[|dirPrefix|..];
        var idx := IndexOf(name, '/', 0);
        if idx != -1 {
          name := name[..idx];
        }
        if name !in virtualList {
          virtualList := virtualList + [name];
        }
      }
      var entries := [Entry(".", true)];
      for i := 0 to |virtualList|
        invariant |entries| == i + 1 && entries[0] == Entry(".", true)
        invariant forall k :: 0 <= k < i ==>
            entries[k + 1] == Entry(virtualList[k], Virtual(exportedDirs, dirPrefix + virtualList[k]))
      {
        var network := IsExportedDir(dirPrefix + virtualList[i]);
        entries := entries + [Entry(virtualList[i], network)];
      }
      return Some(entries);
    }
  }

  // ----- the listing, on component lists -----

  /** A cleaned export table. */
  ghost predicate Cleaned(exports: seq<string>, ecs: seq<seq<string>>) {
    && |exports| == |ecs|
    && forall i :: 0 <= i < |ecs| ==> ecs[i] != [] && Components(ecs[i]) && exports[i] == Join(ecs[i])
  }

  function PathOf(d: seq<string>): string {
    if d == [] then "/" else Join(d)
  }

  lemma PrefixOf(d: seq<string>)
    requires Components(d)
    ensures DirPrefix(PathOf(d)) == Join(d) + "/"
  {
    if d != [] {
      assert Component(d[0]);
      assert |Join(d)| > 1;
    }
  }

  lemma VirtualAgrees(exports: seq<string>, ecs: seq<seq<string>>, d: seq<string>)
    requires Cleaned(exports, ecs) && Components(d)
    ensures Virtual(exports, PathOf(d)) <==> d == [] || exists i :: 0 <= i < |ecs| && d < ecs[i]
  {
    if d != [] {
      assert Component(d[0]);
      assert !IsRoot(Join(d)) by { assert |Join(d)| > 1; }
      forall i | 0 <= i < |ecs| ensures Above(Join(d), exports[i]) <==> d < ecs[i] {
        PrefixAgrees(d, ecs[i]);
      }
    }
  }

  lemma OnServerAgrees(exports: seq<string>, ecs: seq<seq<string>>, d: seq<string>)
    requires Cleaned(exports, ecs) && Components(d)
    ensures OnServer(exports, PathOf(d)) <==> d == [] || exists i :: 0 <= i < |ecs| && ecs[i] <= d
  {
    if d != [] {
      assert Component(d[0]);
      assert !IsRoot(Join(d)) by { assert |Join(d)| > 1; }
      forall i | 0 <= i < |ecs| ensures AtOrBelow(Join(d), exports[i]) <==> ecs[i] <= d {
        PrefixAgrees(ecs[i], d);
        assert ecs[i] <= d <==> ecs[i] < d || ecs[i] == d;
        if Join(d) == exports[i] {
          JoinInjective(d, ecs[i]);
        }
      }
    }
  }

  lemma FirstOf(c: string, rest: string)
    requires Component(c) && (rest == "" || rest[0] == '/')
    ensures FirstComponent(c + rest) == c
  {
    var name := c + rest;
    var i := IndexOf(name, '/', 0);
    assert forall x :: 0 <= x < |c| ==> name[x] == c[x];
    assert rest != "" ==> name[|c|] == '/';
    assert name[..|c|] == c;
  }

  lemma CutAfter(p: string, c: string, rest: string)
    ensures StartsWith(p + ("/" + c + rest), p + "/")
    ensures (p + ("/" + c + rest))[|p + "/"|..] == c + rest
  {
    var s := p + ("/" + c + rest);
    assert s == (p + "/") + (c + rest);
  }

  lemma ChildName(d: seq<string>, c: string, below: seq<string>)
    requires Component(c)
    ensures StartsWith(Join(d + [c] + below), Join(d) + "/")
    ensures FirstComponent(Join(d + [c] + below)[|Join(d) + "/"|..]) == c
  {
    assert d + [c] + below == d + ([c] + below);
    JoinAppend(d, [c] + below);
    assert ([c] + below)[1..] == below;
    JoinStarts(below);
    CutAfter(Join(d), c, Join(below));
    FirstOf(c, Join(below));
  }

  /** Export `e` lies below directory `d` under the child `name`. */
  predicate Below(d: seq<string>, name: string, e: seq<string>) {
    d < e && e[|d|] == name
  }

  /** One of the first `n` exports does. */
  ghost predicate SomeBelow(ecs: seq<seq<string>>, n: nat, d: seq<string>, name: string)
    requires n <= |ecs|
  {
    exists i :: 0 <= i < n && Below(d, name, ecs[i])
  }

  ghost predicate Distinct(names: seq<string>) {
    forall i, j :: 0 <= i < j < |names| ==> names[i] != names[j]
  }

  lemma {:induction false} ChildrenMeaning(exports: seq<string>, ecs: seq<seq<string>>, d: seq<string>, n: nat)
    requires Cleaned(exports, ecs) && Components(d) && n <= |exports|
    ensures var names := Children(exports, Join(d) + "/", n);
            && Distinct(names)
            && (forall name :: name in names <==> SomeBelow(ecs, n, d, name))
  {
    var prefix := Join(d) + "/";
    if n > 0 {
      ChildrenMeaning(exports, ecs, d, n - 1);
      var e, found := ecs[n - 1], Children(exports, prefix, n - 1);
      PrefixAgrees(d, e);
      if d < e {
        assert d + [e[|d|]] + e[|d| + 1..] == e;
        assert Component(e[|d|]);
        ChildName(d, e[|d|], e[|d| + 1..]);
      }
      forall name ensures name in Children(exports, prefix, n) <==> SomeBelow(ecs, n, d, name) {
        assert SomeBelow(ecs, n, d, name) <==> SomeBelow(ecs, n - 1, d, name) || Below(d, name, e);
      }
    }
  }

  lemma ChildIsListable(exports: seq<string>, ecs: seq<seq<string>>, d: seq<string>, name: string)
    requires Cleaned(exports, ecs) && Components(d) && SomeBelow(ecs, |ecs|, d, name)
    ensures Join(d + [name]) in exports || Virtual(exports, Join(d + [name]))
  {
    var i :| 0 <= i < |ecs| && Below(d, name, ecs[i]);
    var e, child := ecs[i], d + [name];
    assert Component(e[|d|]);
    assert child <= e;
    if child == e {
      assert exports[i] == Join(child);
    } else {
      VirtualAgrees(exports, ecs, child);
    }
  }

  /** Listing a virtual directory shows, each once, exactly the next components of the exports
      strictly below it; each is an export itself or again a virtual directory. */
  lemma ListingIsNextComponents(exports: seq<string>, ecs: seq<seq<string>>, d: seq<string>)
    requires Cleaned(exports, ecs) && Components(d)
    ensures var names := Children(exports, DirPrefix(PathOf(d)), |exports|);
            && Distinct(names)
            && (forall name :: name in names <==> SomeBelow(ecs, |ecs|, d, name))
            && (forall name :: name in names ==>
                  Join(d + [name]) in exports || Virtual(exports, Join(d + [name])))
  {
    PrefixOf(d);
    ChildrenMeaning(exports, ecs, d, |exports|);
    var names := Children(exports, DirPrefix(PathOf(d)), |exports|);
    forall name | name in names ensures Join(d + [name]) in exports || Virtual(exports, Join(d + [name])) {
      ChildIsListable(exports, ecs, d, name);
    }
  }

  /** What following listings down from the root shows. */
  predicate Shown(exports: seq<string>, d: seq<string>) {
    d == [] ||
    var parent := d[..|d| - 1];
    && Shown(exports, parent)
    && Virtual(exports, PathOf(parent))
    && d[|d| - 1] in Children(exports, DirPrefix(PathOf(parent)), |exports|)
  }

  /** Going down from the root by listings alone shows exactly the exports and the directories
      above them. */
  lemma {:induction false} ListingsReachEveryExport(exports: seq<string>, ecs: seq<seq<string>>, d: seq<string>)
    requires Cleaned(exports, ecs) && Components(d)
    ensures Shown(exports, d) <==> d == [] || exists i :: 0 <= i < |ecs| && d <= ecs[i]
  {
    if d != [] {
      var parent, name := d[..|d| - 1], d[|d| - 1];
      assert d == parent + [name];
      ListingsReachEveryExport(exports, ecs, parent);
      VirtualAgrees(exports, ecs, parent);
      ListingIsNextComponents(exports, ecs, parent);
      forall i | 0 <= i < |ecs| ensures Below(parent, name, ecs[i]) <==> d <= ecs[i] {
        BelowIsPrefix(parent, name, ecs[i]);
      }
    }
  }

  lemma BelowIsPrefix(parent: seq<string>, name: string, e: seq<string>)
    ensures Below(parent, name, e) <==> parent + [name] <= e
  {
    var d := parent + [name];
    assert d <= e ==> e[..|parent|] == parent && e[|parent|] == d[|parent|];
    assert Below(parent, name, e) ==> e[..|d|] == d;
  }
}
