/** Which archive a path leads into, and the archive kept open between requests
    (archive/kio_archivebase.cpp:49-163). */
module ArchiveCache {
  import opened Text

  /** What `stat` says of a path. */
  datatype Stat = Missing | Forbidden | Unreadable | Directory(mtime: int) | File(mtime: int)

  type FileSystem = string -> Stat

  /** The root is no file, and what is a directory is none with a slash behind it either. */
  ghost predicate Sane(fs: FileSystem) {
    !fs("/").File? && forall p :: fs(p).Directory? ==> !fs(p + "/").File?
  }

  datatype Error = AccessDenied | CannotStat | IsDirectory | DoesNotExist | UnsupportedProtocol | CannotOpen

  datatype Walked = Found(name: string, mtime: int, path: string) | Failed(error: Error)

  function Slashed(full: string): string {
    if full != "" && full[|full| - 1] != '/' then full + "/" else full
  }

  /** The path inside the archive, from behind the slash at `pos`. */
  function Inner(full: string, pos: nat): string
    requires pos < |full|
  {
    var path := full[pos + 1..];
    if |path| > 1 then (if path[|path| - 1] == '/' then path[..|path| - 1] else path) else "/"
  }

  /** Trying every prefix that ends in front of a slash, from behind `pos` on; `wasDirectory` tells
      of the prefix tried last. */
  function Walk(fs: FileSystem, full: string, pos: nat, wasDirectory: bool): (w: Walked)
    decreases |full| - pos
  {
    var next := IndexOf(full, '/', pos + 1);
    if next == -1 then Failed(if wasDirectory then IsDirectory else DoesNotExist)
    else
      match fs(full[..next])
      case Missing => Failed(DoesNotExist)
      case Forbidden => Failed(AccessDenied)
      case Unreadable => Failed(CannotStat)
      case Directory(_) => Walk(fs, full, next, true)
      case File(m) => Found(full[..next], m, Inner(full, next))
  }

  /** The path inside is what stands behind the archive's name, without a slash at either end, and "/" if that
      is nothing. */
  lemma InsideIs(name: string, inner: string)
    requires inner != "" && inner[|inner| - 1] != '/'
    ensures Inner(Slashed(name + ("/" + inner)), |name|) == inner
    ensures Inner(Slashed(name + ("/" + inner + "/")), |name|) == inner
    ensures Inner(Slashed(name + "/"), |name|) == "/"
  {
    var open, closed := name + ("/" + inner), name + ("/" + inner + "/");
    assert open[|open| - 1] == inner[|inner| - 1];
    assert open + "/" == closed && closed[|closed| - 1] == '/';
    assert closed[|name| + 1..] == inner + "/";
    assert (inner + "/")[..|inner|] == inner;
    assert (name + "/")[|name| + 1..] == "";
  }

  /** The shortest prefix that is no directory ends at `k`. */
  ghost predicate Shortest(fs: FileSystem, full: string, pos: nat, k: nat) {
    && pos < k < |full| && full[k] == '/' && fs(full[..k]).File?
    && forall i :: pos < i < k && full[i] == '/' ==> fs(full[..i]).Directory?
  }

  lemma {:induction false} WalkFindsShortest(fs: FileSystem, full: string, pos: nat, k: nat, was: bool)
    requires Shortest(fs, full, pos, k)
    ensures Walk(fs, full, pos, was) == Found(full[..k], fs(full[..k]).mtime, Inner(full, k))
    decreases |full| - pos
  {
    var next := IndexOf(full, '/', pos + 1);
    if next != k {
      WalkFindsShortest(fs, full, next, k, true);
    }
  }

  lemma {:induction false} FoundIsShortest(fs: FileSystem, full: string, pos: nat, was: bool) returns (k: nat)
    requires Walk(fs, full, pos, was).Found?
    ensures Shortest(fs, full, pos, k) && Walk(fs, full, pos, was)
          == Found(full[..k], fs(full[..k]).mtime, Inner(full, k))
    decreases |full| - pos
  {
    var next := IndexOf(full, '/', pos + 1);
    if fs(full[..next]).File? {
      k := next;
    } else {
      k := FoundIsShortest(fs, full, next, true);
    }
  }

  // ----- walks that find no archive -----

  /** A prefix that is tried: it ends in front of a slash behind `pos`. */
  predicate Tried(full: string, pos: nat, i: int) {
    pos < i < |full| && full[i] == '/'
  }

  /** Every prefix tried is a directory. */
  ghost predicate OnlyDirectories(fs: FileSystem, full: string, pos: nat) {
    forall i :: Tried(full, pos, i) ==> fs(full[..i]).Directory?
  }

  /** The first prefix tried that is no directory ends at `k`. */
  ghost predicate Stops(fs: FileSystem, full: string, pos: nat, k: nat) {
    && Tried(full, pos, k) && !fs(full[..k]).Directory?
    && forall i :: Tried(full, pos, i) && i < k ==> fs(full[..i]).Directory?
  }

  function Refusal(s: Stat): Error {
    match s
    case Forbidden => AccessDenied
    case Unreadable => CannotStat
    case _ => DoesNotExist
  }

  /** The first prefix that is neither directory nor file decides the error. */
  lemma {:induction false} FirstRefusalDecides(fs: FileSystem, full: string, pos: nat, k: nat, was: bool)
    requires Stops(fs, full, pos, k) && !fs(full[..k]).File?
    ensures Walk(fs, full, pos, was) == Failed(Refusal(fs(full[..k])))
    decreases |full| - pos
  {
    var next := IndexOf(full, '/', pos + 1);
    if next != k {
      assert Tried(full, pos, next);
      FirstRefusalDecides(fs, full, next, k, true);
    }
  }

  /** With directories only, the path is one, if any prefix was tried at all. */
  lemma {:induction false} DirectoriesOnly(fs: FileSystem, full: string, pos: nat, was: bool)
    requires OnlyDirectories(fs, full, pos)
    ensures Walk(fs, full, pos, was) == Failed(if was || exists i :: Tried(full, pos, i) then IsDirectory
                                               else DoesNotExist)
    decreases |full| - pos
  {
    var next := IndexOf(full, '/', pos + 1);
    if next != -1 {
      assert Tried(full, pos, next);
      DirectoriesOnly(fs, full, next, true);
    }
  }

  lemma {:induction false} FirstStop(fs: FileSystem, full: string, pos: nat) returns (k: nat)
    requires !OnlyDirectories(fs, full, pos)
    ensures Stops(fs, full, pos, k)
    decreases |full| - pos
  {
    k := IndexOf(full, '/', pos + 1);
    if fs(full[..k]).Directory? {
      k := FirstStop(fs, full, k);
    }
  }

  /** The three ends of a walk, each with exactly the trees it belongs to. */
  lemma WalkExactly(fs: FileSystem, full: string)
    ensures var w := Walk(fs, full, 0, false);
            && (w == Failed(IsDirectory) <==> OnlyDirectories(fs, full, 0) && exists i :: Tried(full, 0, i))
            && (w.Found? <==> exists k :: Shortest(fs, full, 0, k))
            && ((forall i :: !Tried(full, 0, i)) ==> w == Failed(DoesNotExist))
            && (forall k: nat :: Stops(fs, full, 0, k) && !fs(full[..k]).File? ==>
                w == Failed(Refusal(fs(full[..k]))))
  {
    if OnlyDirectories(fs, full, 0) {
      DirectoriesOnly(fs, full, 0, false);
    } else {
      var k := FirstStop(fs, full, 0);
      if fs(full[..k]).File? {
        assert Shortest(fs, full, 0, k);
        WalkFindsShortest(fs, full, 0, k, false);
      } else {
        FirstRefusalDecides(fs, full, 0, k, false);
      }
      assert Tried(full, 0, k);
    }
  }

  // ----- the archive kept open -----

  /** `fullPath` is the archive or a path into it, not a longer name that begins like it. */
  predicate Within(fullPath: string, name: string) {
    StartsWith(fullPath, name) && (|fullPath| == |name| || fullPath[|name|] == '/')
  }

  predicate Unchanged(s: Stat, mtime: int) {
    (s.File? || s.Directory?) && s.mtime == mtime
  }

  function StripLeft(p: string): string {
    if p != "" && p[0] == '/' then StripLeft(p[1..]) else p
  }

  function StripRight(p: string): string {
    if p != "" && p[|p| - 1] == '/' then StripRight(p[..|p| - 1]) else p
  }

  /** A path without its leading and trailing slashes. */
  function Stripped(p: string): string {
    StripRight(StripLeft(p))
  }

  lemma StrippedLeft(p: string)
    ensures Stripped("/" + p) == Stripped(p)
  {
    assert ("/" + p)[1..] == p;
  }

  lemma {:induction false} StripBoth(p: string)
    ensures StripRight(StripLeft(p + "/")) == StripRight(StripLeft(p))
    decreases |p|
  {
    if p == "" {
      assert "/"[1..] == "";
      assert "" + "/" == "/";
    } else if p[0] == '/' {
      assert (p + "/")[0] == '/' && (p + "/")[1..] == p[1..] + "/";
      StripBoth(p[1..]);
    } else {
      assert (p + "/")[..|p + "/"| - 1] == p;
    }
  }

  lemma StrippedRight(p: string)
    ensures Stripped(p + "/") == Stripped(p)
  {
    StripBoth(p);
  }

  /** While the file system stays as it was when the archive was found, the kept archive is the one
      a walk would find, and the path inside is the same but for slashes at its ends. */
  lemma KeptAgreesWithWalk(fs: FileSystem, earlier: string, name: string, mtime: int, path: string, fullPath: string)
    requires Sane(fs) && Walk(fs, Slashed(earlier), 0, false) == Found(name, mtime, path)
    requires Within(fullPath, name)
    ensures var w := Walk(fs, Slashed(fullPath), 0, false);
            && w.Found? && w.name == name && w.mtime == mtime
            && Stripped(w.path) == Stripped(fullPath[|name|..])
    ensures Unchanged(fs(name), mtime)
  {
    var q, full := Slashed(earlier), Slashed(fullPath);
    var k := FoundIsShortest(fs, q, 0, false);
    NameEnds(fs, q, k);
    SlashBehind(fullPath, name);
    forall i | 0 < i < k && full[i] == '/' ensures fs(full[..i]).Directory? {
      assert name[i] == full[..k][i] == full[i] && q[i] == q[..k][i];
      assert full[..i] == full[..k][..i] && q[..i] == q[..k][..i];
    }
    WalkFindsShortest(fs, full, 0, k, false);
    InnerIsRest(fullPath, k);
  }

  lemma NameEnds(fs: FileSystem, q: string, k: nat)
    requires Sane(fs) && Shortest(fs, q, 0, k)
    ensures q[k - 1] != '/'
  {
    assert q[..k] == q[..k - 1] + [q[k - 1]];
    assert [q[k - 1]] == "/" <==> q[k - 1] == '/';
    assert k == 1 ==> q[..k] == [q[0]];
    assert fs(q[..k - 1]).Directory? ==> !fs(q[..k - 1] + "/").File?;
  }

  lemma SlashBehind(fullPath: string, name: string)
    requires Within(fullPath, name) && name != "" && name[|name| - 1] != '/'
    ensures var full := Slashed(fullPath); |name| < |full| && full[|name|] == '/' && full[..|name|] == name
  {
    assert fullPath[..|name|] == name;
    assert |fullPath| == |name| ==> fullPath == name;
  }

  lemma InnerIsRest(fullPath: string, k: nat)
    requires 0 < k <= |fullPath| && (k == |fullPath| ==> fullPath[k - 1] != '/')
          && (k < |fullPath| ==> fullPath[k] == '/')
    ensures k < |Slashed(fullPath)| && Stripped(Inner(Slashed(fullPath), k)) == Stripped(fullPath[k..])
  {
    var full := Slashed(fullPath);
    var rest, behind := fullPath[k..], full[k + 1..];
    if k == |fullPath| {
      assert behind == "" && rest == "";
      StrippedRight("");
      assert "" + "/" == "/";
    } else {
      assert rest == "/" + fullPath[k + 1..];
      StrippedLeft(fullPath[k + 1..]);
      var inner := fullPath[k + 1..];
      assert behind == inner || behind == inner + "/";
      StrippedRight(inner);
      if |behind| > 1 {
        assert behind[|behind| - 1] == '/';
        assert behind == behind[..|behind| - 1] + "/";
        StrippedRight(behind[..|behind| - 1]);
      } else {
        StrippedRight("");
        assert "" + "/" == "/";
      }
    }
  }

  // ----- the worker -----

  /** An archive that has been opened: which file, and the time it had been changed then. */
  datatype Archive = Archive(name: string, mtime: int)

  class ArchiveWorker {
    var archiveFile: Option<Archive>
    var archiveName: string
    var mtime: int

    constructor ()
      ensures archiveFile == None
    {
      archiveFile, archiveName, mtime := None, "", 0;
    }

    /** An open archive is the one the other two fields tell of. */
    predicate Valid()
      reads this
    {
      archiveFile.Some? ==> archiveFile.value == Archive(archiveName, mtime)
    }

    /** The archive kept open serves the path. */
    predicate Kept(fs: FileSystem, fullPath: string)
      reads this
    {
      archiveFile.Some? && Within(fullPath, archiveName) && Unchanged(fs(archiveName), mtime)
    }

    /** `supported` and `readable` tell whether the scheme has an archive and whether it opens. */
    method CheckNewFile(fs: FileSystem, url: string, supported: bool, readable: bool) returns (r: Walked)
      requires Valid()
      modifies this
      ensures Valid()
      ensures old(Kept(fs, url)) ==>
                && archiveFile == old(archiveFile) && archiveName == old(archiveName) && mtime == old(mtime)
                && |archiveName| <= |url| && r == Found(archiveName, mtime, url[|archiveName|..])
      ensures !old(Kept(fs, url)) ==>
                var w := Walk(fs, Slashed(url), 0, false);
                r == if w.Failed? then w else if !supported then Failed(UnsupportedProtocol)
                      else if !readable then Failed(CannotOpen) else w
      ensures r.Found? ==> archiveFile == Some(Archive(r.name, r.mtime))
      ensures r.Failed? ==> archiveFile == None
    {
      var fullPath := url;
      if archiveFile.Some? && StartsWith(fullPath, archiveName)
         && (|fullPath| == |archiveName| || fullPath[|archiveName|] == '/') {
        var statbuf := fs(archiveName);
        if (statbuf.File? || statbuf.Directory?) && statbuf.mtime == mtime {
          return Found(archiveName, mtime, fullPath[|archiveName|..]);
        }
      }
      archiveFile := None;
      if fullPath != "" && fullPath[|fullPath| - 1] != '/' {
        fullPath := fullPath + "/";
      }
      r := FindArchive(fs, fullPath);
      if r.Failed? {
        return;
      }
      mtime := r.mtime;
      if !supported {
        return Failed(UnsupportedProtocol);
      }
      if !readable {
        return Failed(CannotOpen);
      }
      archiveFile := Some(Archive(r.name, r.mtime));
      archiveName := r.name;
    }
  }

  /** The loop over the prefixes (archive/kio_archivebase.cpp:87-130). */
  method FindArchive(fs: FileSystem, fullPath: string) returns (r: Walked)
    ensures r == Walk(fs, fullPath, 0, false)
  {
    var pos, wasDirectory := 0, false;
    var next := IndexOf(fullPath, '/', pos + 1);
    while next != -1
      invariant 0 <= pos && next == IndexOf(fullPath, '/', pos + 1)
      invariant Walk(fs, fullPath, pos, wasDirectory) == Walk(fs, fullPath, 0, false)
      decreases |fullPath| - pos
    {
      var tryPath := fullPath[..next];
      match fs(tryPath) {
        case Missing => return Failed(DoesNotExist);
        case Forbidden => return Failed(AccessDenied);
        case Unreadable => return Failed(CannotStat);
        case Directory(_) =>
          wasDirectory := true;
        case File(m) =>
          var path := fullPath[next + 1..];
          if |path| > 1 {
            if path[|path| - 1] == '/' {
              path := path[..|path| - 1];
            }
          } else {
            path := "/";
          }
          return Found(tryPath, m, path);
      }
      pos := next;
      next := IndexOf(fullPath, '/', pos + 1);
    }
    return Failed(if wasDirectory then IsDirectory else DoesNotExist);
  }
}
