/** What the messages of NFS version 3 and its MOUNT protocol look like on the wire, structure by structure
    and byte by byte, as sections 2.5, 2.6, 3.3 and 5.2 of RFC 1813 lay them out. */
module XdrLayout {
  import opened Text
  import opened Xdr
  import opened XdrMessages

  // ----- fields -----

  /** A field: what it means, its bytes, and whether it is one the wire has a place for. */
  datatype Field = Field(v: Value, bytes: seq<Byte>, ok: bool)

  function U32(n: nat): Field {
    Field(Number(n), Word(n), n < TWO32)
  }

  function U64(n: nat): Field {
    Field(Number(n), Word(n / TWO32) + Word(n % TWO32), n < TWO64)
  }

  function Signed(n: int): Field {
    Field(Number(n), Word(if n < 0 then n + TWO32 else n), -0x8000_0000 <= n < 0x8000_0000)
  }

  function Flag(b: bool): Field {
    var n := if b then 1 else 0;
    Field(Number(n), Word(n), true)
  }

  /** A file handle: at most 64 bytes, counted and padded. */
  function Handle(s: seq<Byte>): Field {
    Field(Octets(s), Word(|s|) + Padded(s), |s| <= 64)
  }

  /** The bytes of a file, counted and padded. */
  function Data(s: seq<Byte>): Field {
    Field(Octets(s), Word(|s|) + Padded(s), |s| < TWO32)
  }

  /** A name of at most `max` bytes, counted and padded; it holds no NUL. */
  function Name(s: seq<Byte>, max: nat := 0xFFFF_FFFF): Field {
    Field(Octets(s), Word(|s|) + Padded(s), |s| <= max && |s| < TWO32 && 0 !in s)
  }

  /** A verifier: eight bytes. */
  function Verifier(s: seq<Byte>): Field {
    Field(Octets(s), s, |s| == 8)
  }

  function Empty(): Field {
    Field(Nil, [], true)
  }

  /** A structure: one field after the other. */
  function Fields(fs: seq<Field>): Field {
    if fs == [] then Empty()
    else
      var rest := Fields(fs[1..]);
      Field(Both(fs[0].v, rest.v), fs[0].bytes + rest.bytes, fs[0].ok && rest.ok)
  }

  /** A selector and what it selects. */
  function Selected(n: int, f: Field): Field {
    Field(Tagged(n, f.v), Signed(n).bytes + f.bytes, Signed(n).ok && f.ok)
  }

  /** A flag: 1 and what it announces, or 0 and nothing. */
  function Maybe(f: Option<Field>): Field {
    if f.Some? then Field(Tagged(1, f.value.v), Word(1) + f.value.bytes, f.value.ok)
    else Field(Tagged(0, Nil), Word(0), true)
  }

  /** A list: in front of every element a 1, behind the last one a 0. */
  function Listed(fs: seq<Field>): Field {
    Field(Items(Meanings(fs)), Links(fs), AllOk(fs))
  }

  /** An array: its length and its elements. */
  function Arrayed(fs: seq<Field>): Field {
    Field(Items(Meanings(fs)), Word(|fs|) + Glued(fs), |fs| < TWO32 && AllOk(fs))
  }

  predicate AllOk(fs: seq<Field>) {
    forall i :: 0 <= i < |fs| ==> fs[i].ok
  }

  function Meanings(fs: seq<Field>): (vs: seq<Value>)
    ensures |vs| == |fs| && forall i :: 0 <= i < |fs| ==> vs[i] == fs[i].v
  {
    seq(|fs|, i requires 0 <= i < |fs| => fs[i].v)
  }

  function Links(fs: seq<Field>): seq<Byte> {
    if fs == [] then Word(0) else Word(1) + (fs[0].bytes + Links(fs[1..]))
  }

  function Glued(fs: seq<Field>): seq<Byte> {
    if fs == [] then [] else fs[0].bytes + Glued(fs[1..])
  }

  // ----- structures (sections 2.5 and 2.6) -----

  datatype Time = Time(seconds: nat, nseconds: nat)
  datatype Device = Device(major: nat, minor: nat)

  /** fattr3 */
  datatype Attributes = Attributes(kind: int, mode: nat, nlink: nat, uid: nat, gid: nat, size: nat, used: nat,
    rdev: Device, fsid: nat, fileid: nat, atime: Time, mtime: Time, ctime: Time)

  /** wcc_attr */
  datatype Before = Before(size: nat, mtime: Time, ctime: Time)

  /** wcc_data */
  datatype Change = Change(before: Option<Before>, after: Option<Attributes>)

  /** set_atime, set_mtime: left alone, set by the server, or given. */
  datatype SetTime = DontChange | ToServerTime | ToClientTime(time: Time)

  /** sattr3 */
  datatype NewAttributes = NewAttributes(mode: Option<nat>, uid: Option<nat>, gid: Option<nat>, size: Option<nat>,
    atime: SetTime, mtime: SetTime)

  /** diropargs3 */
  datatype Place = Place(dir: seq<Byte>, name: seq<Byte>)

  function TimeField(t: Time): Field {
    Fields([U32(t.seconds), U32(t.nseconds)])
  }

  function DeviceField(d: Device): Field {
    Fields([U32(d.major), U32(d.minor)])
  }

  function AttributesField(a: Attributes): Field {
    Fields([Signed(a.kind), U32(a.mode), U32(a.nlink), U32(a.uid), U32(a.gid), U64(a.size), U64(a.used),
            DeviceField(a.rdev), U64(a.fsid), U64(a.fileid), TimeField(a.atime), TimeField(a.mtime),
            TimeField(a.ctime)])
  }

  /** post_op_attr */
  function After(a: Option<Attributes>): Field {
    Maybe(if a.Some? then Some(AttributesField(a.value)) else None)
  }

  function BeforeField(b: Before): Field {
    Fields([U64(b.size), TimeField(b.mtime), TimeField(b.ctime)])
  }

  /** pre_op_attr */
  function Earlier(b: Option<Before>): Field {
    Maybe(if b.Some? then Some(BeforeField(b.value)) else None)
  }

  function ChangeField(c: Change): Field {
    Fields([Earlier(c.before), After(c.after)])
  }

  /** post_op_fh3 */
  function HandleGiven(h: Option<seq<Byte>>): Field {
    Maybe(if h.Some? then Some(Handle(h.value)) else None)
  }

  function Set32(n: Option<nat>): Field {
    Maybe(if n.Some? then Some(U32(n.value)) else None)
  }

  function Set64(n: Option<nat>): Field {
    Maybe(if n.Some? then Some(U64(n.value)) else None)
  }

  function SetTimeField(t: SetTime): Field {
    match t
    case DontChange => Selected(0, Empty())
    case ToServerTime => Selected(1, Empty())
    case ToClientTime(time) => Selected(2, TimeField(time))
  }

  function NewField(a: NewAttributes): Field {
    Fields([Set32(a.mode), Set32(a.uid), Set32(a.gid), Set64(a.size), SetTimeField(a.atime), SetTimeField(a.mtime)])
  }

  function PlaceField(p: Place): Field {
    Fields([Handle(p.dir), Name(p.name)])
  }

  // ----- arguments (section 3.3, and 5.2 for MOUNT) -----

  /** createhow3 */
  datatype How = Unchecked(attributes: NewAttributes) | Guarded(attributes: NewAttributes) | Exclusive(verf: seq<Byte>)

  /** mknoddata3 */
  datatype Special =
    | Character(attributes: NewAttributes, spec: Device) | Block(attributes: NewAttributes, spec: Device)
    | Socket(attributes: NewAttributes) | Fifo(attributes: NewAttributes) | Otherwise(kind: int)

  datatype Call =
    | Getattr(file: seq<Byte>)
    | Setattr(file: seq<Byte>, attributes: NewAttributes, guard: Option<Time>)
    | Lookup(what: Place)
    | Access(file: seq<Byte>, access: nat)
    | Readlink(file: seq<Byte>)
    | Read(file: seq<Byte>, offset: nat, count: nat)
    | Write(file: seq<Byte>, offset: nat, count: nat, stable: int, data: seq<Byte>)
    | Create(what: Place, how: How)
    | Mkdir(what: Place, attributes: NewAttributes)
    | Symlink(what: Place, attributes: NewAttributes, target: seq<Byte>)
    | Mknod(what: Place, special: Special)
    | Remove(what: Place)
    | Rmdir(what: Place)
    | Rename(from: Place, to: Place)
    | Link(file: seq<Byte>, link: Place)
    | Readdir(dir: seq<Byte>, cookie: nat, verf: seq<Byte>, count: nat)
    | Readdirplus(dir: seq<Byte>, cookie: nat, verf: seq<Byte>, dircount: nat, maxcount: nat)
    | Fsstat(file: seq<Byte>)
    | Fsinfo(file: seq<Byte>)
    | Pathconf(file: seq<Byte>)
    | Commit(file: seq<Byte>, offset: nat, count: nat)
    | Mnt(path: seq<Byte>)

  function HowField(h: How): Field {
    match h
    case Unchecked(a) => Selected(0, NewField(a))
    case Guarded(a) => Selected(1, NewField(a))
    case Exclusive(verf) => Selected(2, Verifier(verf))
  }

  function SpecialField(s: Special): Field {
    match s
    case Block(a, spec) => Selected(3, Fields([NewField(a), DeviceField(spec)]))
    case Character(a, spec) => Selected(4, Fields([NewField(a), DeviceField(spec)]))
    case Socket(a) => Selected(6, NewField(a))
    case Fifo(a) => Selected(7, NewField(a))
    case Otherwise(kind) => Selected(kind, Empty())
  }

  /** A kind of file of which nothing but the kind is written. */
  predicate PlainKind(c: Call) {
    c.Mknod? && c.special.Otherwise? ==>
      c.special.kind !in {3, 4, 6, 7}
  }

  function CallField(c: Call): Field {
    match c
    case Getattr(file) => Handle(file)
    case Setattr(file, a, guard) =>
      Fields([Handle(file), NewField(a), Maybe(if guard.Some? then Some(TimeField(guard.value)) else None)])
    case Lookup(what) => PlaceField(what)
    case Access(file, access) => Fields([Handle(file), U32(access)])
    case Readlink(file) => Handle(file)
    case Read(file, offset, count) => Fields([Handle(file), U64(offset), U32(count)])
    case Write(file, offset, count, stable, data) =>
      Fields([Handle(file), U64(offset), U32(count), Signed(stable), Data(data)])
    case Create(what, how) => Fields([PlaceField(what), HowField(how)])
    case Mkdir(what, a) => Fields([PlaceField(what), NewField(a)])
    case Symlink(what, a, target) => Fields([PlaceField(what), Fields([NewField(a), Name(target)])])
    case Mknod(what, special) => Fields([PlaceField(what), SpecialField(special)])
    case Remove(what) => PlaceField(what)
    case Rmdir(what) => PlaceField(what)
    case Rename(from, to) => Fields([PlaceField(from), PlaceField(to)])
    case Link(file, link) => Fields([Handle(file), PlaceField(link)])
    case Readdir(dir, cookie, verf, count) => Fields([Handle(dir), U64(cookie), Verifier(verf), U32(count)])
    case Readdirplus(dir, cookie, verf, dircount, maxcount) =>
      Fields([Handle(dir), U64(cookie), Verifier(verf), U32(dircount), U32(maxcount)])
    case Fsstat(file) => Handle(file)
    case Fsinfo(file) => Handle(file)
    case Pathconf(file) => Handle(file)
    case Commit(file, offset, count) => Fields([Handle(file), U64(offset), U32(count)])
    case Mnt(path) => Name(path, 1024)
  }

  function CallMessage(c: Call): Message {
    match c
    case Getattr(_) => GETATTR3args
    case Setattr(_, _, _) => SETATTR3args
    case Lookup(_) => LOOKUP3args
    case Access(_, _) => ACCESS3args
    case Readlink(_) => READLINK3args
    case Read(_, _, _) => READ3args
    case Write(_, _, _, _, _) => WRITE3args
    case Create(_, _) => CREATE3args
    case Mkdir(_, _) => MKDIR3args
    case Symlink(_, _, _) => SYMLINK3args
    case Mknod(_, _) => MKNOD3args
    case Remove(_) => REMOVE3args
    case Rmdir(_) => RMDIR3args
    case Rename(_, _) => RENAME3args
    case Link(_, _) => LINK3args
    case Readdir(_, _, _, _) => READDIR3args
    case Readdirplus(_, _, _, _, _) => READDIRPLUS3args
    case Fsstat(_) => FSSTAT3args
    case Fsinfo(_) => FSINFO3args
    case Pathconf(_) => PATHCONF3args
    case Commit(_, _, _) => COMMIT3args
    case Mnt(_) => Dirpath3
  }

  // ----- replies -----

  datatype Entry = Entry(fileid: nat, name: seq<Byte>, cookie: nat)
  datatype EntryPlus = EntryPlus(fileid: nat, name: seq<Byte>, cookie: nat, attributes: Option<Attributes>,
                                 handle: Option<seq<Byte>>)
  datatype Mount = Mount(hostname: seq<Byte>, directory: seq<Byte>)
  datatype Export = Export(dir: seq<Byte>, groups: seq<seq<Byte>>)

  datatype Sizes = Sizes(rtmax: nat, rtpref: nat, rtmult: nat, wtmax: nat, wtpref: nat, wtmult: nat, dtpref: nat)
  datatype Space = Space(tbytes: nat, fbytes: nat, abytes: nat, tfiles: nat, ffiles: nat, afiles: nat)
  datatype Traits = Traits(noTrunc: bool, chownRestricted: bool, caseInsensitive: bool, casePreserving: bool)

  /** What a reply of status 0 says. */
  datatype Success =
    | Got(attributes: Attributes)
    | Setted(wcc: Change)
    | Found(file: seq<Byte>, attributesOf: Option<Attributes>, ofDir: Option<Attributes>)
    | Accessible(attributesOf: Option<Attributes>, access: nat)
    | Target(attributesOf: Option<Attributes>, path: seq<Byte>)
    | ReadData(attributesOf: Option<Attributes>, count: nat, eof: bool, data: seq<Byte>)
    | Written(wcc: Change, count: nat, committed: int, verf: seq<Byte>)
    | Made(m: Message, handle: Option<seq<Byte>>, attributesOf: Option<Attributes>, wcc: Change)
    | Removed(m: Message, wcc: Change)
    | Renamed(fromdir: Change, todir: Change)
    | Linked(attributesOf: Option<Attributes>, wcc: Change)
    | Entries(attributesOf: Option<Attributes>, cookieverf: seq<Byte>, entries: seq<Entry>, eof: bool)
    | EntriesPlus(attributesOf: Option<Attributes>, cookieverf: seq<Byte>, entriesPlus: seq<EntryPlus>, eof: bool)
    | Status(attributesOf: Option<Attributes>, space: Space, invarsec: nat)
    | Info(attributesOf: Option<Attributes>, sizes: Sizes, maxfilesize: nat, delta: Time, properties: nat)
    | Conf(attributesOf: Option<Attributes>, linkmax: nat, nameMax: nat, traits: Traits)
    | Committed(wcc: Change, verf: seq<Byte>)
    | Mounted(fhandle: seq<Byte>, flavors: seq<int>)

  /** What any other status comes with. */
  datatype Failure = NoMore | AttributesOnly(a: Option<Attributes>) | WccOnly(wcc: Change)
                   | BothDirs(from: Change, to: Change) | LinkFailed(a: Option<Attributes>, wcc: Change)

  function EntryField(e: Entry): Field {
    Fields([U64(e.fileid), Name(e.name), U64(e.cookie)])
  }

  function EntryPlusField(e: EntryPlus): Field {
    Fields([U64(e.fileid), Name(e.name), U64(e.cookie), After(e.attributes), HandleGiven(e.handle)])
  }

  /** The attributes of the directory, a verifier, and a list of entries with a flag behind it. */
  function DirectoryField(a: Option<Attributes>, verf: seq<Byte>, entries: seq<Field>, eof: bool): Field {
    Fields([After(a), Verifier(verf), Fields([Listed(entries), Flag(eof)])])
  }

  function SuccessField(s: Success): Field {
    match s
    case Got(a) => AttributesField(a)
    case Setted(wcc) => ChangeField(wcc)
    case Found(file, a, dir) => Fields([Handle(file), After(a), After(dir)])
    case Accessible(a, access) => Fields([After(a), U32(access)])
    case Target(a, path) => Fields([After(a), Name(path)])
    case ReadData(a, count, eof, data) => Fields([After(a), U32(count), Flag(eof), Data(data)])
    case Written(wcc, count, committed, verf) =>
      Fields([ChangeField(wcc), U32(count), Signed(committed), Verifier(verf)])
    case Made(_, handle, a, wcc) => Fields([HandleGiven(handle), After(a), ChangeField(wcc)])
    case Removed(_, wcc) => ChangeField(wcc)
    case Renamed(from, to) => Fields([ChangeField(from), ChangeField(to)])
    case Linked(a, wcc) => Fields([After(a), ChangeField(wcc)])
    case Entries(a, verf, es, eof) => DirectoryField(a, verf, EntryFields(es), eof)
    case EntriesPlus(a, verf, es, eof) => DirectoryField(a, verf, EntryPlusFields(es), eof)
    case Status(a, sp, invarsec) =>
      Fields([After(a), U64(sp.tbytes), U64(sp.fbytes), U64(sp.abytes), U64(sp.tfiles), U64(sp.ffiles), U64(sp.afiles),
              U32(invarsec)])
    case Info(a, n, maxfilesize, delta, properties) =>
      Fields([After(a), U32(n.rtmax), U32(n.rtpref), U32(n.rtmult), U32(n.wtmax), U32(n.wtpref), U32(n.wtmult),
              U32(n.dtpref), U64(maxfilesize), TimeField(delta), U32(properties)])
    case Conf(a, linkmax, nameMax, t) =>
      Fields([After(a), U32(linkmax), U32(nameMax), Flag(t.noTrunc), Flag(t.chownRestricted), Flag(t.caseInsensitive),
              Flag(t.casePreserving)])
    case Committed(wcc, verf) => Fields([ChangeField(wcc), Verifier(verf)])
    case Mounted(fhandle, flavors) => Fields([Handle(fhandle), Arrayed(SignedFields(flavors))])
  }

  function EntryFields(es: seq<Entry>): (fs: seq<Field>)
    ensures |fs| == |es| && forall i :: 0 <= i < |es| ==> fs[i] == EntryField(es[i])
  {
    seq(|es|, i requires 0 <= i < |es| => EntryField(es[i]))
  }

  function EntryPlusFields(es: seq<EntryPlus>): (fs: seq<Field>)
    ensures |fs| == |es| && forall i :: 0 <= i < |es| ==> fs[i] == EntryPlusField(es[i])
  {
    seq(|es|, i requires 0 <= i < |es| => EntryPlusField(es[i]))
  }

  function SignedFields(ns: seq<int>): (fs: seq<Field>)
    ensures |fs| == |ns| && forall i :: 0 <= i < |ns| ==> fs[i] == Signed(ns[i])
  {
    seq(|ns|, i requires 0 <= i < |ns| => Signed(ns[i]))
  }

  function NameFields(ss: seq<seq<Byte>>): (fs: seq<Field>)
    ensures |fs| == |ss| && forall i :: 0 <= i < |ss| ==> fs[i] == Name(ss[i], 255)
  {
    seq(|ss|, i requires 0 <= i < |ss| => Name(ss[i], 255))
  }

  /** mountbody */
  function MountField(m: Mount): Field {
    Fields([Name(m.hostname, 255), Name(m.directory, 1024)])
  }

  /** exportnode */
  function ExportField(e: Export): Field {
    Fields([Name(e.dir, 1024), Listed(NameFields(e.groups))])
  }

  function MountFields(ms: seq<Mount>): (fs: seq<Field>)
    ensures |fs| == |ms| && forall i :: 0 <= i < |ms| ==> fs[i] == MountField(ms[i])
  {
    seq(|ms|, i requires 0 <= i < |ms| => MountField(ms[i]))
  }

  function ExportFields(es: seq<Export>): (fs: seq<Field>)
    ensures |fs| == |es| && forall i :: 0 <= i < |es| ==> fs[i] == ExportField(es[i])
  {
    seq(|es|, i requires 0 <= i < |es| => ExportField(es[i]))
  }

  function FailureField(f: Failure): Field {
    match f
    case NoMore => Empty()
    case AttributesOnly(a) => After(a)
    case WccOnly(wcc) => ChangeField(wcc)
    case BothDirs(from, to) => Fields([ChangeField(from), ChangeField(to)])
    case LinkFailed(a, wcc) => Fields([After(a), ChangeField(wcc)])
  }

  function SuccessMessage(s: Success): Message {
    match s
    case Got(_) => GETATTR3res
    case Setted(_) => SETATTR3res
    case Found(_, _, _) => LOOKUP3res
    case Accessible(_, _) => ACCESS3res
    case Target(_, _) => READLINK3res
    case ReadData(_, _, _, _) => READ3res
    case Written(_, _, _, _) => WRITE3res
    case Made(m, _, _, _) => m
    case Removed(m, _) => m
    case Renamed(_, _) => RENAME3res
    case Linked(_, _) => LINK3res
    case Entries(_, _, _, _) => READDIR3res
    case EntriesPlus(_, _, _, _) => READDIRPLUS3res
    case Status(_, _, _) => FSSTAT3res
    case Info(_, _, _, _, _) => FSINFO3res
    case Conf(_, _, _, _) => PATHCONF3res
    case Committed(_, _) => COMMIT3res
    case Mounted(_, _) => Mountres3
  }

  /** The procedures that share a form of success. */
  predicate Says(s: Success) {
    match s
    case Made(m, _, _, _) => m in {CREATE3res, MKDIR3res, SYMLINK3res, MKNOD3res}
    case Removed(m, _) => m in {REMOVE3res, RMDIR3res}
    case _ => true
  }

  /** What a failure of each procedure comes with. */
  predicate FailsWith(m: Message, f: Failure) {
    match f
    case NoMore => m in {GETATTR3res, Mountres3}
    case AttributesOnly(_) =>
      m in {LOOKUP3res, ACCESS3res, READLINK3res, READ3res, READDIR3res, READDIRPLUS3res, FSSTAT3res, FSINFO3res,
            PATHCONF3res}
    case WccOnly(_) =>
      m in {SETATTR3res, WRITE3res, CREATE3res, MKDIR3res, SYMLINK3res, MKNOD3res, REMOVE3res, RMDIR3res, COMMIT3res}
    case BothDirs(_, _) => m == RENAME3res
    case LinkFailed(_, _) => m == LINK3res
  }
}
