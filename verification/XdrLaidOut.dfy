/** The types of XdrMessages write the messages of XdrLayout, and read them back: every field has the
    place and the width that RFC 1813 gives it, and nothing that has no place there is written. */
module XdrLaidOut {
  import opened Text
  import opened Xdr
  import opened XdrLaws
  import opened XdrMessages
  import opened XdrLayout

  /** What a type makes of a field: it takes exactly the values that are in range, and writes these bytes. */
  ghost predicate Lays(t: Type, f: Field) {
    && (Fits(t, f.v) <==> f.ok)
    && (f.ok ==> Encode(t, f.v) == f.bytes)
  }

  // ----- the constructions -----

  lemma WordsLay(n: nat)
    ensures Lays(UInt32, U32(n)) && Lays(UHyper, U64(n))
  {
  }

  lemma SignedLays(n: int)
    ensures Lays(Enum, Signed(n))
  {
  }

  lemma FlagLays(b: bool)
    ensures Lays(Bool, Flag(b))
  {
  }

  lemma HandleLays(s: seq<Byte>)
    ensures Lays(NFS_FH3, Handle(s))
  {
  }

  lemma DataLays(s: seq<Byte>)
    ensures Lays(Bytes(UNLIMITED), Data(s))
  {
  }

  lemma NameLays(s: seq<Byte>, max: nat)
    ensures Lays(CString(max), Name(s, max))
  {
  }

  lemma VerifierLays(s: seq<Byte>)
    ensures Lays(VERF, Verifier(s))
  {
    if |s| == 8 {
      assert Padded(s) == s;
    }
  }

  lemma EmptyLays()
    ensures Lays(Unit, Empty())
  {
  }

  lemma PairLays(t: Type, u: Type, f: Field, g: Field)
    requires Lays(t, f) && Lays(u, g)
    ensures Lays(Pair(t, u), Field(Both(f.v, g.v), f.bytes + g.bytes, f.ok && g.ok))
  {
  }

  lemma {:induction false} RecordLays(ts: seq<Type>, fs: seq<Field>)
    requires |ts| == |fs| && forall i :: 0 <= i < |ts| ==> Lays(ts[i], fs[i])
    ensures Lays(Struct(ts), Fields(fs))
  {
    if ts == [] {
      EmptyLays();
    } else {
      RecordLays(ts[1..], fs[1..]);
      PairLays(ts[0], Struct(ts[1..]), fs[0], Fields(fs[1..]));
    }
  }

  lemma UnionLays(arms: Arms, n: int, t: Type, f: Field)
    requires Arm(arms, n) == Some(t) && Lays(t, f)
    ensures Lays(Union(false, arms), Selected(n, f))
  {
  }

  ghost predicate LaysIf(t: Type, f: Option<Field>) {
    f.Some? ==> Lays(t, f.value)
  }

  lemma OptionalLays(t: Type, f: Option<Field>)
    requires LaysIf(t, f)
    ensures Lays(Optional(t), Maybe(f)) && Lays(WhenSet(t), Maybe(f))
  {
    assert Arm(Case(0, Unit, Nothing), 0) == Some(Unit) && Arm(Default(Unit), 0) == Some(Unit);
    assert Word(0) + [] == Word(0);
  }

  lemma ResultLays(good: Type, bad: Type, status: int, f: Field)
    requires Lays(if status == 0 then good else bad, f)
    ensures Lays(Result(good, bad), Selected(status, f))
  {
    UnionLays(Case(0, good, Default(bad)), status, if status == 0 then good else bad, f);
  }

  ghost predicate AllLay(t: Type, fs: seq<Field>) {
    forall i :: 0 <= i < |fs| ==> Lays(t, fs[i])
  }

  lemma AllFitOk(t: Type, fs: seq<Field>)
    requires AllLay(t, fs)
    ensures AllFit(t, Meanings(fs)) <==> AllOk(fs)
  {
    var vs := Meanings(fs);
    if AllFit(t, vs) {
      forall i | 0 <= i < |fs|
        ensures fs[i].ok
      {
        assert vs[i] in vs;
      }
    }
  }

  lemma {:induction false} LinksLay(t: Type, fs: seq<Field>)
    requires AllOk(fs) && AllLay(t, fs)
    ensures AllFit(t, Meanings(fs)) && EncodeChain(t, Meanings(fs)) == Links(fs)
  {
    AllFitOk(t, fs);
    if fs != [] {
      LinksLay(t, fs[1..]);
      var vs := Meanings(fs);
      assert vs[1..] == Meanings(fs[1..]);
      assert EncodeChain(t, vs) == Word(1) + EncodeNode(t, vs);
    }
  }

  lemma ChainOfItems(t: Type, vs: seq<Value>)
    ensures Fits(Chain(t), Items(vs)) <==> AllFit(t, vs)
    ensures AllFit(t, vs) ==> Encode(Chain(t), Items(vs)) == EncodeChain(t, vs)
  {
  }

  lemma ListLays(t: Type, fs: seq<Field>)
    requires AllLay(t, fs)
    ensures Lays(Chain(t), Listed(fs))
  {
    AllFitOk(t, fs);
    ChainOfItems(t, Meanings(fs));
    if AllOk(fs) {
      LinksLay(t, fs);
    }
  }

  lemma {:induction false} GluedLay(t: Type, fs: seq<Field>)
    requires AllOk(fs) && AllLay(t, fs)
    ensures AllFit(t, Meanings(fs)) && EncodeAll(t, Meanings(fs)) == Glued(fs)
  {
    AllFitOk(t, fs);
    if fs != [] {
      GluedLay(t, fs[1..]);
      assert Meanings(fs)[1..] == Meanings(fs[1..]);
    }
  }

  lemma ArrayLays(t: Type, fs: seq<Field>)
    requires AllLay(t, fs)
    ensures Lays(Array(t, UNLIMITED), Arrayed(fs))
  {
    AllFitOk(t, fs);
    if AllOk(fs) {
      GluedLay(t, fs);
    }
  }

  // ----- the structures -----

  lemma TimeLays(t: Time)
    ensures Lays(NFSTIME3, TimeField(t))
  {
    WordsLay(t.seconds);
    WordsLay(t.nseconds);
    RecordLays([UInt32, UInt32], [U32(t.seconds), U32(t.nseconds)]);
  }

  lemma DeviceLays(d: Device)
    ensures Lays(SPECDATA3, DeviceField(d))
  {
    WordsLay(d.major);
    WordsLay(d.minor);
    RecordLays([UInt32, UInt32], [U32(d.major), U32(d.minor)]);
  }

  lemma AttributesLay(a: Attributes)
    ensures Lays(FATTR3, AttributesField(a))
  {
    SignedLays(a.kind);
    WordsLay(a.mode);
    WordsLay(a.nlink);
    WordsLay(a.uid);
    WordsLay(a.gid);
    WordsLay(a.size);
    WordsLay(a.used);
    DeviceLays(a.rdev);
    WordsLay(a.fsid);
    WordsLay(a.fileid);
    TimeLays(a.atime);
    TimeLays(a.mtime);
    TimeLays(a.ctime);
    RecordLays([Enum, UInt32, UInt32, UInt32, UInt32, UHyper, UHyper, SPECDATA3, UHyper, UHyper, NFSTIME3, NFSTIME3,
      NFSTIME3], [Signed(a.kind), U32(a.mode), U32(a.nlink), U32(a.uid), U32(a.gid), U64(a.size), U64(a.used),
            DeviceField(a.rdev), U64(a.fsid), U64(a.fileid), TimeField(a.atime), TimeField(a.mtime),
            TimeField(a.ctime)]);
  }

  lemma AfterLays(a: Option<Attributes>)
    ensures Lays(POST_OP_ATTR, After(a))
  {
    if a.Some? {
      AttributesLay(a.value);
    }
    OptionalLays(FATTR3, if a.Some? then Some(AttributesField(a.value)) else None);
  }

  lemma EarlierLays(b: Option<Before>)
    ensures Lays(PRE_OP_ATTR, Earlier(b))
  {
    if b.Some? {
      var w := b.value;
      WordsLay(w.size);
      TimeLays(w.mtime);
      TimeLays(w.ctime);
      RecordLays([UHyper, NFSTIME3, NFSTIME3], [U64(w.size), TimeField(w.mtime), TimeField(w.ctime)]);
    }
    OptionalLays(WCC_ATTR, if b.Some? then Some(BeforeField(b.value)) else None);
  }

  lemma ChangeLays(c: Change)
    ensures Lays(WCC_DATA, ChangeField(c))
  {
    EarlierLays(c.before);
    AfterLays(c.after);
    RecordLays([PRE_OP_ATTR, POST_OP_ATTR], [Earlier(c.before), After(c.after)]);
  }

  lemma HandleGivenLays(h: Option<seq<Byte>>)
    ensures Lays(POST_OP_FH3, HandleGiven(h))
  {
    if h.Some? {
      HandleLays(h.value);
    }
    OptionalLays(NFS_FH3, if h.Some? then Some(Handle(h.value)) else None);
  }

  lemma SetsLay(n: Option<nat>)
    ensures Lays(WhenSet(UInt32), Set32(n)) && Lays(WhenSet(UHyper), Set64(n))
  {
    if n.Some? {
      WordsLay(n.value);
    }
    OptionalLays(UInt32, if n.Some? then Some(U32(n.value)) else None);
    OptionalLays(UHyper, if n.Some? then Some(U64(n.value)) else None);
  }

  lemma SetTimeLays(t: SetTime)
    ensures Lays(SET_TIME, SetTimeField(t))
  {
    var arms := Case(2, NFSTIME3, Default(Unit));
    EmptyLays();
    match t
    case DontChange => UnionLays(arms, 0, Unit, Empty());
    case ToServerTime => UnionLays(arms, 1, Unit, Empty());
    case ToClientTime(time) =>
      TimeLays(time);
      UnionLays(arms, 2, NFSTIME3, TimeField(time));
  }

  lemma NewLays(a: NewAttributes)
    ensures Lays(SATTR3, NewField(a))
  {
    SetsLay(a.mode);
    SetsLay(a.uid);
    SetsLay(a.gid);
    SetsLay(a.size);
    SetTimeLays(a.atime);
    SetTimeLays(a.mtime);
    RecordLays([WhenSet(UInt32), WhenSet(UInt32), WhenSet(UInt32), WhenSet(UHyper), SET_TIME, SET_TIME],
               [Set32(a.mode), Set32(a.uid), Set32(a.gid), Set64(a.size), SetTimeField(a.atime),
                SetTimeField(a.mtime)]);
  }

  lemma PlaceLays(p: Place)
    ensures Lays(DIROPARGS3, PlaceField(p))
  {
    HandleLays(p.dir);
    NameLays(p.name, UNLIMITED);
    RecordLays([NFS_FH3, FILENAME3], [Handle(p.dir), Name(p.name)]);
  }

  lemma HowLays(h: How)
    ensures Lays(CREATEHOW3, HowField(h))
  {
    var arms := Case(0, SATTR3, Case(1, SATTR3, Case(2, VERF, Nothing)));
    match h
    case Unchecked(a) =>
      NewLays(a);
      UnionLays(arms, 0, SATTR3, NewField(a));
    case Guarded(a) =>
      NewLays(a);
      assert Arm(Case(1, SATTR3, Case(2, VERF, Nothing)), 1) == Some(SATTR3);
      UnionLays(arms, 1, SATTR3, NewField(a));
    case Exclusive(verf) =>
      VerifierLays(verf);
      assert Arm(Case(2, VERF, Nothing), 2) == Some(VERF);
      assert Arm(Case(1, SATTR3, Case(2, VERF, Nothing)), 2) == Some(VERF);
      UnionLays(arms, 2, VERF, Verifier(verf));
  }

  lemma DeviceDataLays(a: NewAttributes, d: Device)
    ensures Lays(DEVICEDATA3, Fields([NewField(a), DeviceField(d)]))
  {
    NewLays(a);
    DeviceLays(d);
    RecordLays([SATTR3, SPECDATA3], [NewField(a), DeviceField(d)]);
  }

  lemma SpecialArm(kind: int)
    ensures MKNODDATA3.Union? && !MKNODDATA3.boolean
    ensures Arm(MKNODDATA3.arms, kind) == Some(if kind == 3 || kind == 4 then DEVICEDATA3
      else if kind == 6 || kind == 7 then SATTR3 else Unit)
  {
    var sixth := Case(6, SATTR3, Case(7, SATTR3, Default(Unit)));
    assert Arm(Case(7, SATTR3, Default(Unit)), kind) == Some(if kind == 7 then SATTR3 else Unit);
    assert Arm(sixth, kind) == Some(if kind == 6 || kind == 7 then SATTR3 else Unit);
    assert Arm(Case(3, DEVICEDATA3, sixth), kind) == if kind == 3 then Some(DEVICEDATA3) else Arm(sixth, kind);
  }

  lemma SpecialLays(s: Special)
    requires s.Otherwise? ==> s.kind !in {3, 4, 6, 7}
    ensures Lays(MKNODDATA3, SpecialField(s))
  {
    var arms := MKNODDATA3.arms;
    match s
    case Block(a, spec) =>
      SpecialArm(3);
      DeviceDataLays(a, spec);
      UnionLays(arms, 3, DEVICEDATA3, Fields([NewField(a), DeviceField(spec)]));
    case Character(a, spec) =>
      SpecialArm(4);
      DeviceDataLays(a, spec);
      UnionLays(arms, 4, DEVICEDATA3, Fields([NewField(a), DeviceField(spec)]));
    case Socket(a) =>
      SpecialArm(6);
      NewLays(a);
      UnionLays(arms, 6, SATTR3, NewField(a));
    case Fifo(a) =>
      SpecialArm(7);
      NewLays(a);
      UnionLays(arms, 7, SATTR3, NewField(a));
    case Otherwise(kind) =>
      SpecialArm(kind);
      EmptyLays();
      UnionLays(arms, kind, Unit, Empty());
  }

  // ----- the arguments -----

  /** The type of the arguments of `c`. */
  function CallType(c: Call): Type {
    match c
    case Setattr(_, _, _) => Struct([NFS_FH3, SATTR3, SATTRGUARD3])
    case Access(_, _) => Struct([NFS_FH3, UInt32])
    case Read(_, _, _) => Struct([NFS_FH3, UHyper, UInt32])
    case Commit(_, _, _) => Struct([NFS_FH3, UHyper, UInt32])
    case Write(_, _, _, _, _) => Struct([NFS_FH3, UHyper, UInt32, Enum, Bytes(UNLIMITED)])
    case Create(_, _) => Struct([DIROPARGS3, CREATEHOW3])
    case Mkdir(_, _) => Struct([DIROPARGS3, SATTR3])
    case Symlink(_, _, _) => Struct([DIROPARGS3, Struct([SATTR3, FILENAME3])])
    case Mknod(_, _) => Struct([DIROPARGS3, MKNODDATA3])
    case Lookup(_) => DIROPARGS3
    case Remove(_) => DIROPARGS3
    case Rmdir(_) => DIROPARGS3
    case Rename(_, _) => Struct([DIROPARGS3, DIROPARGS3])
    case Link(_, _) => Struct([NFS_FH3, DIROPARGS3])
    case Readdir(_, _, _, _) => Struct([NFS_FH3, UHyper, VERF, UInt32])
    case Readdirplus(_, _, _, _, _) => Struct([NFS_FH3, UHyper, VERF, UInt32, UInt32])
    case Mnt(_) => DIRPATH3
    case _ => NFS_FH3
  }

  ghost predicate CallTyped(c: Call) {
    TypeOf(CallMessage(c)) == CallType(c)
  }

  lemma FileCallTypes(c: Call)
    requires c.Getattr? || c.Setattr? || c.Access? || c.Readlink? || c.Fsstat? || c.Fsinfo? || c.Pathconf?
    ensures CallTyped(c)
  {
  }

  lemma DataCallTypes(c: Call)
    requires c.Read? || c.Write? || c.Commit? || c.Link?
    ensures CallTyped(c)
  {
  }

  lemma ListCallTypes(c: Call)
    requires c.Readdir? || c.Readdirplus? || c.Mnt?
    ensures CallTyped(c)
  {
  }

  lemma PlaceCallTypes(c: Call)
    requires c.Lookup? || c.Create? || c.Mkdir? || c.Symlink? || c.Mknod? || c.Remove? || c.Rmdir? || c.Rename?
    ensures CallTyped(c)
  {
  }

  lemma CallTypes(c: Call)
    ensures CallTyped(c)
  {
    if c.Getattr? || c.Setattr? || c.Access? || c.Readlink? || c.Fsstat? || c.Fsinfo? || c.Pathconf? {
      FileCallTypes(c);
    } else if c.Read? || c.Write? || c.Commit? || c.Link? {
      DataCallTypes(c);
    } else if c.Readdir? || c.Readdirplus? || c.Mnt? {
      ListCallTypes(c);
    } else {
      PlaceCallTypes(c);
    }
  }

  ghost predicate CallLaid(c: Call) {
    Lays(CallType(c), CallField(c))
  }

  lemma HandleCallLays(c: Call)
    requires c.Getattr? || c.Readlink? || c.Fsstat? || c.Fsinfo? || c.Pathconf?
    ensures CallLaid(c)
  {
    HandleLays(c.file);
  }

  lemma PlaceCallLays(c: Call)
    requires c.Lookup? || c.Remove? || c.Rmdir?
    ensures CallLaid(c)
  {
    PlaceLays(c.what);
  }

  lemma SetattrLays(c: Call)
    requires c.Setattr?
    ensures CallLaid(c)
  {
    HandleLays(c.file);
    NewLays(c.attributes);
    if c.guard.Some? {
      TimeLays(c.guard.value);
    }
    var guard := if c.guard.Some? then Some(TimeField(c.guard.value)) else None;
    OptionalLays(NFSTIME3, guard);
    RecordLays([NFS_FH3, SATTR3, SATTRGUARD3], [Handle(c.file), NewField(c.attributes), Maybe(guard)]);
  }

  lemma AccessLays(c: Call)
    requires c.Access?
    ensures CallLaid(c)
  {
    HandleLays(c.file);
    WordsLay(c.access);
    RecordLays([NFS_FH3, UInt32], [Handle(c.file), U32(c.access)]);
  }

  lemma RangeLays(c: Call)
    requires c.Read? || c.Commit?
    ensures CallLaid(c)
  {
    HandleLays(c.file);
    WordsLay(c.offset);
    WordsLay(c.count);
    RecordLays([NFS_FH3, UHyper, UInt32], [Handle(c.file), U64(c.offset), U32(c.count)]);
  }

  lemma WriteLays(c: Call)
    requires c.Write?
    ensures CallLaid(c)
  {
    HandleLays(c.file);
    WordsLay(c.offset);
    WordsLay(c.count);
    SignedLays(c.stable);
    DataLays(c.data);
    RecordLays([NFS_FH3, UHyper, UInt32, Enum, Bytes(UNLIMITED)],
               [Handle(c.file), U64(c.offset), U32(c.count), Signed(c.stable), Data(c.data)]);
  }

  lemma CreateLays(c: Call)
    requires c.Create?
    ensures CallLaid(c)
  {
    PlaceLays(c.what);
    HowLays(c.how);
    RecordLays([DIROPARGS3, CREATEHOW3], [PlaceField(c.what), HowField(c.how)]);
  }

  lemma MkdirLays(c: Call)
    requires c.Mkdir?
    ensures CallLaid(c)
  {
    PlaceLays(c.what);
    NewLays(c.attributes);
    RecordLays([DIROPARGS3, SATTR3], [PlaceField(c.what), NewField(c.attributes)]);
  }

  lemma SymlinkLays(c: Call)
    requires c.Symlink?
    ensures CallLaid(c)
  {
    PlaceLays(c.what);
    NewLays(c.attributes);
    NameLays(c.target, UNLIMITED);
    RecordLays([SATTR3, FILENAME3], [NewField(c.attributes), Name(c.target)]);
    RecordLays([DIROPARGS3, Struct([SATTR3, FILENAME3])],
               [PlaceField(c.what), Fields([NewField(c.attributes), Name(c.target)])]);
  }

  lemma MknodLays(c: Call)
    requires c.Mknod? && PlainKind(c)
    ensures CallLaid(c)
  {
    PlaceLays(c.what);
    SpecialLays(c.special);
    RecordLays([DIROPARGS3, MKNODDATA3], [PlaceField(c.what), SpecialField(c.special)]);
  }

  lemma RenameLays(c: Call)
    requires c.Rename?
    ensures CallLaid(c)
  {
    PlaceLays(c.from);
    PlaceLays(c.to);
    RecordLays([DIROPARGS3, DIROPARGS3], [PlaceField(c.from), PlaceField(c.to)]);
  }

  lemma LinkLays(c: Call)
    requires c.Link?
    ensures CallLaid(c)
  {
    HandleLays(c.file);
    PlaceLays(c.link);
    RecordLays([NFS_FH3, DIROPARGS3], [Handle(c.file), PlaceField(c.link)]);
  }

  lemma ReaddirLays(c: Call)
    requires c.Readdir?
    ensures CallLaid(c)
  {
    HandleLays(c.dir);
    WordsLay(c.cookie);
    VerifierLays(c.verf);
    WordsLay(c.count);
    RecordLays([NFS_FH3, UHyper, VERF, UInt32], [Handle(c.dir), U64(c.cookie), Verifier(c.verf), U32(c.count)]);
  }

  lemma ReaddirplusLays(c: Call)
    requires c.Readdirplus?
    ensures CallLaid(c)
  {
    HandleLays(c.dir);
    WordsLay(c.cookie);
    VerifierLays(c.verf);
    WordsLay(c.dircount);
    WordsLay(c.maxcount);
    RecordLays([NFS_FH3, UHyper, VERF, UInt32, UInt32],
               [Handle(c.dir), U64(c.cookie), Verifier(c.verf), U32(c.dircount), U32(c.maxcount)]);
  }

  lemma MntLays(c: Call)
    requires c.Mnt?
    ensures CallLaid(c)
  {
    NameLays(c.path, 1024);
  }

  lemma CallLays(c: Call)
    requires PlainKind(c)
    ensures CallLaid(c)
  {
    match c
    case Setattr(_, _, _) => SetattrLays(c);
    case Access(_, _) => AccessLays(c);
    case Read(_, _, _) => RangeLays(c);
    case Commit(_, _, _) => RangeLays(c);
    case Write(_, _, _, _, _) => WriteLays(c);
    case Create(_, _) => CreateLays(c);
    case Mkdir(_, _) => MkdirLays(c);
    case Symlink(_, _, _) => SymlinkLays(c);
    case Mknod(_, _) => MknodLays(c);
    case Lookup(_) => PlaceCallLays(c);
    case Remove(_) => PlaceCallLays(c);
    case Rmdir(_) => PlaceCallLays(c);
    case Rename(_, _) => RenameLays(c);
    case Link(_, _) => LinkLays(c);
    case Readdir(_, _, _, _) => ReaddirLays(c);
    case Readdirplus(_, _, _, _, _) => ReaddirplusLays(c);
    case Mnt(_) => MntLays(c);
    case _ => HandleCallLays(c);
  }

  // ----- the replies -----

  /** The type of what follows the status 0. */
  function SuccessType(s: Success): Type {
    match s
    case Got(_) => FATTR3
    case Found(_, _, _) => Struct([NFS_FH3, POST_OP_ATTR, POST_OP_ATTR])
    case Accessible(_, _) => Struct([POST_OP_ATTR, UInt32])
    case Target(_, _) => Struct([POST_OP_ATTR, FILENAME3])
    case ReadData(_, _, _, _) => Struct([POST_OP_ATTR, UInt32, Bool, Bytes(UNLIMITED)])
    case Written(_, _, _, _) => Struct([WCC_DATA, UInt32, Enum, VERF])
    case Made(_, _, _, _) => NEWOBJECT
    case Renamed(_, _) => Struct([WCC_DATA, WCC_DATA])
    case Linked(_, _) => Struct([POST_OP_ATTR, WCC_DATA])
    case Entries(_, _, _, _) => Struct([POST_OP_ATTR, VERF, Struct([Chain(ENTRY3), Bool])])
    case EntriesPlus(_, _, _, _) => Struct([POST_OP_ATTR, VERF, Struct([Chain(ENTRYPLUS3), Bool])])
    case Status(_, _, _) => Struct([POST_OP_ATTR, UHyper, UHyper, UHyper, UHyper, UHyper, UHyper, UInt32])
    case Info(_, _, _, _, _) =>
      Struct([POST_OP_ATTR, UInt32, UInt32, UInt32, UInt32, UInt32, UInt32, UInt32, UHyper, NFSTIME3, UInt32])
    case Conf(_, _, _, _) => Struct([POST_OP_ATTR, UInt32, UInt32, Bool, Bool, Bool, Bool])
    case Committed(_, _) => Struct([WCC_DATA, VERF])
    case Mounted(_, _) => Struct([NFS_FH3, Array(Enum, UNLIMITED)])
    case _ => WCC_DATA
  }

  /** The type of what follows any other status. */
  function FailureType(f: Failure): Type {
    match f
    case NoMore => Unit
    case AttributesOnly(_) => POST_OP_ATTR
    case WccOnly(_) => WCC_DATA
    case BothDirs(_, _) => Struct([WCC_DATA, WCC_DATA])
    case LinkFailed(_, _) => Struct([POST_OP_ATTR, WCC_DATA])
  }

  /** A reply: a status that selects one of two types. */
  predicate IsReply(t: Type) {
    t.Union? && !t.boolean && t.arms.Case? && t.arms.on == 0 && t.arms.others.Default?
  }

  ghost predicate SuccessTyped(s: Success) {
    var t := TypeOf(SuccessMessage(s));
    IsReply(t) && t.arms.arm == SuccessType(s)
  }

  ghost predicate FailureTyped(m: Message, f: Failure) {
    IsReply(TypeOf(m)) && TypeOf(m).arms.others.otherwise == FailureType(f)
  }

  lemma FileSuccessTypes(s: Success)
    requires s.Got? || s.Setted? || s.Found? || s.Accessible?
    ensures SuccessTyped(s)
  {
  }

  lemma DataSuccessTypes(s: Success)
    requires s.Target? || s.ReadData? || s.Written? || s.Committed?
    ensures SuccessTyped(s)
  {
  }

  lemma MadeTypes(s: Success)
    requires Says(s) && s.Made?
    ensures SuccessTyped(s)
  {
  }

  lemma MovedTypes(s: Success)
    requires Says(s) && (s.Removed? || s.Renamed? || s.Linked?)
    ensures SuccessTyped(s)
  {
  }

  lemma ListSuccessTypes(s: Success)
    requires s.Entries? || s.EntriesPlus?
    ensures SuccessTyped(s)
  {
  }

  lemma SystemSuccessTypes(s: Success)
    requires s.Status? || s.Info?
    ensures SuccessTyped(s)
  {
  }

  lemma PathSuccessTypes(s: Success)
    requires s.Conf? || s.Mounted?
    ensures SuccessTyped(s)
  {
  }

  lemma SuccessTypes(s: Success)
    requires Says(s)
    ensures SuccessTyped(s)
  {
    if s.Got? || s.Setted? || s.Found? || s.Accessible? {
      FileSuccessTypes(s);
    } else if s.Target? || s.ReadData? || s.Written? || s.Committed? {
      DataSuccessTypes(s);
    } else if s.Made? {
      MadeTypes(s);
    } else if s.Removed? || s.Renamed? || s.Linked? {
      MovedTypes(s);
    } else if s.Entries? || s.EntriesPlus? {
      ListSuccessTypes(s);
    } else if s.Status? || s.Info? {
      SystemSuccessTypes(s);
    } else {
      PathSuccessTypes(s);
    }
  }

  lemma FileFailureTypes(m: Message, f: Failure)
    requires m in {GETATTR3res, SETATTR3res, LOOKUP3res, ACCESS3res, READLINK3res} && FailsWith(m, f)
    ensures FailureTyped(m, f)
  {
  }

  lemma MakeFailureTypes(m: Message, f: Failure)
    requires m in {READ3res, WRITE3res, CREATE3res, MKDIR3res, SYMLINK3res} && FailsWith(m, f)
    ensures FailureTyped(m, f)
  {
  }

  lemma NameFailureTypes(m: Message, f: Failure)
    requires m in {MKNOD3res, REMOVE3res, RMDIR3res} && FailsWith(m, f)
    ensures FailureTyped(m, f)
  {
  }

  lemma LinkFailureTypes(m: Message, f: Failure)
    requires m in {RENAME3res, LINK3res} && FailsWith(m, f)
    ensures FailureTyped(m, f)
  {
  }

  lemma ListFailureTypes(m: Message, f: Failure)
    requires m in {READDIR3res, READDIRPLUS3res} && FailsWith(m, f)
    ensures FailureTyped(m, f)
  {
  }

  lemma SystemFailureTypes(m: Message, f: Failure)
    requires m in {FSSTAT3res, FSINFO3res} && FailsWith(m, f)
    ensures FailureTyped(m, f)
  {
  }

  lemma PathFailureTypes(m: Message, f: Failure)
    requires m == PATHCONF3res && FailsWith(m, f)
    ensures FailureTyped(m, f)
  {
  }

  lemma OtherFailureTypes(m: Message, f: Failure)
    requires m in {COMMIT3res, Mountres3} && FailsWith(m, f)
    ensures FailureTyped(m, f)
  {
  }

  lemma FailureTypes(m: Message, f: Failure)
    requires FailsWith(m, f)
    ensures FailureTyped(m, f)
  {
    if m in {GETATTR3res, SETATTR3res, LOOKUP3res, ACCESS3res, READLINK3res} {
      FileFailureTypes(m, f);
    } else if m in {READ3res, WRITE3res, CREATE3res, MKDIR3res, SYMLINK3res} {
      MakeFailureTypes(m, f);
    } else if m in {MKNOD3res, REMOVE3res, RMDIR3res} {
      NameFailureTypes(m, f);
    } else if m in {RENAME3res, LINK3res} {
      LinkFailureTypes(m, f);
    } else if m in {READDIR3res, READDIRPLUS3res} {
      ListFailureTypes(m, f);
    } else if m in {FSSTAT3res, FSINFO3res} {
      SystemFailureTypes(m, f);
    } else if m == PATHCONF3res {
      PathFailureTypes(m, f);
    } else {
      OtherFailureTypes(m, f);
    }
  }

  ghost predicate SuccessLaid(s: Success) {
    Lays(SuccessType(s), SuccessField(s))
  }

  lemma GotLays(s: Success)
    requires s.Got?
    ensures SuccessLaid(s)
  {
    AttributesLay(s.attributes);
  }

  lemma ChangedLays(s: Success)
    requires s.Setted? || s.Removed?
    ensures SuccessLaid(s)
  {
    ChangeLays(s.wcc);
  }

  lemma FoundLays(s: Success)
    requires s.Found?
    ensures SuccessLaid(s)
  {
    HandleLays(s.file);
    AfterLays(s.attributesOf);
    AfterLays(s.ofDir);
    RecordLays([NFS_FH3, POST_OP_ATTR, POST_OP_ATTR], [Handle(s.file), After(s.attributesOf), After(s.ofDir)]);
  }

  lemma AccessibleLays(s: Success)
    requires s.Accessible?
    ensures SuccessLaid(s)
  {
    AfterLays(s.attributesOf);
    WordsLay(s.access);
    RecordLays([POST_OP_ATTR, UInt32], [After(s.attributesOf), U32(s.access)]);
  }

  lemma TargetLays(s: Success)
    requires s.Target?
    ensures SuccessLaid(s)
  {
    AfterLays(s.attributesOf);
    NameLays(s.path, UNLIMITED);
    RecordLays([POST_OP_ATTR, FILENAME3], [After(s.attributesOf), Name(s.path)]);
  }

  lemma ReadDataLays(s: Success)
    requires s.ReadData?
    ensures SuccessLaid(s)
  {
    AfterLays(s.attributesOf);
    WordsLay(s.count);
    FlagLays(s.eof);
    DataLays(s.data);
    RecordLays([POST_OP_ATTR, UInt32, Bool, Bytes(UNLIMITED)],
               [After(s.attributesOf), U32(s.count), Flag(s.eof), Data(s.data)]);
  }

  lemma WrittenLays(s: Success)
    requires s.Written?
    ensures SuccessLaid(s)
  {
    ChangeLays(s.wcc);
    WordsLay(s.count);
    SignedLays(s.committed);
    VerifierLays(s.verf);
    RecordLays([WCC_DATA, UInt32, Enum, VERF],
               [ChangeField(s.wcc), U32(s.count), Signed(s.committed), Verifier(s.verf)]);
  }

  lemma MadeLays(s: Success)
    requires s.Made?
    ensures SuccessLaid(s)
  {
    HandleGivenLays(s.handle);
    AfterLays(s.attributesOf);
    ChangeLays(s.wcc);
    RecordLays([POST_OP_FH3, POST_OP_ATTR, WCC_DATA],
               [HandleGiven(s.handle), After(s.attributesOf), ChangeField(s.wcc)]);
  }

  lemma BothDirsLay(from: Change, to: Change)
    ensures Lays(Struct([WCC_DATA, WCC_DATA]), Fields([ChangeField(from), ChangeField(to)]))
  {
    ChangeLays(from);
    ChangeLays(to);
    RecordLays([WCC_DATA, WCC_DATA], [ChangeField(from), ChangeField(to)]);
  }

  lemma FileAndDirLay(a: Option<Attributes>, wcc: Change)
    ensures Lays(Struct([POST_OP_ATTR, WCC_DATA]), Fields([After(a), ChangeField(wcc)]))
  {
    AfterLays(a);
    ChangeLays(wcc);
    RecordLays([POST_OP_ATTR, WCC_DATA], [After(a), ChangeField(wcc)]);
  }

  lemma MovedLays(s: Success)
    requires s.Renamed? || s.Linked?
    ensures SuccessLaid(s)
  {
    if s.Renamed? {
      BothDirsLay(s.fromdir, s.todir);
    } else {
      FileAndDirLay(s.attributesOf, s.wcc);
    }
  }

  lemma EntryLays(e: Entry)
    ensures Lays(ENTRY3, EntryField(e))
  {
    WordsLay(e.fileid);
    NameLays(e.name, UNLIMITED);
    WordsLay(e.cookie);
    RecordLays([UHyper, FILENAME3, UHyper], [U64(e.fileid), Name(e.name), U64(e.cookie)]);
  }

  lemma EntryPlusLays(e: EntryPlus)
    ensures Lays(ENTRYPLUS3, EntryPlusField(e))
  {
    WordsLay(e.fileid);
    NameLays(e.name, UNLIMITED);
    WordsLay(e.cookie);
    AfterLays(e.attributes);
    HandleGivenLays(e.handle);
    RecordLays([UHyper, FILENAME3, UHyper, POST_OP_ATTR, POST_OP_FH3],
               [U64(e.fileid), Name(e.name), U64(e.cookie), After(e.attributes), HandleGiven(e.handle)]);
  }

  lemma DirectoryLays(t: Type, a: Option<Attributes>, verf: seq<Byte>, entries: seq<Field>, eof: bool)
    requires AllLay(t, entries)
    ensures Lays(Struct([POST_OP_ATTR, VERF, Struct([Chain(t), Bool])]), DirectoryField(a, verf, entries, eof))
  {
    AfterLays(a);
    VerifierLays(verf);
    ListLays(t, entries);
    FlagLays(eof);
    RecordLays([Chain(t), Bool], [Listed(entries), Flag(eof)]);
    RecordLays([POST_OP_ATTR, VERF, Struct([Chain(t), Bool])],
               [After(a), Verifier(verf), Fields([Listed(entries), Flag(eof)])]);
  }

  lemma EntriesLay(s: Success)
    requires s.Entries?
    ensures SuccessLaid(s)
  {
    forall i | 0 <= i < |s.entries|
      ensures Lays(ENTRY3, EntryFields(s.entries)[i])
    {
      EntryLays(s.entries[i]);
    }
    DirectoryLays(ENTRY3, s.attributesOf, s.cookieverf, EntryFields(s.entries), s.eof);
  }

  lemma EntriesPlusLay(s: Success)
    requires s.EntriesPlus?
    ensures SuccessLaid(s)
  {
    forall i | 0 <= i < |s.entriesPlus|
      ensures Lays(ENTRYPLUS3, EntryPlusFields(s.entriesPlus)[i])
    {
      EntryPlusLays(s.entriesPlus[i]);
    }
    DirectoryLays(ENTRYPLUS3, s.attributesOf, s.cookieverf, EntryPlusFields(s.entriesPlus), s.eof);
  }

  lemma StatusLays(s: Success)
    requires s.Status?
    ensures SuccessLaid(s)
  {
    var sp := s.space;
    AfterLays(s.attributesOf);
    WordsLay(sp.tbytes);
    WordsLay(sp.fbytes);
    WordsLay(sp.abytes);
    WordsLay(sp.tfiles);
    WordsLay(sp.ffiles);
    WordsLay(sp.afiles);
    WordsLay(s.invarsec);
    RecordLays([POST_OP_ATTR, UHyper, UHyper, UHyper, UHyper, UHyper, UHyper, UInt32],
               [After(s.attributesOf), U64(sp.tbytes), U64(sp.fbytes), U64(sp.abytes), U64(sp.tfiles),
                U64(sp.ffiles), U64(sp.afiles), U32(s.invarsec)]);
  }

  lemma InfoLays(s: Success)
    requires s.Info?
    ensures SuccessLaid(s)
  {
    var n := s.sizes;
    AfterLays(s.attributesOf);
    WordsLay(n.rtmax);
    WordsLay(n.rtpref);
    WordsLay(n.rtmult);
    WordsLay(n.wtmax);
    WordsLay(n.wtpref);
    WordsLay(n.wtmult);
    WordsLay(n.dtpref);
    WordsLay(s.maxfilesize);
    TimeLays(s.delta);
    WordsLay(s.properties);
    RecordLays([POST_OP_ATTR, UInt32, UInt32, UInt32, UInt32, UInt32, UInt32, UInt32, UHyper, NFSTIME3, UInt32],
               [After(s.attributesOf), U32(n.rtmax), U32(n.rtpref), U32(n.rtmult), U32(n.wtmax), U32(n.wtpref),
                U32(n.wtmult), U32(n.dtpref), U64(s.maxfilesize), TimeField(s.delta), U32(s.properties)]);
  }

  lemma ConfLays(s: Success)
    requires s.Conf?
    ensures SuccessLaid(s)
  {
    var t := s.traits;
    AfterLays(s.attributesOf);
    WordsLay(s.linkmax);
    WordsLay(s.nameMax);
    FlagLays(t.noTrunc);
    FlagLays(t.chownRestricted);
    FlagLays(t.caseInsensitive);
    FlagLays(t.casePreserving);
    RecordLays([POST_OP_ATTR, UInt32, UInt32, Bool, Bool, Bool, Bool],
               [After(s.attributesOf), U32(s.linkmax), U32(s.nameMax), Flag(t.noTrunc), Flag(t.chownRestricted),
                Flag(t.caseInsensitive), Flag(t.casePreserving)]);
  }

  lemma CommittedLays(s: Success)
    requires s.Committed?
    ensures SuccessLaid(s)
  {
    ChangeLays(s.wcc);
    VerifierLays(s.verf);
    RecordLays([WCC_DATA, VERF], [ChangeField(s.wcc), Verifier(s.verf)]);
  }

  lemma MountedLays(s: Success)
    requires s.Mounted?
    ensures SuccessLaid(s)
  {
    HandleLays(s.fhandle);
    var fs := SignedFields(s.flavors);
    forall i | 0 <= i < |fs|
      ensures Lays(Enum, fs[i])
    {
      SignedLays(s.flavors[i]);
    }
    ArrayLays(Enum, fs);
    RecordLays([NFS_FH3, Array(Enum, UNLIMITED)], [Handle(s.fhandle), Arrayed(fs)]);
  }

  lemma SuccessLays(s: Success)
    ensures SuccessLaid(s)
  {
    match s
    case Got(_) => GotLays(s);
    case Setted(_) => ChangedLays(s);
    case Removed(_, _) => ChangedLays(s);
    case Found(_, _, _) => FoundLays(s);
    case Accessible(_, _) => AccessibleLays(s);
    case Target(_, _) => TargetLays(s);
    case ReadData(_, _, _, _) => ReadDataLays(s);
    case Written(_, _, _, _) => WrittenLays(s);
    case Made(_, _, _, _) => MadeLays(s);
    case Renamed(_, _) => MovedLays(s);
    case Linked(_, _) => MovedLays(s);
    case Entries(_, _, _, _) => EntriesLay(s);
    case EntriesPlus(_, _, _, _) => EntriesPlusLay(s);
    case Status(_, _, _) => StatusLays(s);
    case Info(_, _, _, _, _) => InfoLays(s);
    case Conf(_, _, _, _) => ConfLays(s);
    case Committed(_, _) => CommittedLays(s);
    case Mounted(_, _) => MountedLays(s);
  }

  lemma FailureLays(f: Failure)
    ensures Lays(FailureType(f), FailureField(f))
  {
    match f
    case NoMore => EmptyLays();
    case AttributesOnly(a) => AfterLays(a);
    case WccOnly(wcc) => ChangeLays(wcc);
    case BothDirs(from, to) => BothDirsLay(from, to);
    case LinkFailed(a, wcc) => FileAndDirLay(a, wcc);
  }

  /** The status selects what follows it. */
  lemma ReplyLays(t: Type, good: Type, bad: Type, status: int, f: Field)
    requires IsReply(t) && t.arms.arm == good && t.arms.others.otherwise == bad
    requires Lays(if status == 0 then good else bad, f)
    ensures Lays(t, Selected(status, f))
  {
    ResultLays(good, bad, status, f);
    assert t == Result(good, bad);
  }

  lemma MountsLay(ms: seq<Mount>)
    ensures Lays(Chain(Struct([NAME3, DIRPATH3])), Listed(MountFields(ms)))
  {
    forall i | 0 <= i < |ms|
      ensures Lays(Struct([NAME3, DIRPATH3]), MountFields(ms)[i])
    {
      NameLays(ms[i].hostname, 255);
      NameLays(ms[i].directory, 1024);
      RecordLays([NAME3, DIRPATH3], [Name(ms[i].hostname, 255), Name(ms[i].directory, 1024)]);
    }
    ListLays(Struct([NAME3, DIRPATH3]), MountFields(ms));
  }

  lemma ExportLays(e: Export)
    ensures Lays(Struct([DIRPATH3, GROUPS3]), ExportField(e))
  {
    NameLays(e.dir, 1024);
    var groups := NameFields(e.groups);
    forall i | 0 <= i < |groups|
      ensures Lays(NAME3, groups[i])
    {
      NameLays(e.groups[i], 255);
    }
    ListLays(NAME3, groups);
    RecordLays([DIRPATH3, GROUPS3], [Name(e.dir, 1024), Listed(groups)]);
  }

  lemma ExportsLay(es: seq<Export>)
    ensures Lays(Chain(Struct([DIRPATH3, GROUPS3])), Listed(ExportFields(es)))
  {
    forall i | 0 <= i < |es|
      ensures Lays(Struct([DIRPATH3, GROUPS3]), ExportFields(es)[i])
    {
      ExportLays(es[i]);
    }
    ListLays(Struct([DIRPATH3, GROUPS3]), ExportFields(es));
  }

  lemma ListTypes()
    ensures TypeOf(Mountlist3) == Chain(Struct([NAME3, DIRPATH3]))
    ensures TypeOf(Exports3) == Chain(Struct([DIRPATH3, GROUPS3]))
  {
  }

  // ----- every message of the two protocols -----

  /** A message that is written as the field says, and from whose bytes the field's meaning is read,
      whatever follows; a field that is out of range is neither written nor read. */
  ghost predicate OnWire(m: Message, f: Field) {
    && Lays(TypeOf(m), f)
    && (f.ok ==> forall rest {:trigger f.bytes + rest} :: Decode(TypeOf(m), f.bytes + rest) == Some((f.v, rest)))
    && (!f.ok ==> forall b {:trigger Decode(TypeOf(m), b)} ::
         Decode(TypeOf(m), b).Some? ==>
           Decode(TypeOf(m), b).value.0 != f.v)
  }

  lemma LaidOut(m: Message, f: Field)
    requires Lays(TypeOf(m), f)
    ensures OnWire(m, f)
  {
    var t := TypeOf(m);
    if f.ok {
      forall rest
        ensures Decode(t, f.bytes + rest) == Some((f.v, rest))
      {
        RoundTrip(t, f.v, rest);
      }
    } else {
      forall b | Decode(t, b).Some?
        ensures Decode(t, b).value.0 != f.v
      {
        DecodedFits(t, b);
      }
    }
  }

  /** The arguments of every procedure. */
  lemma CallOnWire(c: Call)
    requires PlainKind(c)
    ensures OnWire(CallMessage(c), CallField(c))
  {
    CallLays(c);
    CallTypes(c);
    LaidOut(CallMessage(c), CallField(c));
  }

  /** The reply of every procedure that succeeds: status 0 and the fields of its success. */
  lemma SuccessOnWire(s: Success)
    requires Says(s)
    ensures OnWire(SuccessMessage(s), Selected(0, SuccessField(s)))
  {
    var t := TypeOf(SuccessMessage(s));
    SuccessTypes(s);
    SuccessLays(s);
    ReplyLays(t, SuccessType(s), t.arms.others.otherwise, 0, SuccessField(s));
    LaidOut(SuccessMessage(s), Selected(0, SuccessField(s)));
  }

  /** The reply of every procedure that fails: any other status and the fields of its failure. */
  lemma FailureOnWire(m: Message, status: int, f: Failure)
    requires FailsWith(m, f) && status != 0
    ensures OnWire(m, Selected(status, FailureField(f)))
  {
    FailureTypes(m, f);
    FailureLays(f);
    ReplyLays(TypeOf(m), TypeOf(m).arms.arm, FailureType(f), status, FailureField(f));
    LaidOut(m, Selected(status, FailureField(f)));
  }

  /** The lists of mounts and of exports. */
  lemma ListsOnWire(ms: seq<Mount>, es: seq<Export>)
    ensures OnWire(Mountlist3, Listed(MountFields(ms)))
    ensures OnWire(Exports3, Listed(ExportFields(es)))
  {
    ListTypes();
    MountsLay(ms);
    LaidOut(Mountlist3, Listed(MountFields(ms)));
    ExportsLay(es);
    LaidOut(Exports3, Listed(ExportFields(es)));
  }

  /** A CREATE whose mode is none of the three is not read. */
  lemma OtherModes(mode: int, rest: seq<Byte>)
    requires Signed32(mode) && mode !in {0, 1, 2}
    ensures Decode(CREATEHOW3, Signed(mode).bytes + rest) == None
  {
    EnumRead(mode, rest);
    assert Arm(Case(2, VERF, Nothing), mode) == None;
    assert Arm(Case(1, SATTR3, Case(2, VERF, Nothing)), mode) == None;
  }
}
