/** The types of nfs/rpc_nfs3_prot.h as nfs/rpc_nfs3_prot_xdr.c writes and reads them, function by
    function. The one function that has a path of its own, `xdr_PATHCONF3resok`, is in XdrPathconf. */
module XdrMessages {
  import opened Text
  import opened Xdr
  import opened XdrLaws

  function Struct(ts: seq<Type>): Type {
    if ts == [] then Unit else Pair(ts[0], Struct(ts[1..]))
  }

  const NFS3_FHSIZE := 64
  const VERFSIZE := 8
  const MNTPATHLEN3 := 1024
  const MNTNAMLEN3 := 255
  const UNLIMITED := 0xFFFF_FFFF

  // ----- basic types -----

  const FILENAME3 := CString(UNLIMITED)
  const NFS_FH3 := Bytes(NFS3_FHSIZE)
  const NFSTIME3 := Struct([UInt32, UInt32])
  const SPECDATA3 := Struct([UInt32, UInt32])
  const VERF := Opaque(VERFSIZE)
  const FATTR3 := Struct([Enum, UInt32, UInt32, UInt32, UInt32, UHyper, UHyper, SPECDATA3, UHyper, UHyper,
                          NFSTIME3, NFSTIME3, NFSTIME3])

  /** `switch` over a boolean with both cases, nothing else accepted. */
  function Optional(t: Type): Type {
    Union(true, Case(1, t, Case(0, Unit, Nothing)))
  }

  /** `switch` over a boolean with one case and `default: break`. */
  function WhenSet(t: Type): Type {
    Union(true, Case(1, t, Default(Unit)))
  }

  const POST_OP_ATTR := Optional(FATTR3)
  const WCC_ATTR := Struct([UHyper, NFSTIME3, NFSTIME3])
  const PRE_OP_ATTR := Optional(WCC_ATTR)
  const WCC_DATA := Struct([PRE_OP_ATTR, POST_OP_ATTR])
  const POST_OP_FH3 := Optional(NFS_FH3)
  const SET_TIME := Union(false, Case(2, NFSTIME3, Default(Unit)))
  const SATTR3 := Struct([WhenSet(UInt32), WhenSet(UInt32), WhenSet(UInt32), WhenSet(UHyper), SET_TIME, SET_TIME])
  const DIROPARGS3 := Struct([NFS_FH3, FILENAME3])

  /** `NFS3_OK` selects the first, any other status the second. */
  function Result(ok: Type, fail: Type): Type {
    Union(false, Case(0, ok, Default(fail)))
  }

  const SATTRGUARD3 := Optional(NFSTIME3)
  const CREATEHOW3 := Union(false, Case(0, SATTR3, Case(1, SATTR3, Case(2, VERF, Nothing))))
  const DEVICEDATA3 := Struct([SATTR3, SPECDATA3])
  const MKNODDATA3 := Union(false, Case(4, DEVICEDATA3,
        Case(3, DEVICEDATA3, Case(6, SATTR3, Case(7, SATTR3, Default(Unit))))))
  const NEWOBJECT := Struct([POST_OP_FH3, POST_OP_ATTR, WCC_DATA])
  const ENTRY3 := Struct([UHyper, FILENAME3, UHyper])
  const ENTRYPLUS3 := Struct([UHyper, FILENAME3, UHyper, POST_OP_ATTR, POST_OP_FH3])
  const PATHCONF3RESOK := Struct([POST_OP_ATTR, UInt32, UInt32, Bool, Bool, Bool, Bool])
  const NAME3 := CString(MNTNAMLEN3)
  const DIRPATH3 := CString(MNTPATHLEN3)
  const GROUPS3 := Chain(NAME3)

  // ----- messages -----

  datatype Message =
    | GETATTR3args | GETATTR3res | SETATTR3args | SETATTR3res | LOOKUP3args | LOOKUP3res
    | ACCESS3args | ACCESS3res | READLINK3args | READLINK3res | READ3args | READ3res
    | WRITE3args | WRITE3res | CREATE3args | CREATE3res | MKDIR3args | MKDIR3res
    | SYMLINK3args | SYMLINK3res | MKNOD3args | MKNOD3res | REMOVE3args | REMOVE3res
    | RMDIR3args | RMDIR3res | RENAME3args | RENAME3res | LINK3args | LINK3res
    | READDIR3args | READDIR3res | READDIRPLUS3args | READDIRPLUS3res | FSSTAT3args | FSSTAT3res
    | FSINFO3args | FSINFO3res | PATHCONF3args | PATHCONF3res | COMMIT3args | COMMIT3res
    | Dirpath3 | Mountres3 | Mountlist3 | Exports3

  function TypeOf(m: Message): Type {
    match m
    case GETATTR3args => NFS_FH3
    case GETATTR3res => Result(FATTR3, Unit)
    case SETATTR3args => Struct([NFS_FH3, SATTR3, SATTRGUARD3])
    case SETATTR3res => Result(WCC_DATA, WCC_DATA)
    case LOOKUP3args => DIROPARGS3
    case LOOKUP3res => Result(Struct([NFS_FH3, POST_OP_ATTR, POST_OP_ATTR]), POST_OP_ATTR)
    case ACCESS3args => Struct([NFS_FH3, UInt32])
    case ACCESS3res => Result(Struct([POST_OP_ATTR, UInt32]), POST_OP_ATTR)
    case READLINK3args => NFS_FH3
    case READLINK3res => Result(Struct([POST_OP_ATTR, FILENAME3]), POST_OP_ATTR)
    case READ3args => Struct([NFS_FH3, UHyper, UInt32])
    case READ3res => Result(Struct([POST_OP_ATTR, UInt32, Bool, Bytes(UNLIMITED)]), POST_OP_ATTR)
    case WRITE3args => Struct([NFS_FH3, UHyper, UInt32, Enum, Bytes(UNLIMITED)])
    case WRITE3res => Result(Struct([WCC_DATA, UInt32, Enum, VERF]), WCC_DATA)
    case CREATE3args => Struct([DIROPARGS3, CREATEHOW3])
    case CREATE3res => Result(NEWOBJECT, WCC_DATA)
    case MKDIR3args => Struct([DIROPARGS3, SATTR3])
    case MKDIR3res => Result(NEWOBJECT, WCC_DATA)
    case SYMLINK3args => Struct([DIROPARGS3, Struct([SATTR3, FILENAME3])])
    case SYMLINK3res => Result(NEWOBJECT, WCC_DATA)
    case MKNOD3args => Struct([DIROPARGS3, MKNODDATA3])
    case MKNOD3res => Result(NEWOBJECT, WCC_DATA)
    case REMOVE3args => DIROPARGS3
    case REMOVE3res => Result(WCC_DATA, WCC_DATA)
    case RMDIR3args => DIROPARGS3
    case RMDIR3res => Result(WCC_DATA, WCC_DATA)
    case RENAME3args => Struct([DIROPARGS3, DIROPARGS3])
    case RENAME3res => Result(Struct([WCC_DATA, WCC_DATA]), Struct([WCC_DATA, WCC_DATA]))
    case LINK3args => Struct([NFS_FH3, DIROPARGS3])
    case LINK3res => Result(Struct([POST_OP_ATTR, WCC_DATA]), Struct([POST_OP_ATTR, WCC_DATA]))
    case READDIR3args => Struct([NFS_FH3, UHyper, VERF, UInt32])
    case READDIR3res => Result(Struct([POST_OP_ATTR, VERF, Struct([Chain(ENTRY3), Bool])]), POST_OP_ATTR)
    case READDIRPLUS3args => Struct([NFS_FH3, UHyper, VERF, UInt32, UInt32])
    case READDIRPLUS3res => Result(Struct([POST_OP_ATTR, VERF, Struct([Chain(ENTRYPLUS3), Bool])]), POST_OP_ATTR)
    case FSSTAT3args => NFS_FH3
    case FSSTAT3res => Result(Struct([POST_OP_ATTR, UHyper, UHyper, UHyper, UHyper, UHyper, UHyper, UInt32]),
          POST_OP_ATTR)
    case FSINFO3args => NFS_FH3
    case FSINFO3res => Result(Struct([POST_OP_ATTR, UInt32, UInt32, UInt32, UInt32, UInt32, UInt32, UInt32, UHyper,
          NFSTIME3, UInt32]), POST_OP_ATTR)
    case PATHCONF3args => NFS_FH3
    case PATHCONF3res => Result(PATHCONF3RESOK, POST_OP_ATTR)
    case COMMIT3args => Struct([NFS_FH3, UHyper, UInt32])
    case COMMIT3res => Result(Struct([WCC_DATA, VERF]), WCC_DATA)
    case Dirpath3 => DIRPATH3
    case Mountres3 => Union(false, Case(0, Struct([NFS_FH3, Array(Enum, UNLIMITED)]), Default(Unit)))
    case Mountlist3 => Chain(Struct([NAME3, DIRPATH3]))
    case Exports3 => Chain(Struct([DIRPATH3, GROUPS3]))
  }

  /** Every message of the two protocols: what is written is read back, whatever follows it, and it
      takes a multiple of four bytes. */
  lemma MessageRoundTrip(m: Message, v: Value, rest: seq<Byte>)
    requires Fits(TypeOf(m), v)
    ensures Decode(TypeOf(m), Encode(TypeOf(m), v) + rest) == Some((v, rest))
    ensures |Encode(TypeOf(m), v)| % 4 == 0
  {
    RoundTrip(TypeOf(m), v, rest);
    FourBytes(TypeOf(m), v);
  }
}
