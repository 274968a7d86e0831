/** Contents of files on the server, as READ and WRITE (sections 3.3.6 and 3.3.7 of RFC 1813)
    see them, and what a server may answer. */
module NfsFiles {
  type Data = seq<char>

  const ZERO := '\0'

  function Zeros(n: nat): (z: Data)
    ensures |z| == n
  {
    seq(n, i => ZERO)
  }

  /** WRITE: overwrites from `offset` on; a gap before it reads as zeros. */
  function WriteAt(file: Data, offset: nat, data: Data): (r: Data)
    ensures |r| >= offset + |data| && r[offset..offset + |data|] == data
    ensures offset <= |file| ==> r[..offset] == file[..offset]
    ensures offset == |file| ==> r == file + data
  {
    if offset > |file| then file + Zeros(offset - |file|) + data
    else file[..offset] + data + if offset + |data| < |file| then file[offset + |data|..] else []
  }

  /** READ: at most `count` bytes from `offset` on, at least one before the end of the file; the
      server chooses how many. */
  function ReadAt(file: Data, offset: nat, count: nat, wish: nat): (r: Data)
    ensures |r| <= count
    ensures offset <= |file| ==> offset + |r| <= |file| && r == file[offset..offset + |r|]
    ensures |r| == 0 <==> offset >= |file| || count == 0
  {
    if offset >= |file| || count == 0 then []
    else
      var most := if count < |file| - offset then count else |file| - offset;
      var n := if wish < 1 then 1 else if wish > most then most else wish;
      file[offset..offset + n]
  }

  /** How the next remote call goes: whether it is answered, whether it is carried out all the
      same if not, and the number of bytes the server prefers. */
  datatype Answer = Answer(answered: bool, done: bool, wish: nat)
}
