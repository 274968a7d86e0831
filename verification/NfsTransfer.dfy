/** Uploading by WRITE calls that may store less than asked, and listing by READDIR pages
    (nfs/nfsv3.cpp:849-944, 468-534). */
module NfsTransfer {
  import opened NfsFiles

  // ----- upload -----

  const TWO_GIB := 0x8000_0000

  /** Longer than any file supplied. */
  const FAR := 0x8000_0000_0000_0000

  /** `bytesWritten` is an `int`: 32 bits, wrapping. */
  function Int32(n: int): int {
    (n + 0x8000_0000) % 0x1_0000_0000 - 0x8000_0000
  }

  /** An `int` assigned to the 64-bit unsigned offset. */
  function Offset64(n: int): int {
    n % 0x1_0000_0000_0000_0000
  }

  /** What `readData` delivers up to its end: everything before the first empty buffer. */
  function Supplied(buffers: seq<Data>): Data {
    if buffers == [] || buffers[0] == [] then [] else buffers[0] + Supplied(buffers[1..])
  }

  /** The file on the server that is being written. */
  class Upload {
    var file: Data
    /** For every WRITE how many bytes the server prefers to take; it takes one at least. */
    var wishes: seq<nat>

    method Write(offset: nat, data: Data) returns (count: nat)
      requires data != []
      modifies this
      ensures 1 <= count <= |data|
      ensures file == WriteAt(old(file), offset, data[..count])
    {
      count := if wishes == [] || wishes[0] > |data| then |data| else if wishes[0] == 0 then 1 else wishes[0];
      wishes := if wishes == [] then [] else wishes[1..];
      file := WriteAt(file, offset, data[..count]);
    }

    /** One buffer, by as many WRITEs as it takes (nfs/nfsv3.cpp:909-936). */
    method PutBuffer(buffer: Data, writeBufferSize: nat, ghost before: Data, ghost start: nat, from: int)
      returns (bytesWritten: int, ghost last: nat)
      requires 0 < writeBufferSize && |buffer| < TWO_GIB && from == Int32(|before|)
      requires Went(file, before, start, writeBufferSize)
      modifies this
      ensures Went(file, before + buffer, last, writeBufferSize) && bytesWritten == Int32(|before + buffer|)
      ensures (buffer == [] && last == start) || |before| <= last < |before + buffer|
    {
      bytesWritten, last := from, start;
      var data, offset := buffer, Offset64(from);
      ghost var done := before;
      while data != []
        invariant before + buffer == done + data && |data| < TWO_GIB
        invariant bytesWritten == Int32(|done|) && offset == Offset64(bytesWritten)
        invariant Went(file, done, last, writeBufferSize)
        invariant (done == before && last == start) || |before| <= last < |done|
        decreases |data|
      {
        var writeNow := if |data| > writeBufferSize then writeBufferSize else |data|;
        ghost var was := file;
        var count := Write(offset, data[..writeNow]);
        Shifted(done, data, writeNow, count);
        GoesOn(was, done, last, data[..writeNow][..count], file, writeBufferSize);
        last, done := |done|, done + data[..writeNow][..count];
        bytesWritten := Int32(bytesWritten + count);
        offset := Offset64(bytesWritten);
        data := data[count..];
      }
      assert done == before + buffer;
    }

    /** nfs/nfsv3.cpp:897-941, for a file that `create` has just emptied. It ends as what was
        supplied exactly if the last WRITE, of at most `writeBufferSize` bytes, begins below 2 GiB. */
    method Put(buffers: seq<Data>, writeBufferSize: nat) returns (ghost last: nat)
      requires 0 < writeBufferSize && file == [] && |Supplied(buffers)| < FAR
      requires forall i :: 0 <= i < |buffers| ==> |buffers[i]| < TWO_GIB
      modifies this
      ensures file == Supplied(buffers) <==> last < TWO_GIB
      ensures if Supplied(buffers) == [] then last == 0 else last < |Supplied(buffers)| <= last + writeBufferSize
    {
      var bytesWritten := 0;
      var i := 0;
      ghost var done: Data := [];
      last := 0;
      while i < |buffers| && buffers[i] != []
        invariant i <= |buffers| && Supplied(buffers) == done + Supplied(buffers[i..])
        invariant bytesWritten == Int32(|done|) && Went(file, done, last, writeBufferSize)
        invariant (done == [] && last == 0) || last < |done|
        decreases |buffers| - i
      {
        SuppliedStep(buffers, i);
        ghost var was := done;
        done := done + buffers[i];
        bytesWritten, last := PutBuffer(buffers[i], writeBufferSize, was, last, bytesWritten);
        assert was + (buffers[i] + Supplied(buffers[i + 1..])) == done + Supplied(buffers[i + 1..]);
        i := i + 1;
      }
      assert Supplied(buffers[i..]) == [];
    }
  }

  /** After `done`, whose last WRITE began at `last`: all is in place while the offset was right, and
      the file is far too long once it was not. */
  ghost predicate Went(file: Data, done: Data, last: nat, most: nat) {
    && last <= |done| <= last + most && |done| < last + TWO_GIB
    && if last < TWO_GIB then file == done else |file| >= FAR
  }

  lemma Shifted(file: Data, data: Data, writeNow: nat, count: nat)
    requires count <= writeNow <= |data|
    ensures file + data == file + data[..writeNow][..count] + data[count..]
  {
  }

  /** A write never shortens a file, and reaches at least as far as it goes. */
  lemma WriteReaches(file: Data, offset: nat, data: Data)
    ensures |WriteAt(file, offset, data)| >= |file| && |WriteAt(file, offset, data)| >= offset + |data|
  {
  }

  lemma Int32Adds(a: int, b: int)
    ensures Int32(Int32(a) + b) == Int32(a + b)
  {
  }

  /** The offset is right below 2 GiB and beyond every file from there to 4 GiB. */
  lemma OffsetOf(written: nat)
    ensures written < TWO_GIB ==> Offset64(Int32(written)) == written
    ensures TWO_GIB <= written < 2 * TWO_GIB ==> Offset64(Int32(written)) >= FAR
  {
  }

  lemma GoesOn(was: Data, done: Data, last: nat, data: Data, file: Data, most: nat)
    requires data != [] && |data| < TWO_GIB && |data| <= most && file == WriteAt(was, Offset64(Int32(|done|)), data)
    requires Went(was, done, last, most)
    ensures Went(file, done + data, |done|, most) && Int32(|done + data|) == Int32(Int32(|done|) + |data|)
  {
    OffsetOf(|done|);
    Int32Adds(|done|, |data|);
    WriteReaches(was, Offset64(Int32(|done|)), data);
  }

  lemma SuppliedStep(buffers: seq<Data>, i: nat)
    requires i < |buffers| && buffers[i] != []
    ensures Supplied(buffers[i..]) == buffers[i] + Supplied(buffers[i + 1..])
  {
    assert buffers[i..][1..] == buffers[i + 1..];
  }

  /** The offset is right exactly while less than 2 GiB were written. */
  lemma OffsetExactlyBelow2GiB(written: nat)
    requires written < 0x8000_0000_0000_0000
    ensures Offset64(Int32(written)) == written <==> written < 0x8000_0000
  {
  }

  // ----- listing -----

  datatype Entry3 = Entry3(name: string, cookie: nat)

  datatype Page = Page(entries: seq<Entry3>, eof: bool)

  /** Cookies are distinct and not 0, which asks for the beginning. */
  ghost predicate Listable(entries: seq<Entry3>) {
    && (forall i :: 0 <= i < |entries| ==> entries[i].cookie != 0)
    && forall i, j :: 0 <= i < j < |entries| ==> entries[i].cookie != entries[j].cookie
  }

  /** Where the entries after a cookie start. */
  function After(entries: seq<Entry3>, cookie: nat): (n: nat)
    ensures n <= |entries|
  {
    if cookie == 0 || entries == [] then 0
    else if entries[0].cookie == cookie then 1
    else 1 + After(entries[1..], cookie)
  }

  lemma {:induction false} AfterFinds(entries: seq<Entry3>, i: nat)
    requires Listable(entries) && i < |entries|
    ensures After(entries, entries[i].cookie) == i + 1
  {
    if i > 0 {
      AfterFinds(entries[1..], i - 1);
    }
  }

  /** READDIR (section 3.3.16 of RFC 1813): the entries after the cookie, at least one if there are
      any, and the end of the list told at the latest by an empty page. */
  function ReadDir(entries: seq<Entry3>, cookie: nat, wish: nat, tellEnd: bool): Page {
    var from := After(entries, cookie);
    var left := |entries| - from;
    var n := if wish > left then left else if wish == 0 && left > 0 then 1 else wish;
    Page(entries[from..from + n], from + n == |entries| && (tellEnd || n == 0))
  }

  /** `page` is what stands in `whole` from `got` on. */
  ghost predicate Follows(whole: seq<Entry3>, got: nat, page: seq<Entry3>) {
    got + |page| <= |whole| && forall i :: 0 <= i < |page| ==> page[i] == whole[got + i]
  }

  /** The cookie to go on with after `got` entries. */
  function CookieAfter(entries: seq<Entry3>, got: nat): nat
    requires got <= |entries|
  {
    if got == 0 then 0 else entries[got - 1].cookie
  }

  lemma PageFollows(entries: seq<Entry3>, got: nat, wish: nat, tellEnd: bool)
    requires Listable(entries) && got <= |entries|
    ensures var page := ReadDir(entries, CookieAfter(entries, got), wish, tellEnd);
            && Follows(entries, got, page.entries)
            && (page.eof ==> got + |page.entries| == |entries|) && (page.entries == [] ==> page.eof)
  {
    if got > 0 {
      AfterFinds(entries, got - 1);
    }
  }

  /** The names to list: all but the parent directory. */
  function Listed(entries: seq<Entry3>): seq<string> {
    if entries == [] then []
    else Listed(entries[..|entries| - 1]) +
         if entries[|entries| - 1].name != ".." then [entries[|entries| - 1].name] else []
  }

  lemma {:induction false} ListedAppend(a: seq<Entry3>, b: seq<Entry3>)
    ensures Listed(a + b) == Listed(a) + Listed(b)
  {
    if b == [] {
      assert a + b == a;
    } else {
      assert (a + b)[..|a + b| - 1] == a + b[..|b| - 1];
      ListedAppend(a, b[..|b| - 1]);
    }
  }

  /** `Listed` keeps order, drops ".." and nothing else. */
  lemma {:induction false} ListedMeans(entries: seq<Entry3>, name: string)
    ensures ".." !in Listed(entries)
    ensures name != ".." ==> Count(Listed(entries), name) == CountNames(entries, name)
  {
    if entries != [] {
      ListedMeans(entries[..|entries| - 1], name);
    }
  }

  function Count(names: seq<string>, name: string): nat {
    multiset(names)[name]
  }

  function CountNames(entries: seq<Entry3>, name: string): nat {
    if entries == [] then 0
    else CountNames(entries[..|entries| - 1], name) + if entries[|entries| - 1].name == name then 1 else 0
  }

  /** The loop over one page: the names, and the cookie of the last entry. */
  method TakePage(page: seq<Entry3>, names: seq<string>, last: nat) returns (filesToList: seq<string>, cookie: nat)
    ensures filesToList == names + Listed(page)
    ensures cookie == if page == [] then last else page[|page| - 1].cookie
  {
    filesToList, cookie := names, last;
    for k := 0 to |page|
      invariant filesToList == names + Listed(page[..k])
      invariant cookie == if k == 0 then last else page[k - 1].cookie
    {
      var dirEntry := page[k];
      if dirEntry.name != ".." {
        filesToList := filesToList + [dirEntry.name];
      }
      cookie := dirEntry.cookie;
      assert page[..k + 1][..k] == page[..k];
    }
    assert page[..|page|] == page;
  }

  lemma Taken(whole: seq<Entry3>, got: nat, page: seq<Entry3>)
    requires Follows(whole, got, page)
    ensures whole[..got] + page == whole[..got + |page|]
  {
  }

  /** The names and the cookie so far, taken on over a page. */
  lemma PageTaken(whole: seq<Entry3>, got: nat, page: seq<Entry3>, names: seq<string>, names2: seq<string>,
          cookie2: nat)
    requires Follows(whole, got, page) && names == Listed(whole[..got]) && names2 == names + Listed(page)
    requires cookie2 == if page == [] then CookieAfter(whole, got) else page[|page| - 1].cookie
    ensures names2 == Listed(whole[..got + |page|]) && cookie2 == CookieAfter(whole, got + |page|)
  {
    PageListed(whole, got, page);
  }

  /** The names so far and those of the next page are the names so far. */
  lemma PageListed(whole: seq<Entry3>, got: nat, page: seq<Entry3>)
    requires Follows(whole, got, page)
    ensures Listed(whole[..got]) + Listed(page) == Listed(whole[..got + |page|])
  {
    Taken(whole, got, page);
    ListedAppend(whole[..got], page);
  }

  /** nfs/nfsv3.cpp:499-531, against a directory that does not change; `sizes` are the server's
      choices of page size. */
  method ListDirCompat(entries: seq<Entry3>, sizes: seq<nat>, tellEnd: bool) returns (filesToList: seq<string>)
    requires Listable(entries)
    ensures filesToList == Listed(entries)
  {
    filesToList := [];
    var cookie, calls, eof := 0, 0, false;
    ghost var got := 0;
    while !eof
      invariant got <= |entries| && filesToList == Listed(entries[..got])
      invariant cookie == CookieAfter(entries, got)
      invariant eof ==> got == |entries|
      decreases |entries| - got, if eof then 0 else 1
    {
      var wish := if calls < |sizes| then sizes[calls] else |entries|;
      var page := ReadDir(entries, cookie, wish, tellEnd);
      PageFollows(entries, got, wish, tellEnd);
      ghost var names := filesToList;
      filesToList, cookie := TakePage(page.entries, filesToList, cookie);
      PageTaken(entries, got, page.entries, names, filesToList, cookie);
      got := got + |page.entries|;
      eof := page.eof;
      calls := calls + 1;
    }
    assert entries[..got] == entries;
  }
}
