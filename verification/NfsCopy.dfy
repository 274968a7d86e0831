/** Copying a file on the server through a ".part" file (nfs/nfsv3.cpp:970-1185). The handle
    cache is assumed to be right, which is what module NfsCache is about. */
module NfsCopy {
  import opened Text
  import opened NfsFiles

  datatype Outcome = Copied | AlreadyExists | Broken | CannotRenamePartial

  /** What a user of the copy can see on the server. */
  datatype Files = Files(part: Option<Data>, dest: Option<Data>)

  /** The server's files, how the calls to come go (all are answered when the list is used up), how
      many were not answered, and everything the files went through. */
  datatype Server = Server(part: Option<Data>, dest: Option<Data>, answers: seq<Answer>, failures: nat,
        seen: seq<Files>)

  /** Settings of one attempt: `MarkPartial`, the overwrite flag, the user's consent to resuming,
      the smaller of the two buffer sizes, and the size below which a broken part file goes. */
  datatype Plan = Plan(marked: bool, overwrite: bool, canResume: bool, bufferSize: nat, minimumKeepSize: nat)

  datatype Res = Res(ok: bool, s: Server)

  // ----- single calls -----

  function Answered(s: Server): Answer {
    if s.answers == [] then Answer(true, true, 0) else s.answers[0]
  }

  function After(s: Server): Server {
    if s.answers == [] then s
    else s.(answers := s.answers[1..], failures := s.failures + if s.answers[0].answered then 0 else 1)
  }

  function Changed(s: Server, part: Option<Data>, dest: Option<Data>): Server {
    s.(part := part, dest := dest, seen := s.seen + [Files(part, dest)])
  }

  predicate Done(s: Server) {
    Answered(s).answered || Answered(s).done
  }

  /** Whether a look for a file finds it; an unanswered look finds nothing. */
  function Look(s: Server, file: Option<Data>): Res {
    Res(file.Some? && Answered(s).answered, After(s))
  }

  function RemovePart(s: Server): Res {
    Res(Answered(s).answered, if Done(s) then Changed(After(s), None, s.dest) else After(s))
  }

  function RemoveDest(s: Server): Res {
    Res(Answered(s).answered, if Done(s) then Changed(After(s), s.part, None) else After(s))
  }

  function RenamePart(s: Server): Res {
    if Done(s) && s.part.Some? then Res(Answered(s).answered, Changed(After(s), None, s.part)) else Res(false, After(s))
  }

  function Target(s: Server, marked: bool): Option<Data> {
    if marked then s.part else s.dest
  }

  function WithTarget(s: Server, marked: bool, file: Data): Server {
    if marked then Changed(s, Some(file), s.dest) else Changed(s, s.part, Some(file))
  }

  /** UNCHECKED creation with size 0. */
  function CreateEmpty(s: Server, marked: bool): Res {
    Res(Answered(s).answered, if Done(s) then WithTarget(After(s), marked, []) else After(s))
  }

  /** What of `data` a WRITE leaves behind: all of it when acknowledged, some of it otherwise. */
  function Stored(a: Answer, data: Data): (d: Data)
    ensures d <= data && (a.answered ==> d == data)
  {
    if a.answered || (a.done && a.wish >= |data|) then data else if a.done then data[..a.wish] else []
  }

  /** WRITE at the end of the target. */
  function Append(s: Server, marked: bool, data: Data): (r: Res)
    requires Target(s, marked).Some?
    ensures Target(r.s, marked) == Some(Target(s, marked).value + Stored(Answered(s), data))
  {
    var file := Target(s, marked).value;
    Res(Answered(s).answered, WithTarget(After(s), marked, WriteAt(file, |file|, Stored(Answered(s), data))))
  }

  // ----- an attempt -----

  /** How the read and write loop ends, and its last write offset. */
  datatype Moved = Moved(ok: bool, offset: nat, s: Server)

  predicate Begun(source: Data, s: Server, marked: bool) {
    Target(s, marked).Some? && Target(s, marked).value <= source
  }

  lemma Extends(file: Data, source: Data, data: Data)
    requires file <= source && |file| + |data| <= |source| && data == source[|file|..|file| + |data|]
    ensures file + data <= source
  {
    assert source[..|file| + |data|] == source[..|file|] + source[|file|..|file| + |data|];
  }

  lemma StoredPrefix(file: Data, source: Data, data: Data, stored: Data)
    requires file + data <= source && stored <= data
    ensures file + stored <= source
  {
    assert file + stored == (file + data)[..|file| + |stored|];
  }

  function Transfer(source: Data, s: Server, marked: bool, bufferSize: nat): Moved
    requires Begun(source, s, marked)
    decreases |source| - |Target(s, marked).value|
  {
    var file := Target(s, marked).value;
    if !Answered(s).answered then Moved(false, |file|, After(s))
    else
      var data := ReadAt(source, |file|, bufferSize, Answered(s).wish);
      if data == [] then Moved(true, |file|, After(s))
      else
        Extends(file, source, data);
        var w := Append(After(s), marked, data);
        if w.ok then Transfer(source, w.s, marked, bufferSize) else Moved(false, |file|, w.s)
  }

  lemma TransferTurn(source: Data, s: Server, marked: bool, bufferSize: nat)
    requires Begun(source, s, marked) && Answered(s).answered && Answered(After(s)).answered
    ensures var data := ReadAt(source, |Target(s, marked).value|, bufferSize, Answered(s).wish);
            var w := Append(After(s), marked, data);
            data != [] ==>
              && Begun(source, w.s, marked) && |Target(w.s, marked).value| == |Target(s, marked).value| + |data|
              && Transfer(source, s, marked, bufferSize) == Transfer(source, w.s, marked, bufferSize)
  {
    var file := Target(s, marked).value;
    var data := ReadAt(source, |file|, bufferSize, Answered(s).wish);
    if data != [] {
      Extends(file, source, data);
    }
  }

  /** Whether to resume, and the target created if not. */
  datatype Prepared = Prepared(ok: bool, resumed: bool, s: Server)

  function CreateTarget(s: Server, p: Plan): Prepared {
    var r := CreateEmpty(s, p.marked);
    Prepared(r.ok, false, r.s)
  }

  function Prepare(s: Server, p: Plan): Prepared {
    var exists1 := Look(s, s.part);
    if !exists1.ok then CreateTarget(exists1.s, p)
    else
      var looked := Look(exists1.s, s.part);
      if looked.ok && p.marked && s.part.value != [] && p.canResume then Prepared(true, true, looked.s)
      else CreateTarget(RemovePart(looked.s).s, p)
  }

  /** The part file takes the destination's name. */
  function Replace(s: Server): Res {
    var destExists := Look(s, s.dest);
    RenamePart(if destExists.ok then RemoveDest(destExists.s).s else destExists.s)
  }

  datatype Attempt = Attempt(outcome: Outcome, resumed: bool, s: Server)

  /** After the loop: cleaning up, or taking the destination's name. */
  function Finish(m: Moved, p: Plan, resumed: bool): Attempt {
    if !m.ok then Attempt(Broken, resumed, if p.marked && m.offset < p.minimumKeepSize then RemovePart(m.s).s else m.s)
    else if !p.marked then Attempt(Copied, resumed, m.s)
    else
      var renamed := Replace(m.s);
      Attempt(if renamed.ok then Copied else CannotRenamePartial, resumed, renamed.s)
  }

  function CopySame(source: Data, s: Server, p: Plan): Attempt
    requires PartIsPrefix(source, s.part)
  {
    var destExists := Look(s, s.dest);
    if destExists.ok && !p.overwrite then Attempt(AlreadyExists, false, destExists.s)
    else
      var ready := Prepare(destExists.s, p);
      if !ready.ok then Attempt(Broken, false, ready.s)
      else
        PreparedBegins(source, destExists.s, p);
        Finish(Transfer(source, ready.s, p.marked, p.bufferSize), p, ready.resumed)
  }

  // ----- what every attempt keeps -----

  /** The part file is absent or a prefix of the source. */
  predicate PartIsPrefix(source: Data, part: Option<Data>) {
    part.Some? ==> part.value <= source
  }

  /** Nothing is lost: the destination is what it was, or a complete copy exists. */
  predicate NothingLost(source: Data, before: Option<Data>, f: Files) {
    f.dest == before || f.part == Some(source) || f.dest == Some(source)
  }

  predicate Good(source: Data, before: Option<Data>, f: Files) {
    PartIsPrefix(source, f.part) && NothingLost(source, before, f)
  }

  /** So it is now and was ever since. */
  predicate Held(source: Data, before: Option<Data>, s: Server) {
    Good(source, before, Files(s.part, s.dest)) && forall i :: 0 <= i < |s.seen| ==> Good(source, before, s.seen[i])
  }

  lemma PreparedBegins(source: Data, s: Server, p: Plan)
    requires PartIsPrefix(source, s.part)
    ensures var r := Prepare(s, p);
            && (r.ok ==> Begun(source, r.s, p.marked))
            && (r.resumed ==>
                   r.ok && p.marked && p.canResume && r.s.part == s.part && s.part.Some? && s.part.value != [])
            && (r.ok && !r.resumed ==> Target(r.s, p.marked) == Some([]))
            && PartIsPrefix(source, r.s.part)
            && r.s.failures >= s.failures && (r.s.failures == s.failures ==> r.ok)
  {
  }

  lemma PrepareHolds(source: Data, before: Option<Data>, s: Server, p: Plan)
    requires p.marked && Held(source, before, s) && (s.dest == before || s.dest == Some(source))
    ensures var r := Prepare(s, p); Held(source, before, r.s) && r.s.dest == s.dest
  {
    var found := Look(s, s.part);
    if found.ok {
      var looked := Look(found.s, s.part);
      ChangedHolds(source, before, After(looked.s), None, s.dest);
      var gone := RemovePart(looked.s).s;
      ChangedHolds(source, before, After(gone), Some([]), s.dest);
    } else {
      ChangedHolds(source, before, After(found.s), Some([]), s.dest);
    }
  }

  /** The target grows as a prefix of the source; it is all of it when the loop ends well. */
  lemma {:induction false} TransferPrefix(source: Data, s: Server, marked: bool, bufferSize: nat)
    requires Begun(source, s, marked)
    ensures var r := Transfer(source, s, marked, bufferSize);
            && Begun(source, r.s, marked) && Target(s, marked).value <= Target(r.s, marked).value
            && r.offset <= |Target(r.s, marked).value|
            && Target(r.s, !marked) == Target(s, !marked)
            && r.s.failures >= s.failures && (r.s.failures == s.failures ==> r.ok)
            && (r.ok ==> Target(r.s, marked).value == if bufferSize > 0 then source else Target(s, marked).value)
    decreases |source| - |Target(s, marked).value|
  {
    var file := Target(s, marked).value;
    if Answered(s).answered {
      var data := ReadAt(source, |file|, bufferSize, Answered(s).wish);
      if data != [] {
        Extends(file, source, data);
        StoredPrefix(file, source, data, Stored(Answered(After(s)), data));
        var w := Append(After(s), marked, data);
        if w.ok {
          TransferPrefix(source, w.s, marked, bufferSize);
        }
      } else {
        assert |file| == |source| || bufferSize == 0;
      }
    }
  }

  lemma {:induction false} TransferHolds(source: Data, before: Option<Data>, s: Server, bufferSize: nat)
    requires Begun(source, s, true) && Held(source, before, s) && (s.dest == before || s.dest == Some(source))
    ensures var r := Transfer(source, s, true, bufferSize); Held(source, before, r.s) && r.s.dest == s.dest
    decreases |source| - |s.part.value|
  {
    var file := s.part.value;
    if Answered(s).answered {
      var data := ReadAt(source, |file|, bufferSize, Answered(s).wish);
      if data != [] {
        Extends(file, source, data);
        StoredPrefix(file, source, data, Stored(Answered(After(s)), data));
        var w := Append(After(s), true, data);
        if w.ok {
          TransferHolds(source, before, w.s, bufferSize);
        }
      }
    }
  }

  lemma ReplaceResult(s: Server)
    requires s.part.Some?
    ensures var r := Replace(s);
            && (r.ok ==> r.s.dest == s.part && r.s.part == None)
            && (r.s.part == s.part || r.s.part == None)
            && (r.s.failures == s.failures ==> r.ok) && r.s.failures >= s.failures
            && (r.s.dest == s.dest || r.s.dest == None || r.s.dest == s.part)
  {
  }

  lemma FinishResult(source: Data, whole: Data, m: Moved, p: Plan, resumed: bool)
    requires Begun(source, m.s, p.marked) && (m.ok ==> Target(m.s, p.marked).value == whole)
          && PartIsPrefix(source, m.s.part)
    ensures var r := Finish(m, p, resumed);
            && PartIsPrefix(source, r.s.part) && r.resumed == resumed
            && (r.outcome == Copied ==> r.s.dest == Some(whole) && (p.marked ==> r.s.part == None))
            && (m.ok && r.s.failures == m.s.failures ==> r.outcome == Copied)
            && r.s.failures >= m.s.failures
            && r.outcome != AlreadyExists
            && (p.marked ==> r.s.dest == m.s.dest || r.s.dest == None || (m.ok && r.s.dest == Some(whole)))
  {
    if m.ok && p.marked {
      ReplaceResult(m.s);
    }
  }

  lemma FinishHolds(source: Data, before: Option<Data>, m: Moved, p: Plan, resumed: bool)
    requires p.marked && Held(source, before, m.s) && (m.s.dest == before || m.s.dest == Some(source))
    requires m.ok ==> m.s.part == Some(source)
    ensures Held(source, before, Finish(m, p, resumed).s)
  {
    if m.ok {
      ReplaceHolds(source, before, m.s);
    } else {
      ChangedHolds(source, before, After(m.s), None, m.s.dest);
    }
  }

  lemma ChangedHolds(source: Data, before: Option<Data>, s: Server, part: Option<Data>, dest: Option<Data>)
    requires Held(source, before, s) && Good(source, before, Files(part, dest))
    ensures Held(source, before, Changed(s, part, dest))
  {
  }

  lemma ReplaceHolds(source: Data, before: Option<Data>, s: Server)
    requires Held(source, before, s) && s.part == Some(source)
    ensures Held(source, before, Replace(s).s)
  {
    var looked := Look(s, s.dest);
    ChangedHolds(source, before, After(looked.s), looked.s.part, None);
    var ready := if looked.ok then RemoveDest(looked.s).s else looked.s;
    ChangedHolds(source, before, After(ready), None, ready.part);
  }

  /** What an attempt leaves: the part file a prefix of the source; on success exactly the source,
      given a buffer; without one what was resumed, or nothing; and success if no call fails. */
  lemma CopyResult(source: Data, s: Server, p: Plan)
    requires PartIsPrefix(source, s.part)
    ensures var r := CopySame(source, s, p);
            && PartIsPrefix(source, r.s.part)
            && (r.outcome == Copied ==>
                  r.s.dest == Some(if p.bufferSize > 0 then source else if r.resumed then s.part.value else [])
                  && (p.marked ==> r.s.part == None))
            && (r.resumed ==> p.marked && p.canResume && s.part.Some? && s.part.value != [])
            && (r.s.failures == s.failures ==> r.outcome == if s.dest.Some?
                  && !p.overwrite then AlreadyExists else Copied)
            && (r.outcome == AlreadyExists ==> !p.overwrite && s.dest.Some? && r.s.part == s.part && r.s.dest == s.dest)
            && (p.marked && p.bufferSize > 0 ==> r.s.dest == s.dest || r.s.dest == None || r.s.dest == Some(source))
  {
    var destExists := Look(s, s.dest);
    if !(destExists.ok && !p.overwrite) {
      PreparedBegins(source, destExists.s, p);
      if p.marked {
        PreparedDest(destExists.s, p);
      }
      var ready := Prepare(destExists.s, p);
      if ready.ok {
        TransferPrefix(source, ready.s, p.marked, p.bufferSize);
        var m := Transfer(source, ready.s, p.marked, p.bufferSize);
        FinishResult(source, if p.bufferSize > 0 then source else Target(ready.s, p.marked).value, m, p, ready.resumed);
      }
    }
  }

  /** Every call to come is answered. */
  predicate Faultless(s: Server) {
    forall a :: a in s.answers ==> a.answered
  }

  lemma {:induction false} TransferFaultless(source: Data, s: Server, marked: bool, bufferSize: nat)
    requires Begun(source, s, marked) && Faultless(s)
    ensures var r := Transfer(source, s, marked, bufferSize); Faultless(r.s) && r.s.failures == s.failures
    decreases |source| - |Target(s, marked).value|
  {
    var file := Target(s, marked).value;
    var data := ReadAt(source, |file|, bufferSize, Answered(s).wish);
    if data != [] {
      Extends(file, source, data);
      TransferFaultless(source, Append(After(s), marked, data).s, marked, bufferSize);
    }
  }

  lemma AfterFaultless(s: Server)
    requires Faultless(s)
    ensures Faultless(After(s)) && After(s).failures == s.failures && Answered(s).answered
  {
  }

  lemma PrepareFaultless(s: Server, p: Plan)
    requires Faultless(s)
    ensures var r := Prepare(s, p); Faultless(r.s) && r.s.failures == s.failures
  {
    AfterFaultless(s);
    AfterFaultless(After(s));
    AfterFaultless(After(After(s)));
    AfterFaultless(After(After(After(s))));
  }

  lemma FinishFaultless(m: Moved, p: Plan, resumed: bool)
    requires Faultless(m.s)
    ensures Finish(m, p, resumed).s.failures == m.s.failures
  {
    AfterFaultless(m.s);
    AfterFaultless(After(m.s));
    AfterFaultless(After(After(m.s)));
  }

  /** Then none fails, so the attempt succeeds unless it must not replace a file. */
  lemma CopyFaultless(source: Data, s: Server, p: Plan)
    requires PartIsPrefix(source, s.part) && Faultless(s)
    ensures CopySame(source, s, p).outcome == if s.dest.Some? && !p.overwrite then AlreadyExists else Copied
  {
    CopyResult(source, s, p);
    AfterFaultless(s);
    var found := Look(s, s.dest).s;
    var ready := Prepare(found, p);
    PreparedBegins(source, found, p);
    PrepareFaultless(found, p);
    if ready.ok {
      TransferFaultless(source, ready.s, p.marked, p.bufferSize);
      FinishFaultless(Transfer(source, ready.s, p.marked, p.bufferSize), p, ready.resumed);
    }
  }

  /** An attempt that breaks off keeps its part file if that is worth keeping: with `minimumKeepSize` bytes
      acknowledged it stays as it is, with at least these bytes; with fewer it goes, if its removal does not fail. */
  lemma BrokenPart(source: Data, s: Server, p: Plan)
    requires PartIsPrefix(source, s.part) && p.marked && Prepare(Look(s, s.dest).s, p).ok
    requires CopySame(source, s, p).outcome == Broken
    ensures var r, ready := CopySame(source, s, p), Prepare(Look(s, s.dest).s, p).s;
            && Begun(source, ready, true)
            && (var m := Transfer(source, ready, true, p.bufferSize);
                && (m.offset >= p.minimumKeepSize ==>
                      r.s.part == m.s.part && m.s.part.Some? && |m.s.part.value| >= p.minimumKeepSize)
                && (m.offset < p.minimumKeepSize && Done(m.s) ==> r.s.part == None))
  {
    var found := Look(s, s.dest).s;
    PreparedBegins(source, found, p);
    TransferPrefix(source, Prepare(found, p).s, true, p.bufferSize);
  }

  lemma PreparedDest(s: Server, p: Plan)
    requires p.marked
    ensures Prepare(s, p).s.dest == s.dest
  {
  }

  /** At every step of an attempt the old destination is there, or a complete copy is, if the
      attempt finds the old destination, or already a copy, in place. */
  lemma AttemptHolds(source: Data, before: Option<Data>, s: Server, p: Plan)
    requires p.marked && p.bufferSize > 0
    requires Held(source, before, s) && (s.dest == before || s.dest == Some(source))
    ensures Held(source, before, CopySame(source, s, p).s)
  {
    var destExists := Look(s, s.dest);
    if !(destExists.ok && !p.overwrite) {
      PreparedBegins(source, destExists.s, p);
      PrepareHolds(source, before, destExists.s, p);
      var ready := Prepare(destExists.s, p);
      if ready.ok {
        TransferPrefix(source, ready.s, true, p.bufferSize);
        TransferHolds(source, before, ready.s, p.bufferSize);
        FinishHolds(source, before, Transfer(source, ready.s, true, p.bufferSize), p, ready.resumed);
      }
    }
  }

  /** An attempt can end with neither in place: its last call, the rename, is lost. */
  lemma DestCanVanish()
    ensures var ok := Answer(true, true, 2);
            var s := Server(None, Some("x"), [ok, ok, ok, ok, ok, ok, ok, ok, Answer(false, false, 0)], 0, []);
            var r := CopySame("ab", s, Plan(true, true, true, 8, 0));
            r.outcome == CannotRenamePartial && r.s.part == Some("ab") && r.s.dest == None
  {
    var ok, no, x := Answer(true, true, 2), Answer(false, false, 0), Some("x");
    var p := Plan(true, true, true, 8, 0);
    var s0 := Server(None, x, [ok, ok, ok, ok, ok, ok, ok, ok, no], 0, []);
    var s1 := After(s0);
    var s2 := After(s1);
    var s3 := Changed(After(s2), Some([]), x);
    assert Prepare(s1, p) == Prepared(true, false, s3);
    assert ReadAt("ab", 0, 8, 2) == "ab";
    var s4 := After(s3);
    var w := Append(s4, true, "ab");
    assert [] + "ab" == "ab" && w.ok && w.s.part == Some("ab");
    TransferTurn("ab", s3, true, 8);
    assert ReadAt("ab", 2, 8, 2) == [];
    var m := Transfer("ab", w.s, true, 8);
    assert m == Moved(true, 2, After(w.s));
    assert m.s.answers == [ok, ok, no];
    var s7 := After(m.s);
    assert Look(m.s, x).ok && RemoveDest(s7).s == Changed(After(s7), Some("ab"), None);
    assert After(s7).answers == [no];
  }

  lemma FinishSeen(m: Moved, p: Plan, resumed: bool)
    ensures m.s.seen <= Finish(m, p, resumed).s.seen
  {
  }

  lemma {:induction false} TransferSeen(source: Data, s: Server, marked: bool, bufferSize: nat)
    requires Begun(source, s, marked)
    ensures s.seen <= Transfer(source, s, marked, bufferSize).s.seen
    decreases |source| - |Target(s, marked).value|
  {
    var file := Target(s, marked).value;
    if Answered(s).answered {
      var data := ReadAt(source, |file|, bufferSize, Answered(s).wish);
      if data != [] {
        Extends(file, source, data);
        var w := Append(After(s), marked, data);
        if w.ok {
          TransferSeen(source, w.s, marked, bufferSize);
        }
      }
    }
  }

  // ----- the worker -----

  class Copier {
    const source: Data
    var part: Option<Data>
    var dest: Option<Data>
    var answers: seq<Answer>
    ghost var failures: nat
    ghost var seen: seq<Files>

    constructor (source: Data, part: Option<Data>, dest: Option<Data>, answers: seq<Answer>)
      ensures this.source == source && Now() == Server(part, dest, answers, 0, [])
    {
      this.source, this.part, this.dest, this.answers := source, part, dest, answers;
      failures, seen := 0, [];
    }

    ghost function Now(): Server
      reads this
    {
      Server(part, dest, answers, failures, seen)
    }

    method NextAnswer() returns (a: Answer)
      modifies this
      ensures a == Answered(old(Now())) && Now() == After(old(Now()))
    {
      if answers == [] {
        return Answer(true, true, 0);
      }
      a := answers[0];
      answers := answers[1..];
      failures := failures + if a.answered then 0 else 1;
    }

    method Change(part: Option<Data>, dest: Option<Data>)
      modifies this
      ensures Now() == Changed(old(Now()), part, dest)
    {
      this.part, this.dest := part, dest;
      seen := seen + [Files(part, dest)];
    }

    method LookFor(file: Option<Data>) returns (found: bool)
      modifies this
      ensures Res(found, Now()) == Look(old(Now()), file)
    {
      var a := NextAnswer();
      return file.Some? && a.answered;
    }

    method CallRemovePart() returns (ok: bool)
      modifies this
      ensures Res(ok, Now()) == RemovePart(old(Now()))
    {
      var a := NextAnswer();
      if a.answered || a.done {
        Change(None, dest);
      }
      return a.answered;
    }

    method CallRemoveDest() returns (ok: bool)
      modifies this
      ensures Res(ok, Now()) == RemoveDest(old(Now()))
    {
      var a := NextAnswer();
      if a.answered || a.done {
        Change(part, None);
      }
      return a.answered;
    }

    method CallRenamePart() returns (ok: bool)
      modifies this
      ensures Res(ok, Now()) == RenamePart(old(Now()))
    {
      var a := NextAnswer();
      if (a.answered || a.done) && part.Some? {
        Change(None, part);
        return a.answered;
      }
      return false;
    }

    method ChangeTarget(marked: bool, file: Data)
      modifies this
      ensures Now() == WithTarget(old(Now()), marked, file)
    {
      if marked {
        Change(Some(file), dest);
      } else {
        Change(part, Some(file));
      }
    }

    method CallCreate(marked: bool) returns (ok: bool)
      modifies this
      ensures Res(ok, Now()) == CreateEmpty(old(Now()), marked)
    {
      var a := NextAnswer();
      if a.answered || a.done {
        ChangeTarget(marked, []);
      }
      return a.answered;
    }

    method CallWrite(marked: bool, data: Data) returns (ok: bool)
      requires Target(Now(), marked).Some?
      modifies this
      ensures Res(ok, Now()) == Append(old(Now()), marked, data)
    {
      var a := NextAnswer();
      var file := if marked then part.value else dest.value;
      ChangeTarget(marked, WriteAt(file, |file|, Stored(a, data)));
      return a.answered;
    }

    /** nfs/nfsv3.cpp:1109-1159 */
    method TransferData(marked: bool, bufferSize: nat) returns (ok: bool, offset: nat)
      requires Begun(source, Now(), marked)
      modifies this
      ensures Moved(ok, offset, Now()) == Transfer(source, old(Now()), marked, bufferSize)
    {
      offset := |if marked then part.value else dest.value|;
      while true
        invariant Begun(source, Now(), marked) && offset == |Target(Now(), marked).value|
        invariant Transfer(source, Now(), marked, bufferSize) == Transfer(source, old(Now()), marked, bufferSize)
        decreases |source| - offset
      {
        ghost var s := Now();
        var a := NextAnswer();
        if !a.answered {
          return false, offset;
        }
        var data := ReadAt(source, offset, bufferSize, a.wish);
        if |data| == 0 {
          return true, offset;
        }
        if Answered(Now()).answered {
          TransferTurn(source, s, marked, bufferSize);
        }
        var written := CallWrite(marked, data);
        if !written {
          return false, offset;
        }
        offset := offset + |data|;
      }
    }

    /** nfs/nfsv3.cpp:1017-1076 */
    method PrepareTarget(p: Plan) returns (ok: bool, resumed: bool)
      modifies this
      ensures Prepared(ok, resumed, Now()) == Prepare(old(Now()), p)
    {
      resumed := false;
      var partExists := LookFor(part);
      if partExists {
        var looked := LookFor(part);
        if looked && p.marked && |part.value| > 0 {
          resumed := p.canResume;
        }
        if !resumed {
          var removed := CallRemovePart();
        }
      }
      ok := true;
      if !resumed {
        ok := CallCreate(p.marked);
      }
    }

    /** nfs/nfsv3.cpp:1174-1185 */
    method ReplaceDest() returns (ok: bool)
      modifies this
      ensures Res(ok, Now()) == Replace(old(Now()))
    {
      var destExists := LookFor(dest);
      if destExists {
        var removed := CallRemoveDest();
      }
      ok := CallRenamePart();
    }

    /** nfs/nfsv3.cpp:970-1185 */
    method Copy(p: Plan) returns (outcome: Outcome, resumed: bool)
      requires PartIsPrefix(source, part)
      modifies this
      ensures Attempt(outcome, resumed, Now()) == CopySame(source, old(Now()), p)
    {
      var destExists := LookFor(dest);
      if destExists && !p.overwrite {
        return AlreadyExists, false;
      }
      PreparedBegins(source, Now(), p);
      var ready;
      ready, resumed := PrepareTarget(p);
      if !ready {
        return Broken, false;
      }
      var ok, offset := TransferData(p.marked, p.bufferSize);
      if !ok {
        if p.marked && offset < p.minimumKeepSize {
          var removed := CallRemovePart();
        }
        return Broken, resumed;
      }
      if p.marked {
        var renamed := ReplaceDest();
        if !renamed {
          return CannotRenamePartial, resumed;
        }
      }
      return Copied, resumed;
    }
  }
}
