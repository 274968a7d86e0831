/** Failed and resumed attempts at a copy through a ".part" file (nfs/nfsv3.cpp:970-1185): exactly
    when an attempt loses what it copies, and what any number of attempts keep. */
module NfsAttempts {
  import opened Text
  import opened NfsFiles
  import opened NfsCopy

  /** The old destination is in place, or already a copy. */
  predicate InPlace(source: Data, before: Option<Data>, s: Server) {
    s.dest == before || s.dest == Some(source)
  }

  // ----- what is on record -----

  lemma PrepareSeen(s: Server, p: Plan)
    ensures s.seen <= Prepare(s, p).s.seen
  {
  }

  /** An attempt only adds to the record. */
  lemma CopySeen(source: Data, s: Server, p: Plan)
    requires PartIsPrefix(source, s.part)
    ensures s.seen <= CopySame(source, s, p).s.seen
  {
    var destExists := Look(s, s.dest);
    if !(destExists.ok && !p.overwrite) {
      var ready := Prepare(destExists.s, p);
      PrepareSeen(destExists.s, p);
      if ready.ok {
        PreparedBegins(source, destExists.s, p);
        TransferSeen(source, ready.s, p.marked, p.bufferSize);
        FinishSeen(Transfer(source, ready.s, p.marked, p.bufferSize), p, ready.resumed);
      }
    }
  }

  /** Somewhere on record both were lost. */
  ghost predicate LostIn(source: Data, before: Option<Data>, seen: seq<Files>) {
    exists i :: 0 <= i < |seen| && !Good(source, before, seen[i])
  }

  lemma LostStays(source: Data, before: Option<Data>, seen: seq<Files>, later: seq<Files>)
    requires LostIn(source, before, seen) && seen <= later
    ensures LostIn(source, before, later)
  {
    var i :| 0 <= i < |seen| && !Good(source, before, seen[i]);
    assert later[i] == seen[i];
  }

  // ----- when an attempt loses the copy -----

  /** Nothing is in place: all there is of the data is the complete part file. */
  predicate Loose(source: Data, before: Option<Data>, s: Server) {
    Held(source, before, s) && !InPlace(source, before, s)
  }

  lemma LooseNext(source: Data, before: Option<Data>, s: Server)
    requires Loose(source, before, s)
    ensures Loose(source, before, After(s)) && s.part == Some(source) && After(s).seen == s.seen
  {
  }

  /** What a change of the part file does then. */
  lemma LooseChanged(source: Data, before: Option<Data>, s: Server, part: Option<Data>)
    requires Loose(source, before, s)
    ensures if part == Some(source) then Loose(source, before, Changed(s, part, s.dest))
            else LostIn(source, before, Changed(s, part, s.dest).seen)
  {
    var t := Changed(s, part, s.dest);
    assert t.seen[|s.seen|] == Files(part, s.dest);
    if part == Some(source) {
      ChangedHolds(source, before, s, part, s.dest);
    } else {
      assert !Good(source, before, t.seen[|s.seen|]);
    }
  }

  /** Creating the part file empties it, unless the call does not get through. */
  predicate CreateKeeps(source: Data, s: Server) {
    !Done(s) || source == []
  }

  lemma CreateExactly(source: Data, before: Option<Data>, s: Server, p: Plan)
    requires p.marked && Loose(source, before, s)
    ensures var r := CreateTarget(s, p);
            if CreateKeeps(source, s) then Loose(source, before, r.s) else LostIn(source, before, r.s.seen)
  {
    LooseNext(source, before, s);
    LooseChanged(source, before, After(s), Some([]));
  }

  /** The start of an attempt leaves the part file alone: it is not looked at and not created, or it
      is resumed, or it is neither removed nor created. */
  predicate PrepareKeeps(source: Data, s: Server, p: Plan) {
    var found := Look(s, s.part);
    var looked := Look(found.s, s.part);
    if !found.ok then CreateKeeps(source, found.s)
    else if looked.ok && source != [] && p.canResume then true
    else !Done(looked.s) && CreateKeeps(source, After(looked.s))
  }

  lemma PrepareExactly(source: Data, before: Option<Data>, s: Server, p: Plan)
    requires p.marked && Loose(source, before, s)
    ensures var r := Prepare(s, p);
            if PrepareKeeps(source, s, p) then Loose(source, before, r.s) else LostIn(source, before, r.s.seen)
  {
    var found := Look(s, s.part);
    LooseNext(source, before, s);
    if !found.ok {
      CreateExactly(source, before, found.s, p);
    } else {
      var looked := Look(found.s, s.part);
      LooseNext(source, before, found.s);
      if !(looked.ok && source != [] && p.canResume) {
        LooseNext(source, before, looked.s);
        LooseChanged(source, before, After(looked.s), None);
        var gone := RemovePart(looked.s).s;
        CreateSeen(gone, p);
        if Done(looked.s) {
          LostStays(source, before, gone.seen, CreateTarget(gone, p).s.seen);
        } else {
          CreateExactly(source, before, gone, p);
        }
      }
    }
  }

  lemma CreateSeen(s: Server, p: Plan)
    ensures s.seen <= CreateTarget(s, p).s.seen
  {
  }

  /** The end of an attempt that found the part file complete keeps it, unless the READ behind its
      end fails and what is no longer worth keeping is removed. */
  predicate EndKeeps(source: Data, s: Server, p: Plan) {
    Answered(s).answered || |source| >= p.minimumKeepSize || !Done(After(s))
  }

  lemma EndExactly(source: Data, before: Option<Data>, s: Server, p: Plan, resumed: bool)
    requires p.marked && Loose(source, before, s) && Begun(source, s, true)
    ensures var r := Finish(Transfer(source, s, true, p.bufferSize), p, resumed);
            if EndKeeps(source, s, p) then Held(source, before, r.s) else LostIn(source, before, r.s.seen)
  {
    LooseNext(source, before, s);
    var m := Transfer(source, s, true, p.bufferSize);
    assert m == Moved(Answered(s).answered, |source|, After(s));
    if m.ok {
      ReplaceHolds(source, before, m.s);
    } else {
      LooseNext(source, before, m.s);
      LooseChanged(source, before, After(m.s), None);
    }
  }

  /** The calls of the attempt go so that a loose part file survives it. */
  predicate Keeps(source: Data, s: Server, p: Plan) {
    var destExists := Look(s, s.dest);
    var ready := Prepare(destExists.s, p);
    || (destExists.ok && !p.overwrite)
    || (PrepareKeeps(source, destExists.s, p) && (ready.ok ==> EndKeeps(source, ready.s, p)))
  }

  lemma LooseExactly(source: Data, before: Option<Data>, s: Server, p: Plan)
    requires p.marked && Loose(source, before, s)
    ensures var r := CopySame(source, s, p);
            if Keeps(source, s, p) then Held(source, before, r.s) else LostIn(source, before, r.s.seen)
  {
    var destExists := Look(s, s.dest);
    LooseNext(source, before, s);
    if !(destExists.ok && !p.overwrite) {
      PrepareExactly(source, before, destExists.s, p);
      PreparedBegins(source, destExists.s, p);
      var ready := Prepare(destExists.s, p);
      if ready.ok {
        if PrepareKeeps(source, destExists.s, p) {
          EndExactly(source, before, ready.s, p, ready.resumed);
        } else {
          var m := Transfer(source, ready.s, true, p.bufferSize);
          TransferSeen(source, ready.s, true, p.bufferSize);
          FinishSeen(m, p, ready.resumed);
          LostStays(source, before, ready.s.seen, Finish(m, p, ready.resumed).s.seen);
        }
      }
    }
  }

  /** An attempt loses nothing at any step exactly if it starts with the old destination or a copy in
      place, or its calls leave the complete part file alone. */
  lemma AttemptHoldsExactly(source: Data, before: Option<Data>, s: Server, p: Plan)
    requires p.marked && p.bufferSize > 0 && Held(source, before, s)
    ensures Held(source, before, CopySame(source, s, p).s) <==> InPlace(source, before, s) || Keeps(source, s, p)
  {
    if InPlace(source, before, s) {
      AttemptHolds(source, before, s, p);
    } else {
      LooseExactly(source, before, s, p);
    }
  }

  /** An attempt that does not resume loses a loose part file although every call is answered. */
  lemma AttemptLoses(source: Data, before: Option<Data>, s: Server, p: Plan)
    requires p.marked && p.overwrite && !p.canResume && s.answers == []
    requires Held(source, before, s) && s.dest != before && s.dest != Some(source)
    ensures !Held(source, before, CopySame(source, s, p).s)
  {
    LooseExactly(source, before, s, p);
  }

  /** One that may resume keeps it if every call is answered. */
  lemma ResumedKeeps(source: Data, before: Option<Data>, s: Server, p: Plan)
    requires p.marked && p.bufferSize > 0 && p.canResume && s.answers == [] && source != []
    requires Held(source, before, s)
    ensures Held(source, before, CopySame(source, s, p).s)
  {
    AttemptHoldsExactly(source, before, s, p);
    if !InPlace(source, before, s) {
      LooseNext(source, before, s);
    }
  }

  /** A resumed one loses it too: the READ behind its end is not answered, and a part file shorter
      than the least size worth keeping is removed. */
  lemma ResumedLoses()
    ensures var ok := Answer(true, true, 2);
            var s := Server(Some("ab"), None, [ok, ok, ok, Answer(false, false, 0)], 0, []);
            var r := CopySame("ab", s, Plan(true, true, true, 8, 5000));
            && r.resumed && r.s.part == None && r.s.dest == None
            && Held("ab", Some("x"), s) && !Held("ab", Some("x"), r.s)
  {
    var ok, no := Answer(true, true, 2), Answer(false, false, 0);
    var p := Plan(true, true, true, 8, 5000);
    var s := Server(Some("ab"), None, [ok, ok, ok, no], 0, []);
    var s1 := Look(s, s.dest).s;
    var s2 := Look(s1, s.part).s;
    var s3 := Look(s2, s.part).s;
    assert s1.answers == [ok, ok, no] && s2.answers == [ok, no] && s3.answers == [no];
    assert Prepare(s1, p) == Prepared(true, true, s3);
    assert Transfer("ab", s3, true, 8) == Moved(false, 2, After(s3));
    assert After(s3).answers == [];
  }

  // ----- any number of attempts -----

  function Attempts(source: Data, s: Server, ps: seq<Plan>): Server
    requires PartIsPrefix(source, s.part)
    decreases |ps|
  {
    if ps == [] then s
    else
      CopyResult(source, s, ps[0]);
      Attempts(source, CopySame(source, s, ps[0]).s, ps[1..])
  }

  /** Over any number of attempts, however their calls go: the part file is absent or a prefix of
      the source, and the destination is what it was, absent, or the source. */
  lemma {:induction false} AttemptsKeep(source: Data, s: Server, ps: seq<Plan>)
    requires PartIsPrefix(source, s.part)
    requires forall i :: 0 <= i < |ps| ==> ps[i].marked && ps[i].bufferSize > 0
    ensures var t := Attempts(source, s, ps);
            PartIsPrefix(source, t.part) && (t.dest == s.dest || t.dest == None || t.dest == Some(source))
    decreases |ps|
  {
    if ps != [] {
      CopyResult(source, s, ps[0]);
      AttemptsKeep(source, CopySame(source, s, ps[0]).s, ps[1..]);
    }
  }

  lemma {:induction false} AttemptsSeen(source: Data, s: Server, ps: seq<Plan>)
    requires PartIsPrefix(source, s.part)
    ensures s.seen <= Attempts(source, s, ps).seen
    decreases |ps|
  {
    if ps != [] {
      CopyResult(source, s, ps[0]);
      CopySeen(source, s, ps[0]);
      AttemptsSeen(source, CopySame(source, s, ps[0]).s, ps[1..]);
    }
  }

  /** Every attempt starts with the old destination or a copy in place, or leaves the part alone. */
  predicate AllKeep(source: Data, before: Option<Data>, s: Server, ps: seq<Plan>)
    requires PartIsPrefix(source, s.part)
    decreases |ps|
  {
    ps == [] ||
    (CopyResult(source, s, ps[0]);
     (InPlace(source, before, s) || Keeps(source, s, ps[0]))
           && AllKeep(source, before, CopySame(source, s, ps[0]).s, ps[1..]))
  }

  /** Over any number of failed and resumed attempts, at every step of each: the old destination is
      intact, or the part file or the destination is the complete source, exactly if all keep it. */
  lemma {:induction false} AttemptsHoldExactly(source: Data, before: Option<Data>, s: Server, ps: seq<Plan>)
    requires Held(source, before, s)
    requires forall i :: 0 <= i < |ps| ==> ps[i].marked && ps[i].bufferSize > 0
    ensures Held(source, before, Attempts(source, s, ps)) <==> AllKeep(source, before, s, ps)
    decreases |ps|
  {
    if ps != [] {
      var p, next := ps[0], CopySame(source, s, ps[0]).s;
      CopyResult(source, s, p);
      AttemptHoldsExactly(source, before, s, p);
      if InPlace(source, before, s) || Keeps(source, s, p) {
        AttemptsHoldExactly(source, before, next, ps[1..]);
      } else {
        LooseExactly(source, before, s, p);
        AttemptsSeen(source, next, ps[1..]);
        LostStays(source, before, next.seen, Attempts(source, next, ps[1..]).seen);
      }
    }
  }
}
