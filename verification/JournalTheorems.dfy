// What the journal promises, for every run (release_tools/updater.py, 836-1022, 1202-1785).
module JournalTheorems {
  import opened Basics
  import opened FileTrees
  import opened ReleaseFiles
  import opened InPlaceRestore
  import opened Journal
  import opened JournalSafety

  // ---------------------------------------------------------------- journal safety

  // What settles: an edit outside any transaction, or the accepted files with their two receipts.
  // A marker written back after an unlink that was not durable unsettles only that commit.
  lemma WhatSettles(w: World, a: Act)
    requires Inv(w) && Enabled(w, a) && !a.DoubleFault? && Do(w, a).base != w.base
    ensures
      || (a.Edit? && w.marker.None? && w.process.Idle? && Do(w, a).base == a.disk.files)
      || (a.Unlink? && w.process.Receipted? && Accepted(w, w.process.t, w.process.files)
          && State in w.process.files.dirs
          && Do(w, a).base == WithReceipts(w.process.files, w.process.name, w.process.t))
      || (a.Rewrite? && w.process.Unlinked? && w.process.t.snapshot in w.snaps
          && w.process.ending == Committed
          && Do(w, a).base == w.snaps[w.process.t.snapshot].copy && Do(w, a).marker == Some(w.process.t))
  {
    hide Coherent, Intact, StatusOk, Moved, MoveEnabled, JobSound, PriorNamed, BinSound, PutState, ReceiptName;
    assert w.process.Unlinked? && w.process.ending == Cleared ==> Core(w) && w.live == w.base;
  }

  lemma {:induction false} LegalPrefix(w: World, acts: seq<Act>, k: nat)
    requires Legal(w, acts) && k <= |acts|
    ensures Legal(w, acts[..k])
    ensures Legal(After(w, acts[..k]), acts[k..]) && After(After(w, acts[..k]), acts[k..]) == After(w, acts)
    decreases acts
  {
    if k == 0 {
      assert acts[..0] == [] && acts[0..] == acts;
    } else {
      LegalPrefix(Do(w, acts[0]), acts[1..], k - 1);
      assert acts[..k][1..] == acts[1..][..k - 1];
      assert acts[k..] == acts[1..][k - 1..];
    }
  }

  lemma LastStep(w: World, acts: seq<Act>)
    requires Legal(w, acts) && acts != []
    ensures var n := |acts| - 1;
      && Legal(w, acts[..n]) && Enabled(After(w, acts[..n]), acts[n])
      && After(w, acts) == Do(After(w, acts[..n]), acts[n])
  {
    hide Enabled, Do;
    var n := |acts| - 1;
    LegalPrefix(w, acts, n);
    var before := After(w, acts[..n]);
    assert acts[n..] == [acts[n]] && acts[n..][1..] == [];
    assert After(w, acts) == After(Do(before, acts[n]), []);
  }

  function FilesOf(p: Process): Option<Owned> {
    match p
    case Checked(_, files) => Some(files)
    case Archived(_, files, _) => Some(files)
    case Receipted(_, files, _) => Some(files)
    case _ => None
  }

  // The files carried to a commit were the live files of an earlier doctor run that said ok,
  // while status() was ok.
  lemma {:induction false} CommittedFilesWereAccepted(w: World, acts: seq<Act>) returns (k: nat)
    requires Legal(w, acts) && FilesOf(w.process).None? && FilesOf(After(w, acts).process).Some?
    ensures k < |acts| && acts[k] == Accept
    ensures Legal(w, acts[..k]) && StatusOk(After(w, acts[..k]))
    ensures Some(After(w, acts[..k]).live) == FilesOf(After(w, acts).process)
    ensures Enabled(After(w, acts[..k]), Accept) && After(w, acts[..k]).process.t == After(w, acts).process.t
    decreases |acts|
  {
    var n := |acts| - 1;
    LastStep(w, acts);
    var before := After(w, acts[..n]);
    if acts[n] == Accept {
      k := n;
    } else {
      FilesOnlyFromAccept(before, acts[n]);
      k := CommittedFilesWereAccepted(w, acts[..n]);
      assert acts[..n][..k] == acts[..k];
    }
  }

  lemma FilesOnlyFromAccept(w: World, a: Act)
    requires Enabled(w, a) && a != Accept && FilesOf(Do(w, a).process).Some?
    ensures FilesOf(w.process) == FilesOf(Do(w, a).process) && w.process.t == Do(w, a).process.t
  {
    hide StatusOk;
  }

  // ---------------------------------------------------------------- where settled files come from

  // Step k wrote these files while no transaction was open.
  ghost predicate EditedAt(w: World, acts: seq<Act>, k: int, files: Owned) {
    && 0 <= k < |acts| && acts[k].Edit? && acts[k].disk.files == files
    && Legal(w, acts[..k]) && After(w, acts[..k]).marker.None?
  }

  // These files are the ones live when the doctor said ok at step k, with that transaction's receipts.
  ghost predicate AcceptedAt(w: World, acts: seq<Act>, k: int, name: Rel, files: Owned) {
    && 0 <= k < |acts| && acts[k] == Accept && Legal(w, acts[..k])
    && var u := After(w, acts[..k]);
    && Enabled(u, Accept) && StatusOk(u) && InstalledVersion(u.live) == Some(u.process.t.current)
    && ReceiptName(name) && State in u.live.dirs && files == WithReceipts(u.live, name, u.process.t)
  }

  ghost predicate FromRun(w: World, acts: seq<Act>, files: Owned) {
    || files == w.live
    || (exists k :: EditedAt(w, acts, k, files))
    || (exists k, name :: AcceptedAt(w, acts, k, name, files))
  }

  lemma FromLongerRun(w: World, acts: seq<Act>, n: nat, files: Owned)
    requires n <= |acts| && FromRun(w, acts[..n], files)
    ensures FromRun(w, acts, files)
  {
    hide Enabled, StatusOk, WithReceipts;
    if k :| EditedAt(w, acts[..n], k, files) {
      assert acts[..n][..k] == acts[..k];
      assert EditedAt(w, acts, k, files);
    } else if k, name :| AcceptedAt(w, acts[..n], k, name, files) {
      assert acts[..n][..k] == acts[..k];
      assert AcceptedAt(w, acts, k, name, files);
    }
  }

  lemma CommitIsFromRun(w: World, acts: seq<Act>)
    requires Settled(w) && Legal(w, acts) && Inv(After(w, acts)) && After(w, acts).process.Receipted?
    ensures FromRun(w, acts, After(w, acts).live)
  {
    var p := After(w, acts).process;
    var k := CommittedFilesWereAccepted(w, acts);
    assert InstalledVersion(p.files) == Some(p.t.current) && ReceiptName(p.name);
    hide Enabled, Do, Inv, StatusOk, Legal, After, Settled;
    assert AcceptedAt(w, acts, k, p.name, After(w, acts).live);
  }

  // A commit that may still be written back.
  ghost predicate Unsettled(w: World, files: Owned) {
    && w.process.Unlinked? && w.process.ending == Committed
    && w.process.t.snapshot in w.snaps && w.snaps[w.process.t.snapshot].copy == files
  }

  ghost predicate UnsettledFromRun(w: World, acts: seq<Act>)
    requires Legal(w, acts)
  {
    var v := After(w, acts);
    forall files :: Unsettled(v, files) ==> FromRun(w, acts, files)
  }

  lemma UnsettledOnlyByCommit(w: World, a: Act, files: Owned)
    requires Inv(w) && Enabled(w, a) && !a.DoubleFault? && Unsettled(Do(w, a), files)
    ensures w.process.Receipted? && a == Unlink && w.base == files && Do(w, a).base == w.live
  {
    hide Coherent, Intact, StatusOk, WithReceipts, PutState;
  }

  lemma {:induction false} BaseIsFromRun(w: World, acts: seq<Act>)
    requires Settled(w) && Legal(w, acts) && NoDoubleFault(acts)
    ensures FromRun(w, acts, After(w, acts).base)
    ensures UnsettledFromRun(w, acts)
    decreases |acts|
  {
    hide Enabled, Do, Inv, Settled, FromRun, UnsettledFromRun;
    if acts == [] {
      StartIsFromRun(w);
    } else {
      var n := |acts| - 1;
      LastStep(w, acts);
      SettledInv(w);
      RunKeepsInv(w, acts[..n]);
      BaseIsFromRun(w, acts[..n]);
      BaseStep(w, acts);
    }
  }

  lemma StartIsFromRun(w: World)
    requires Settled(w)
    ensures FromRun(w, [], w.base) && UnsettledFromRun(w, [])
  {
  }

  lemma BaseStep(w: World, acts: seq<Act>)
    requires Settled(w) && acts != [] && Legal(w, acts) && NoDoubleFault(acts)
    requires Legal(w, acts[..|acts| - 1]) && Inv(After(w, acts[..|acts| - 1]))
    requires FromRun(w, acts[..|acts| - 1], After(w, acts[..|acts| - 1]).base)
    requires UnsettledFromRun(w, acts[..|acts| - 1])
    ensures FromRun(w, acts, After(w, acts).base)
    ensures UnsettledFromRun(w, acts)
  {
    hide Inv, Settled, Accepted, FromRun;
    var n := |acts| - 1;
    LastStep(w, acts);
    var u := After(w, acts[..n]);
    FromLongerRun(w, acts, n, u.base);
    hide Enabled, Do, Legal, After;
    assert acts[n] in acts;
    forall files | Unsettled(After(w, acts), files) ensures FromRun(w, acts, files) {
      UnsettledOnlyByCommit(u, acts[n], files);
    }
    if After(w, acts).base != u.base {
      BaseChange(w, acts);
    }
  }

  lemma BaseChange(w: World, acts: seq<Act>)
    requires Settled(w) && acts != [] && Legal(w, acts) && NoDoubleFault(acts)
    requires Legal(w, acts[..|acts| - 1]) && Inv(After(w, acts[..|acts| - 1]))
    requires UnsettledFromRun(w, acts[..|acts| - 1])
    requires After(w, acts).base != After(w, acts[..|acts| - 1]).base
    ensures FromRun(w, acts, After(w, acts).base)
  {
    hide Inv, Settled, Accepted, FromRun, Enabled, Do, Legal, After;
    var n := |acts| - 1;
    LastStep(w, acts);
    var u := After(w, acts[..n]);
    assert acts[n] in acts;
    WhatSettles(u, acts[n]);
    var base := After(w, acts).base;
    if acts[n].Edit? {
      assert EditedAt(w, acts, n, base);
      EditIsFromRun(w, acts, n, base);
    } else if acts[n].Unlink? {
      CommitIsFromRun(w, acts[..n]);
      UnlinkSettlesLive(u);
      FromLongerRun(w, acts, n, u.live);
    } else {
      assert Unsettled(u, base);
      FromLongerRun(w, acts, n, base);
    }
  }

  lemma EditIsFromRun(w: World, acts: seq<Act>, k: nat, files: Owned)
    requires EditedAt(w, acts, k, files)
    ensures FromRun(w, acts, files)
  {
  }

  lemma UnlinkSettlesLive(w: World)
    requires Enabled(w, Unlink) && w.process.Receipted?
    ensures Do(w, Unlink).base == w.live
  {
  }

  // At every point of every run, wherever crashes and failures fall: a marker names an intact
  // snapshot of the files as they were before the switch, and without a marker the files are
  // exactly the ones that last settled.  Either way the settled files are those of the start, those
  // of an edit while no transaction was open, or those a doctor accepted with their receipts.
  lemma JournalIsSafe(w: World, acts: seq<Act>)
    requires Settled(w) && Legal(w, acts) && NoDoubleFault(acts)
    ensures var v := After(w, acts);
      && (v.marker.Some? ==>
            var t := v.marker.value;
            t.snapshot in v.snaps && Intact(v.snaps[t.snapshot]) && VerifiedSnapshot(v.snaps[t.snapshot])
            && v.snaps[t.snapshot].copy == v.base && InstalledVersion(v.base) == Some(t.previous))
      && (v.marker.None? ==> v.live == v.base && FromRun(w, acts, v.live))
      && FromRun(w, acts, v.base)
  {
    SettledInv(w);
    RunKeepsInv(w, acts);
    BaseIsFromRun(w, acts);
    hide FromRun;
    var v := After(w, acts);
    if v.marker.Some? {
      IntactVerifies(v.snaps[v.marker.value.snapshot]);
    }
  }

  // ---------------------------------------------------------------- the one unsafe window

  // Once the marker of a switch is gone and could not be written back, the files are no longer
  // protected: the very next rename and a crash leave neither the old files nor the new ones, and
  // no marker.  Only where the accepted release has something of the wrong kind at an owned place
  // does the undo refuse to begin.
  lemma DoubleFaultIsUnsafe(w: World)
    requires Inv(w) && w.process.Receipted?
    ensures var acts := [Unlink, DoubleFault, Restore(DirOut(State)), Crash];
      && (Legal(w, acts) <==> w.obstructed == {})
      && (Legal(w, acts) ==>
            var v := After(w, acts);
            && v.process.Idle? && v.marker.None?
            && v.live != v.base && v.live != w.snaps[w.process.t.snapshot].copy)
  {
    var m := Restore(DirOut(State));
    UnlinkThenDoubleFault(w);
    var w2 := Do(Do(w, Unlink), DoubleFault);
    if w.obstructed == {} {
      RenameThenCrash(w2);
      LegalFour(w, Unlink, DoubleFault, m, Crash);
    } else {
      ObstructedStays(w2, DirOut(State));
      if Legal(w, [Unlink, DoubleFault, m, Crash]) {
        LegalThird(w, Unlink, DoubleFault, m, Crash);
      }
    }
    hide Enabled, Do, Inv;
  }

  lemma ObstructedStays(w: World, m: Move)
    requires w.obstructed != {}
    ensures !Enabled(w, Restore(m))
  {
  }

  lemma LegalThird(w: World, a: Act, b: Act, c: Act, d: Act)
    requires Legal(w, [a, b, c, d])
    ensures Enabled(w, a) && Enabled(Do(w, a), b) && Enabled(Do(Do(w, a), b), c)
  {
    hide Enabled, Do;
    assert [a, b, c, d][1..] == [b, c, d] && [b, c, d][1..] == [c, d];
    assert Legal(Do(w, a), [b, c, d]);
    assert Legal(Do(Do(w, a), b), [c, d]);
  }

  // The half-undone files stay without a marker however far the undo gets, and it ends with the old
  // files exactly when it completes: the restored release's doctor runs on nothing else.
  lemma DoubleFaultUndone(w: World, moves: seq<Act>)
    requires Inv(w) && w.process.Receipted? && Legal(w, [Unlink, DoubleFault] + moves)
    requires forall a :: a in moves ==> a.Restore?
    ensures var v := After(w, [Unlink, DoubleFault] + moves);
      && v.marker.None?
      && (Enabled(v, RestoredBack) <==> v.live == w.base && v.binDirs == Required(BinKeys(w.base)))
  {
    var all := [Unlink, DoubleFault] + moves;
    assert all[1..][1..] == moves;
    UnlinkThenDoubleFault(w);
    var u := Do(Do(w, Unlink), DoubleFault);
    UndoOnlyMoves(u, moves);
    UndoIsBack(After(u, moves), w.process.t);
    hide Inv, Enabled, Do, Required;
  }

  lemma UndoIsBack(w: World, t: Pending)
    requires w.process == UndoOf(t) && t.snapshot in w.snaps
    ensures Enabled(w, RestoredBack) <==> RestoredTo(DiskOf(w), w.snaps[t.snapshot].copy)
  {
    hide RestoredTo;
  }

  function UndoOf(t: Pending): Process {
    Restoring(t, t.snapshot, Undo)
  }

  lemma {:induction false} UndoOnlyMoves(w: World, moves: seq<Act>)
    requires (forall a :: a in moves ==> a.Restore?) && Legal(w, moves)
    ensures After(w, moves) == w.(live := After(w, moves).live, binDirs := After(w, moves).binDirs)
    decreases moves
  {
    if moves != [] {
      assert moves[0] in moves && forall a :: a in moves[1..] ==> a in moves;
      UndoOnlyMoves(Do(w, moves[0]), moves[1..]);
    }
  }

  lemma UnlinkThenDoubleFault(w: World)
    requires Inv(w) && w.process.Receipted?
    ensures Enabled(w, Unlink) && Enabled(Do(w, Unlink), DoubleFault)
    ensures var v := Do(Do(w, Unlink), DoubleFault);
      && v.process == UndoOf(w.process.t) && v.marker.None?
      && v.live == w.live && v.base == w.live && v.snaps == w.snaps && v.obstructed == w.obstructed
      && w.process.t.snapshot in w.snaps && Complete(w.snaps[w.process.t.snapshot].copy)
      && State in v.live.dirs && w.snaps[w.process.t.snapshot].copy == w.base
  {
    ReceiptedFacts(w);
    CommitUnlinks(w);
    UnmarkedUndo(Do(w, Unlink));
    hide Inv, Complete, Enabled, Do;
  }

  lemma CommitUnlinks(w: World)
    requires w.process.Receipted? && OwnMarker(w, w.process.t)
    ensures Enabled(w, Unlink)
    ensures Do(w, Unlink) == w.(marker := None, process := Unlinked(w.process.t, Committed), base := w.live)
  {
    hide OwnMarker;
  }

  lemma UnmarkedUndo(w: World)
    requires w.process.Unlinked? && w.process.ending == Committed
    ensures Enabled(w, DoubleFault) && Do(w, DoubleFault) == w.(process := UndoOf(w.process.t))
  {
  }

  lemma ReceiptedFacts(w: World)
    requires Inv(w) && w.process.Receipted?
    ensures OwnMarker(w, w.process.t) && State in w.live.dirs
    ensures w.process.t.snapshot in w.snaps && Complete(w.snaps[w.process.t.snapshot].copy)
    ensures w.snaps[w.process.t.snapshot].copy == w.base
  {
    hide Coherent, TreeLike, Accepted, BinSound;
  }

  lemma RenameThenCrash(w: World)
    requires w.process.Restoring? && w.process.source in w.snaps && State in w.live.dirs && w.obstructed == {}
    ensures var m := Restore(DirOut(State));
      && Enabled(w, m) && Enabled(Do(w, m), Crash)
      && var v := Do(Do(w, m), Crash);
      && v.process.Idle? && v.marker == w.marker && v.base == w.base && State !in v.live.dirs
  {
    assert MoveEnabled(w.snaps[w.process.source].copy, DiskOf(w), DirOut(State));
  }

  lemma LegalFour(w: World, a: Act, b: Act, c: Act, d: Act)
    requires Enabled(w, a)
    requires Enabled(Do(w, a), b)
    requires Enabled(Do(Do(w, a), b), c)
    requires Enabled(Do(Do(Do(w, a), b), c), d)
    ensures Legal(w, [a, b, c, d]) && After(w, [a, b, c, d]) == Do(Do(Do(Do(w, a), b), c), d)
  {
    hide Enabled;
    hide Do;
    assert [a, b, c, d][1..] == [b, c, d] && [b, c, d][1..] == [c, d] && [c, d][1..] == [d] && [d][1..] == [];
    var w1 := Do(w, a);
    var w2 := Do(w1, b);
    var w3 := Do(w2, c);
    assert Legal(w3, [d]) && After(w3, [d]) == After(Do(w3, d), []);
    assert Legal(w2, [c, d]) && After(w2, [c, d]) == After(w3, [d]);
    assert Legal(w1, [b, c, d]) && After(w1, [b, c, d]) == After(w2, [c, d]);
  }

  // ---------------------------------------------------------------- resumable recovery

  // Whatever interrupted it, a switch can be recovered: the marker validates and no nonce is live.
  lemma RecoveryIsAlwaysOpen(w: World)
    requires Inv(w) && w.process.Idle? && w.marker.Some?
    ensures Enabled(w, Recover)
  {
    IntactVerifies(w.snaps[w.marker.value.snapshot]);
  }

  // No step, not even of a restore or of a failed one, changes a sealed snapshot.
  lemma SnapshotsAreKept(w: World, a: Act)
    requires Inv(w) && Enabled(w, a)
    ensures KeepsSealed(w.snaps, Do(w, a).snaps)
  {
    hide Coherent, Intact, StatusOk, Moved, MoveEnabled, BinSound, Sound;
  }

  // Recovery attempts may be cut anywhere and repeated; the one that clears the marker leaves the
  // files of the snapshot it was taken from.
  lemma RecoveryRestoresSnapshot(w: World)
    requires Inv(w) && w.process.Proving? && Enabled(w, Unlink)
    ensures var t := w.process.t; t.snapshot in w.snaps && w.live == w.snaps[t.snapshot].copy
    ensures Do(w, Unlink).marker.None? && Do(w, Unlink).live == w.snaps[w.process.t.snapshot].copy
  {
  }

  // ---------------------------------------------------------------- receipts and doctors

  // Without a marker, the latest receipt is absent or names the installed version.
  lemma SettledReceiptNamesVersion(w: World)
    requires Inv(w) && w.marker.None?
    ensures InstalledVersion(w.live).Some? && ReceiptNames(LatestReceipt(w.live), InstalledVersion(w.live).value)
    ensures StatusOk(w)
  {
  }

  // status() is ok when the doctor of an undone or recovered release runs,
  lemma RestoredDoctorSeesOk(w: World)
    requires Inv(w) && w.process.Proving?
    ensures StatusOk(w)
  {
    MarkerIsValid(w);
    hide VerifiedSnapshot, Intact, TreeLike, ValidMarker;
  }

  lemma MarkerIsValid(w: World)
    requires Inv(w) && w.marker.Some?
    ensures ValidMarker(w)
  {
    IntactVerifies(w.snaps[w.marker.value.snapshot]);
    hide VerifiedSnapshot, ProcessSound, Coherent, BinSound;
  }

  // when the doctor of a rolled-back release runs,
  lemma RollbackDoctorSeesOk(w: World)
    requires Inv(w) && w.process.Restoring? && w.process.purpose == Forward
    requires w.process.source in w.snaps && w.live == w.snaps[w.process.source].copy
    ensures StatusOk(w) && InstalledVersion(w.live) == Some(w.process.t.current)
  {
    assert Running(w, w.process.t, {w.process.t.nonce}, {}) && PriorNamed(w, w.process.source, w.process.t.current)
      && Sound(w, w.process.t) && w.process.t.action == Rollback;
    PriorIsCoherent(w, w.process.source, w.process.t.current);
    IntactVerifies(w.snaps[w.process.t.snapshot]);
    hide Inv, Coherent, Intact, VerifiedSnapshot;
  }

  lemma PriorIsCoherent(w: World, prior: nat, current: Version)
    requires Coherent(w.snaps, w.base, w.unused) && PriorNamed(w, prior, current) && prior in w.snaps
    ensures InstalledVersion(w.snaps[prior].copy) == Some(current) && Intact(w.snaps[prior])
    ensures ReceiptNames(LatestReceipt(w.snaps[prior].copy), current)
  {
    assert Coherent(w.snaps, w.snaps[prior].copy, prior);
  }

  // and when a candidate has installed its version and left the receipts alone.
  lemma CandidateDoctorSeesOk(w: World)
    requires Inv(w) && w.process.Switching?
    requires InstalledVersion(w.live) == Some(w.process.t.current) && LatestReceipt(w.live) == LatestReceipt(w.base)
    ensures StatusOk(w)
  {
    MarkerIsValid(w);
    hide Intact, TreeLike, VerifiedSnapshot, ValidMarker, BinSound;
    assert Coherent(w.snaps, w.base, w.unused);
  }

  // The receipts inside every snapshot that a marker or a receipt names are coherent as well.
  lemma SnapshotReceiptsCoherent(w: World)
    requires Inv(w)
    ensures w.marker.Some? ==> Coherent(w.snaps, w.snaps[w.marker.value.snapshot].copy, w.unused)
    ensures LatestReceipt(w.base).Readable? ==>
      var r := LatestReceipt(w.base).receipt;
      r.snapshot in w.snaps && Coherent(w.snaps, w.snaps[r.snapshot].copy, w.unused)
      && InstalledVersion(w.snaps[r.snapshot].copy) == Some(r.previous)
  {
    if w.marker.Some? {
      var t := w.marker.value;
      CoherentKept(w.snaps, w.snaps, w.snaps[t.snapshot].copy, t.snapshot, w.unused);
    }
    if LatestReceipt(w.base).Readable? {
      var r := LatestReceipt(w.base).receipt;
      CoherentKept(w.snaps, w.snaps, w.snaps[r.snapshot].copy, r.snapshot, w.unused);
    }
  }

  // ---------------------------------------------------------------- no authority from a stale marker

  // A marker its process no longer owns.
  ghost predicate Stale(w: World, t: Pending) {
    && w.marker == Some(t) && t.nonce !in w.active
    && (w.process.Idle? || w.process.Capturing? || w.process.Sealed?
        || (w.process.Restoring? && w.process.t == t && w.process.purpose == Recovery)
        || (w.process.Proving? && w.process.t == t))
  }

  // status() never calls a stale marker healthy; only its own recovery, once the files are back,
  // runs a doctor that may pass.
  lemma StaleIsNeverOk(w: World, t: Pending)
    requires Inv(w) && Stale(w, t)
    ensures StatusOk(w) <==> w.process.Proving?
  {
    if w.process.Proving? {
      RestoredDoctorSeesOk(w);
    }
    hide Coherent, Intact, VerifiedSnapshot, InstalledVersion, LatestReceipt;
  }

  // One step under a stale marker: no install is authorised, no transaction can begin, and the
  // marker stays, with its snapshot unchanged, unless a recovery of this very marker clears it.
  lemma StaleStep(w: World, t: Pending, a: Act)
    requires Inv(w) && Stale(w, t) && Enabled(w, a)
    ensures forall v :: !Authorizes(w, v)
    ensures !a.Begin? && !a.BeginFault? && !a.CandidateWrite? && !a.Archive? && !a.WriteLatest?
    ensures t.snapshot in Do(w, a).snaps && Do(w, a).snaps[t.snapshot] == w.snaps[t.snapshot]
    ensures Stale(Do(w, a), t) || (a.Unlink? && w.process.Proving? && w.process.t == t && Do(w, a).marker.None?)
  {
  }

  // In every continuation of a stale marker, either it is still there, still without authority,
  // or some step of the run was the recovery of this marker clearing it.
  lemma {:induction false} StaleUntilRecovered(w: World, t: Pending, acts: seq<Act>)
    requires Inv(w) && Stale(w, t) && Legal(w, acts) && NoDoubleFault(acts)
    ensures
      || (Stale(After(w, acts), t) && (forall v :: !Authorizes(After(w, acts), v))
          && t.snapshot in After(w, acts).snaps && After(w, acts).snaps[t.snapshot] == w.snaps[t.snapshot])
      || (exists k :: 0 <= k < |acts| && ClearsAt(w, acts, k, t))
    decreases acts
  {
    if acts == [] {
      StaleHasNoAuthority(w, t);
    } else {
      StaleStep(w, t, acts[0]);
      assert acts[0] in acts;
      StepKeepsInv(w, acts[0]);
      var v := Do(w, acts[0]);
      if Stale(v, t) {
        StaleUntilRecovered(v, t, acts[1..]);
        if exists k :: 0 <= k < |acts| - 1 && ClearsAt(v, acts[1..], k, t) {
          var k :| 0 <= k < |acts| - 1 && ClearsAt(v, acts[1..], k, t);
          ClearsLater(w, acts, k, t);
        }
      } else {
        ClearsFirst(w, acts, t);
      }
    }
  }

  // The k-th step is a recovery of this marker unlinking it.
  ghost predicate ClearsAt(w: World, acts: seq<Act>, k: nat, t: Pending) {
    && k < |acts| && Legal(w, acts[..k]) && acts[k] == Unlink
    && var before := After(w, acts[..k]);
    before.process == Proving(t) && before.marker == Some(t)
  }

  lemma ClearsFirst(w: World, acts: seq<Act>, t: Pending)
    requires acts != [] && acts[0] == Unlink && w.process == Proving(t) && w.marker == Some(t)
    ensures ClearsAt(w, acts, 0, t)
  {
    assert acts[..0] == [];
  }

  lemma ClearsLater(w: World, acts: seq<Act>, k: nat, t: Pending)
    requires acts != [] && Enabled(w, acts[0]) && ClearsAt(Do(w, acts[0]), acts[1..], k, t)
    ensures ClearsAt(w, acts, k + 1, t)
  {
    hide Enabled;
    hide Do;
    assert acts[..k + 1][0] == acts[0] && acts[..k + 1][1..] == acts[1..][..k];
  }

  lemma StaleHasNoAuthority(w: World, t: Pending)
    requires Stale(w, t)
    ensures forall v :: !Authorizes(w, v)
  {
  }

  // ---------------------------------------------------------------- authority of the live update

  // The process runs this update and has not let go of its nonce: its candidate is at work, or its
  // files are being put back.
  predicate Updating(w: World, t: Pending) {
    && t.action == Update
    && (w.process == Switching(t) || w.process == UndoOf(t)
        || (w.process == Proving(t) && w.active != {})
        || (w.process.Checked? && w.process.t == t) || (w.process.Archived? && w.process.t == t)
        || (w.process.Receipted? && w.process.t == t))
  }

  // An install of another version is authorised exactly for the candidate of the update this process
  // runs, and exactly while the version it leaves is still the installed one.
  lemma AuthorizedIff(w: World, v: Version)
    requires Inv(w)
    ensures Authorizes(w, v) <==>
      exists t :: Updating(w, t) && v == t.current && InstalledVersion(w.live) == Some(t.previous)
  {
    hide Coherent, TreeLike, InstalledVersion;
    if w.marker.Some? {
      MarkerIsValid(w);
      hide ValidMarker;
      if Authorizes(w, v) {
        assert Updating(w, w.marker.value);
      }
    }
    forall t | Updating(w, t) ensures w.marker == Some(t) && t.nonce in w.active && t.previous != t.current {
    }
  }

  // Right after its marker is written, an update is authorised for its candidate and nothing else.
  lemma BegunIsAuthorized(w: World, v: Version)
    requires Inv(w) && Enabled(w, Begin)
    ensures Authorizes(Do(w, Begin), v) <==> w.process.job.UpdateJob? && v == w.process.job.current
  {
    StepKeepsInv(w, Begin);
    AuthorizedIff(Do(w, Begin), v);
    hide Coherent, TreeLike, Authorizes, Intact;
  }

  // And it stays so until its candidate has written another version.
  lemma WrittenIsAuthorized(w: World, disk: OnDisk, v: Version)
    requires Inv(w) && w.process.Switching?
    ensures Authorizes(Do(w, CandidateWrite(disk)), v) <==>
      v == w.process.t.current && InstalledVersion(disk.files) == Some(w.process.t.previous)
  {
    StepKeepsInv(w, CandidateWrite(disk));
    AuthorizedIff(Do(w, CandidateWrite(disk)), v);
    hide Coherent, TreeLike, Authorizes, Intact;
  }

  // ---------------------------------------------------------------- status, in every state

  // Without a marker status is ok; with one it is ok exactly for a candidate, or a restored or
  // rolled-back release, whose version is the one its process is about and whose receipt is the one
  // that version came with.
  lemma StatusIff(w: World)
    requires Inv(w)
    ensures StatusOk(w) <==>
      || w.marker.None?
      || w.process.Proving?
      || (&& w.marker.value.nonce in w.active
          && var t := w.marker.value;
          && InstalledVersion(w.live) == Some(t.current)
          && ReceiptNames(LatestReceipt(w.live), if t.action == Rollback then t.current else t.previous))
  {
    if w.marker.None? {
      SettledReceiptNamesVersion(w);
    } else if w.process.Proving? {
      RestoredDoctorSeesOk(w);
    } else {
      MarkerIsValid(w);
      hide ValidMarker, Coherent, TreeLike, InstalledVersion, LatestReceipt;
    }
  }

  // A settled installation can be rolled back exactly if it has a receipt, and then to the version
  // and the files before the transaction that wrote it.
  lemma RollbackAllowedIff(w: World)
    requires Inv(w) && w.marker.None?
    ensures RollbackAllowed(w) <==> !LatestReceipt(w.live).NoReceipt?
    ensures RollbackAllowed(w) ==>
      var r := LatestReceipt(w.live).receipt;
      && InstalledVersion(w.live) == Some(r.current) && r.previous != r.current
      && r.snapshot in w.snaps && Intact(w.snaps[r.snapshot])
      && InstalledVersion(w.snaps[r.snapshot].copy) == Some(r.previous)
  {
    assert w.live == w.base && Coherent(w.snaps, w.base, w.unused);
    if LatestReceipt(w.live).Readable? {
      IntactVerifies(w.snaps[LatestReceipt(w.live).receipt.snapshot]);
    }
    hide Intact, VerifiedSnapshot, ProcessSound;
  }

  // ---------------------------------------------------------------- when recovery can complete

  // What a restore of one set of files over the present ones needs: nothing of the wrong kind stands
  // at any owned place, and nothing in `bin` where it needs something else.
  predicate Fits(disk: DiskFiles, source: Owned) {
    disk.obstructed == {} && NoClash(BinOf(disk), BinFiles(source))
  }

  // The transaction's snapshot can be put back.
  ghost predicate Clear(w: World, t: Pending) {
    t.snapshot in w.snaps && Fits(DiskOf(w), w.snaps[t.snapshot].copy)
  }

  // Every file of the snapshot's `bin` that was in `start` is in the live `bin`, old or new.
  ghost predicate BinStable(start: Tree, w: World, t: Pending) {
    t.snapshot in w.snaps && Stable(start, BinFiles(w.live), BinFiles(w.snaps[t.snapshot].copy))
  }

  lemma MoveIsStable(source: Owned, disk: DiskFiles, m: Move, start: Tree)
    requires Real(disk) && TreeLike(BinKeys(source)) && MoveEnabled(source, disk, m)
    ensures var after := Moved(source, disk, m);
      && (Fits(after, source) <==> Fits(disk, source))
      && (Stable(start, BinFiles(disk.files), BinFiles(source)) ==>
            Stable(start, BinFiles(after.files), BinFiles(source)))
  {
    hide TreeLike, CanStep, Stepped, NoClash, Stable, WellFormed;
    if m.InBin? {
      ClashStays(source.dirs[Bin], BinOf(disk), m.step);
      if Stable(start, BinFiles(disk.files), BinFiles(source)) {
        StepIsStable(start, source.dirs[Bin], BinOf(disk), m.step);
      }
    } else {
      assert BinOf(Moved(source, disk, m)) == BinOf(disk);
    }
  }

  lemma StaleMove(w: World, t: Pending, m: Move, start: Tree)
    requires Inv(w) && Stale(w, t) && Enabled(w, Restore(m))
    ensures var v := Do(w, Restore(m));
      (Clear(v, t) <==> Clear(w, t)) && (BinStable(start, w, t) ==> BinStable(start, v, t))
  {
    SourceIsTree(w);
    assert w.process.source == t.snapshot;
    MoveIsStable(w.snaps[t.snapshot].copy, DiskOf(w), m, start);
    hide Core, TreeLike, Fits, Stable, MoveEnabled, Moved;
  }

  // No step under a stale marker but an edit by hand makes or resolves what keeps the snapshot from
  // being put back, or takes a file of its `bin` away; and the recovery can only be over if it fits.
  lemma StaleBinStep(w: World, t: Pending, a: Act, start: Tree)
    requires Inv(w) && Stale(w, t) && Enabled(w, a) && !a.Edit?
    ensures var v := Do(w, a);
      if Stale(v, t) then (Clear(v, t) <==> Clear(w, t)) && (BinStable(start, w, t) ==> BinStable(start, v, t))
      else Clear(w, t)
  {
    StaleStep(w, t, a);
    if a.Restore? {
      StaleMove(w, t, a.m, start);
    } else if Stale(Do(w, a), t) {
      StaleStepKeepsDisk(w, t, a);
      hide Inv, Fits, Stable, Enabled, Do, Stale;
    } else {
      RecoveryRestoresSnapshot(w);
      SnapshotIsComplete(w);
      CompleteIsUnobstructed(DiskOf(w));
      PlacedIsClear(BinFiles(w.live), BinOf(DiskOf(w)));
      hide NoClash, Core, WellFormed, Do, Enabled;
    }
  }

  lemma SnapshotIsComplete(w: World)
    requires Inv(w) && w.process.Proving?
    ensures w.process.t.snapshot in w.snaps && Complete(w.snaps[w.process.t.snapshot].copy)
  {
    hide TreeLike;
  }

  lemma StaleStepKeepsDisk(w: World, t: Pending, a: Act)
    requires Inv(w) && Stale(w, t) && Enabled(w, a) && !a.Edit? && !a.Restore?
    ensures Stale(Do(w, a), t) ==> DiskOf(Do(w, a)) == DiskOf(w)
  {
    hide Coherent, Intact, VerifiedSnapshot, StatusOk;
  }

  // Recovery may be tried, fail and be cut any number of times: until it has cleared its marker, no
  // file of the snapshot's `bin` that was there is missing or half written; and it clears the
  // marker only if the snapshot fitted to begin with.
  lemma {:induction false} RecoveryAttempts(w: World, t: Pending, acts: seq<Act>, start: Tree)
    requires Inv(w) && Stale(w, t) && BinStable(start, w, t) && Legal(w, acts)
    requires forall a :: a in acts ==> !a.Edit? && !a.DoubleFault?
    ensures
      || (Stale(After(w, acts), t) && BinStable(start, After(w, acts), t)
          && (Clear(After(w, acts), t) <==> Clear(w, t)))
      || (Clear(w, t) && exists k :: 0 <= k < |acts| && ClearsAt(w, acts, k, t))
    decreases acts
  {
    hide Inv, Enabled, Do, Stale, BinStable, Clear;
    if acts != [] {
      var a, v := acts[0], Do(w, acts[0]);
      assert a in acts && forall b :: b in acts[1..] ==> b in acts;
      StaleBinStep(w, t, a, start);
      StepKeepsInv(w, a);
      if Stale(v, t) {
        RecoveryAttempts(v, t, acts[1..], start);
        if exists k :: 0 <= k < |acts| - 1 && ClearsAt(v, acts[1..], k, t) {
          var k :| 0 <= k < |acts| - 1 && ClearsAt(v, acts[1..], k, t);
          ClearsLater(w, acts, k, t);
        }
      } else {
        StaleStep(w, t, a);
        StaleMarks(w, t);
        ClearsFirst(w, acts, t);
      }
    }
  }

  lemma StaleMarks(w: World, t: Pending)
    requires Stale(w, t)
    ensures w.marker == Some(t)
  {
  }

  // So a snapshot that does not fit keeps its marker through any number of attempts, until someone
  // edits the files.
  lemma ClashBlocksRecovery(w: World, t: Pending, acts: seq<Act>)
    requires Inv(w) && Stale(w, t) && !Clear(w, t) && Legal(w, acts)
    requires forall a :: a in acts ==> !a.Edit? && !a.DoubleFault?
    ensures Stale(After(w, acts), t) && !Clear(After(w, acts), t)
  {
    MarkerIsSound(w);
    RecoveryAttempts(w, t, acts, map[]);
  }

  lemma MarkerIsSound(w: World)
    requires Inv(w) && w.marker.Some?
    ensures w.marker.value.snapshot in w.snaps && w.snaps[w.marker.value.snapshot].copy == w.base
  {
  }

  // Whatever a candidate left over which the old files do not fit, a crash leaves a marker that is
  // valid and from which recovery may start, but however often it is tried, nothing but an edit of the
  // files by hand lets it clear the marker.
  lemma UnfitBlocksRecovery(w: World, disk: OnDisk, acts: seq<Act>)
    requires Inv(w) && w.process.Switching? && !Fits(disk, w.base)
    requires Legal(w, [CandidateWrite(disk), Crash] + acts)
    requires forall a :: a in acts ==> !a.Edit? && !a.DoubleFault?
    ensures var u := Do(Do(w, CandidateWrite(disk)), Crash); Enabled(u, Recover)
    ensures After(w, [CandidateWrite(disk), Crash] + acts).marker == w.marker
  {
    var all := [CandidateWrite(disk), Crash] + acts;
    var v := Do(w, all[0]);
    var u := Do(v, all[1]);
    assert all[1..][1..] == acts;
    UnfitIsStuck(w, disk);
    hide Inv, Stale, Clear, Enabled, Do;
    RecoveryIsAlwaysOpen(u);
    ClashBlocksRecovery(u, w.process.t, acts);
    StaleMarks(After(u, acts), w.process.t);
  }

  lemma UnfitIsStuck(w: World, disk: OnDisk)
    requires Inv(w) && w.process.Switching? && !Fits(disk, w.base)
    ensures Enabled(w, CandidateWrite(disk)) && Enabled(Do(w, CandidateWrite(disk)), Crash)
    ensures var u := Do(Do(w, CandidateWrite(disk)), Crash);
      Inv(u) && u.process.Idle? && u.marker == w.marker == Some(w.process.t)
      && Stale(u, w.process.t) && !Clear(u, w.process.t)
  {
    MarkerIsSound(w);
    SwitchingMarker(w);
    hide Inv, Fits, StatusOk, MoveEnabled, Moved;
    var v := Do(w, CandidateWrite(disk));
    StepKeepsInv(w, CandidateWrite(disk));
    StepKeepsInv(v, Crash);
  }

  lemma SwitchingMarker(w: World)
    requires Inv(w) && w.process.Switching?
    ensures w.marker == Some(w.process.t) && TreeLike(BinKeys(w.base)) && Complete(w.base)
  {
  }

  // What a candidate leaves when it ships a directory where the old release had a file of `bin`.
  function Overgrown(o: Owned, rel: Rel): DiskFiles
    requires rel in BinKeys(o)
  {
    var inside := rel + ["b"];
    DiskFiles(WithBin(o, map[inside := o.dirs[Bin][rel]]), Required({inside}), {})
  }

  lemma OvergrownIsReal(o: Owned, rel: Rel)
    requires rel in BinKeys(o) && TreeLike(BinKeys(o))
    ensures Real(Overgrown(o, rel))
    ensures !NoClash(BinOf(Overgrown(o, rel)), o.dirs[Bin])
  {
    var files := {rel + ["b"]};
    forall d, k | d in Required(files) && 0 < k < |d| ensures d[..k] in Required(files) {
      RequiredIsAncestorClosed(files, d, k);
    }
    assert BinKeys(Overgrown(o, rel).files) == files;
    assert (rel + ["b"])[..|rel|] == rel;
  }

  // What it leaves when a file stands where an owned directory was, or a directory where an external
  // file was.
  function Obstructing(o: Owned, place: Place): DiskFiles {
    match place
    case DirPlace(dir) =>
      DiskFiles(o.(dirs := o.dirs - {dir}), if dir == Bin then {} else Required(BinKeys(o)), {place})
    case FilePlace(e) => DiskFiles(o.(external := o.external - {e}), Required(BinKeys(o)), {place})
  }

  lemma ObstructingIsReal(o: Owned, place: Place)
    requires TreeLike(BinKeys(o)) && Bin in o.dirs
    ensures Real(Obstructing(o, place))
  {
  }

  // The failing inputs: a directory in the place of any file of the old `bin`,
  lemma DirectoryBlocksRecovery(w: World, rel: Rel, disk: OnDisk, acts: seq<Act>)
    requires Inv(w) && w.process.Switching? && rel in BinKeys(w.base) && disk == Overgrown(w.base, rel)
    requires Legal(w, [CandidateWrite(disk), Crash] + acts)
    requires forall a :: a in acts ==> !a.Edit? && !a.DoubleFault?
    ensures Enabled(Do(Do(w, CandidateWrite(disk)), Crash), Recover)
    ensures After(w, [CandidateWrite(disk), Crash] + acts).marker == w.marker
  {
    SwitchingMarker(w);
    OvergrownIsReal(w.base, rel);
    UnfitBlocksRecovery(w, disk, acts);
  }

  // and the wrong kind of thing at any owned place.
  lemma ObstructionBlocksRecovery(w: World, place: Place, disk: OnDisk, acts: seq<Act>)
    requires Inv(w) && w.process.Switching? && disk == Obstructing(w.base, place)
    requires Legal(w, [CandidateWrite(disk), Crash] + acts)
    requires forall a :: a in acts ==> !a.Edit? && !a.DoubleFault?
    ensures Enabled(Do(Do(w, CandidateWrite(disk)), Crash), Recover)
    ensures After(w, [CandidateWrite(disk), Crash] + acts).marker == w.marker
  {
    assert place in disk.obstructed;
    UnfitBlocksRecovery(w, disk, acts);
  }
}
