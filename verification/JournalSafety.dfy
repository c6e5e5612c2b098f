// What every run of the journal keeps (release_tools/updater.py, 836-1022, 1202-1235, 1458-1785).
module JournalSafety {
  import opened Basics
  import opened FileTrees
  import opened ReleaseFiles
  import opened InPlaceRestore
  import opened Journal

  // ---------------------------------------------------------------- coherence

  // The latest receipt is absent, or names the installed version and an intact earlier snapshot
  // of the version it replaced, whose own receipt is coherent in turn.
  ghost predicate Coherent(snaps: map<nat, Snapshot>, o: Owned, bound: nat)
    decreases bound
  {
    && InstalledVersion(o).Some?
    && match LatestReceipt(o)
       case NoReceipt => true
       case Unreadable => false
       case Readable(r) =>
         && r.current == InstalledVersion(o).value && r.previous != r.current
         && r.snapshot < bound && r.snapshot in snaps && Intact(snaps[r.snapshot])
         && InstalledVersion(snaps[r.snapshot].copy) == Some(r.previous)
         && Coherent(snaps, snaps[r.snapshot].copy, r.snapshot)
  }

  // Sealed snapshots stay as they are.
  ghost predicate KeepsSealed(before: map<nat, Snapshot>, after: map<nat, Snapshot>) {
    forall id :: id in before && before[id].manifest.Some? ==> id in after && after[id] == before[id]
  }

  lemma {:induction false} CoherentKept(
      before: map<nat, Snapshot>, after: map<nat, Snapshot>, o: Owned, bound: nat, higher: nat)
    requires KeepsSealed(before, after) && Coherent(before, o, bound) && bound <= higher
    ensures Coherent(after, o, higher)
    decreases bound
  {
    hide TreeLike;
    match LatestReceipt(o)
    case Readable(r) =>
      assert r.snapshot in before && before[r.snapshot].manifest.Some?;
      CoherentKept(before, after, before[r.snapshot].copy, r.snapshot, r.snapshot);
    case _ =>
  }

  // ---------------------------------------------------------------- the invariant

  // A transaction whose snapshot is intact, coherent, and of the version it leaves.
  ghost predicate Sound(w: World, t: Pending) {
    && t.previous != t.current && t.nonce < w.unused
    && t.snapshot in w.snaps && Intact(w.snaps[t.snapshot])
    && t.manifest == ManifestOf(w.snaps[t.snapshot].copy)
    && InstalledVersion(w.snaps[t.snapshot].copy) == Some(t.previous)
    && Coherent(w.snaps, w.snaps[t.snapshot].copy, t.snapshot)
  }

  // The snapshot a rollback returns to is the one the settled files' receipt names.
  ghost predicate PriorNamed(w: World, prior: nat, current: Version) {
    && LatestReceipt(w.base).Readable?
    && LatestReceipt(w.base).receipt.snapshot == prior && LatestReceipt(w.base).receipt.previous == current
  }

  // What a job relies on; with a stale marker present it can only be refused.
  ghost predicate JobSound(w: World, job: Job) {
    w.marker.None? ==>
      && job.previous != job.current
      && w.live == w.base
      && InstalledVersion(w.live) == Some(job.previous)
      && (job.RollbackJob? ==> PriorNamed(w, job.prior, job.current))
  }

  function WithReceipts(files: Owned, name: Rel, t: Pending): Owned
    requires State in files.dirs
  {
    PutState(PutState(files, name, ReceiptFile(t)), LATEST_RECEIPT, ReceiptFile(t))
  }

  // The files a doctor accepted: the target version, and for a rollback the exact prior snapshot.
  ghost predicate Accepted(w: World, t: Pending, files: Owned) {
    && InstalledVersion(files) == Some(t.current)
    && (t.action == Rollback ==>
          && LatestReceipt(w.base).Readable?
          && LatestReceipt(w.base).receipt.snapshot in w.snaps
          && files == w.snaps[LatestReceipt(w.base).receipt.snapshot].copy)
  }

  ghost predicate Running(w: World, t: Pending, active: set<nat>, recovering: set<nat>) {
    w.marker == Some(t) && w.active == active && w.recovering == recovering
  }

  ghost predicate Quiet(w: World) {
    w.active == {} && w.recovering == {} && (w.marker.None? ==> w.live == w.base)
  }

  ghost predicate ProcessSound(w: World) {
    match w.process
    case Idle => Quiet(w)
    case Capturing(job, id) =>
      && Quiet(w) && id in w.snaps && id + 1 == w.unused && w.snaps[id].manifest.None? && JobSound(w, job)
    case Sealed(job, id) =>
      && Quiet(w) && id in w.snaps && id + 1 == w.unused && Intact(w.snaps[id]) && w.snaps[id].copy == w.live
      && JobSound(w, job) && (w.marker.None? ==> Coherent(w.snaps, w.live, id))
    case Switching(t) => Running(w, t, {t.nonce}, {}) && t.action == Update
    case Stopping(t, prior) =>
      Running(w, t, {t.nonce}, {}) && t.action == Rollback && w.live == w.base && PriorNamed(w, prior, t.current)
    case Withdrawing(t) => Running(w, t, {t.nonce}, {}) && t.action == Rollback && w.live == w.base
    case Restoring(t, source, Forward) =>
      Running(w, t, {t.nonce}, {}) && t.action == Rollback && PriorNamed(w, source, t.current)
    case Restoring(t, source, Undo) => Running(w, t, {t.nonce}, {}) && source == t.snapshot
    case Restoring(t, source, Recovery) => Running(w, t, {}, {}) && source == t.snapshot
    case Proving(t) =>
      w.marker == Some(t) && w.active <= {t.nonce} && w.recovering == {t.nonce} && w.live == w.base
    case Checked(t, files) => Running(w, t, {t.nonce}, {}) && Accepted(w, t, files) && w.live == files
    case Archived(t, files, name) =>
      && Running(w, t, {t.nonce}, {}) && Accepted(w, t, files) && ReceiptName(name) && name != LATEST_RECEIPT
      && State in files.dirs && w.live == PutState(files, name, ReceiptFile(t))
    case Receipted(t, files, name) =>
      && Running(w, t, {t.nonce}, {}) && Accepted(w, t, files) && ReceiptName(name) && name != LATEST_RECEIPT
      && State in files.dirs && w.live == WithReceipts(files, name, t)
    case Unlinked(t, ending) =>
      && w.marker.None? && w.active <= {t.nonce} && w.recovering <= {t.nonce} && w.live == w.base && Sound(w, t)
      && (ending == Committed ==> w.active == {t.nonce} && w.recovering == {})
      && (ending == Cleared ==> w.snaps[t.snapshot].copy == w.base)
  }

  ghost predicate Core(w: World) {
    && (forall id :: id in w.snaps ==> id < w.unused)
    && Coherent(w.snaps, w.base, w.unused)
    && (w.marker.Some? ==> Sound(w, w.marker.value) && w.snaps[w.marker.value.snapshot].copy == w.base)
    && ProcessSound(w)
  }

  // What stands in `bin` is a tree a file system can hold.
  ghost predicate BinSound(w: World) {
    Real(DiskOf(w))
  }

  ghost predicate Inv(w: World) {
    Core(w) && BinSound(w)
  }

  // A settled installation with nothing running.
  ghost predicate Settled(w: World) {
    && w.process.Idle? && w.marker.None? && w.live == w.base && w.active == {} && w.recovering == {}
    && (forall id :: id in w.snaps ==> id < w.unused)
    && Coherent(w.snaps, w.live, w.unused)
    && BinSound(w)
  }

  // ---------------------------------------------------------------- each step keeps it

  lemma SoundKept(w: World, v: World, t: Pending)
    requires Sound(w, t) && KeepsSealed(w.snaps, v.snaps) && v.unused >= w.unused
    ensures Sound(v, t) && v.snaps[t.snapshot] == w.snaps[t.snapshot]
  {
    CoherentKept(w.snaps, v.snaps, w.snaps[t.snapshot].copy, t.snapshot, t.snapshot);
  }

  lemma ReceiptNamesAreTheirOwn()
    ensures !ReceiptName(INSTALL_STATE) && ReceiptName(LATEST_RECEIPT)
  {
    assert INSTALL_STATE[0][0] != "release-transaction-"[0];
  }

  lemma NewReceiptCoherent(w: World, t: Pending, files: Owned, name: Rel)
    requires Sound(w, t) && State in files.dirs && InstalledVersion(files) == Some(t.current)
    requires (forall id :: id in w.snaps ==> id < w.unused) && ReceiptName(name) && name != LATEST_RECEIPT
    ensures Coherent(w.snaps, WithReceipts(files, name, t), w.unused)
    ensures LatestReceipt(WithReceipts(files, name, t)) == Readable(ReceiptFor(t))
    ensures InstalledVersion(WithReceipts(files, name, t)) == Some(t.current)
  {
    ReceiptNamesAreTheirOwn();
    CoherentKept(w.snaps, w.snaps, w.snaps[t.snapshot].copy, t.snapshot, t.snapshot);
  }

  // Steps that leave the snapshots, the marker and the settled files alone.
  lemma FramedStep(w: World, v: World)
    requires Core(w) && ProcessSound(v)
    requires v.snaps == w.snaps && v.marker == w.marker && v.base == w.base && v.unused == w.unused
    ensures Core(v)
  {
    if w.marker.Some? {
      SoundKept(w, v, w.marker.value);
    }
  }

  // The step can be taken from a sound world.
  ghost predicate Can(w: World, a: Act) {
    Core(w) && Enabled(w, a)
  }

  ghost predicate Keeps(w: World, a: Act)
    requires Enabled(w, a)
  {
    Core(Do(w, a))
  }

  lemma EditStep(w: World, disk: OnDisk)
    requires Can(w, Edit(disk))
    ensures Keeps(w, Edit(disk))
  {
    hide Real, Intact;
    var v := Do(w, Edit(disk));
    if w.marker.None? {
      assert Coherent(w.snaps, disk.files, w.unused);
    } else {
      SoundKept(w, v, w.marker.value);
    }
  }

  lemma StartStep(w: World, job: Job)
    requires Core(w) && w.process.Idle? && JobSound(w, job)
    ensures Core(Started(w, job))
  {
    var v := Started(w, job);
    assert KeepsSealed(w.snaps, v.snaps);
    CoherentKept(w.snaps, v.snaps, w.base, w.unused, v.unused);
    if w.marker.Some? {
      SoundKept(w, v, w.marker.value);
    }
  }

  lemma RollbackJobSound(w: World)
    requires Can(w, StartRollback)
    ensures var r := LatestReceipt(w.live).receipt; JobSound(w, RollbackJob(r.current, r.previous, r.snapshot))
  {
  }

  // Writing into the unsealed snapshot disturbs nothing else.
  lemma CaptureStep(w: World, v: World, copy: Snapshot)
    requires Core(w) && w.process.Capturing? && ProcessSound(v)
    requires v == w.(snaps := w.snaps[w.process.id := copy], process := v.process)
    ensures Core(v)
  {
    assert KeepsSealed(w.snaps, v.snaps);
    CoherentKept(w.snaps, v.snaps, w.base, w.unused, v.unused);
    if w.marker.Some? {
      SoundKept(w, v, w.marker.value);
    }
  }

  // A receipt of the settled files only names snapshots taken before the one now sealed.
  lemma SealStep(w: World)
    requires Can(w, Seal) && BinSound(w)
    ensures Keeps(w, Seal)
  {
    WellFormedIsTreeLike(BinKeys(w.live), w.binDirs);
    hide WellFormed, Required, TreeLike;
    var v := Do(w, Seal);
    var id := w.process.id;
    assert KeepsSealed(w.snaps, v.snaps);
    if w.marker.None? {
      SealCoherent(w, v);
    }
    CaptureStep(w, v, v.snaps[id]);
  }

  lemma SealCoherent(w: World, v: World)
    requires Can(w, Seal) && v == Do(w, Seal) && w.marker.None?
    ensures Coherent(v.snaps, v.live, w.process.id)
  {
    assert Coherent(w.snaps, w.live, w.process.id);
    CoherentKept(w.snaps, v.snaps, w.live, w.process.id, w.process.id);
  }

  lemma BeginStep(w: World, a: Act)
    requires Can(w, a) && (a == Begin || a == BeginFault)
    ensures Keeps(w, a)
  {
    var v := Do(w, a);
    CoherentKept(w.snaps, v.snaps, w.base, w.unused, v.unused);
  }

  lemma AcceptStep(w: World)
    requires Can(w, Accept)
    ensures Keeps(w, Accept)
  {
    FramedStep(w, Do(w, Accept));
  }

  lemma FailStep(w: World)
    requires Can(w, Fail)
    ensures Keeps(w, Fail)
  {
    FramedStep(w, Do(w, Fail));
  }

  // Steps that only move the process along.
  lemma ProgressStep(w: World, a: Act)
    requires Can(w, a)
    requires a.Abandon? || a.CandidateWrite? || a.StopRefused? || a.StopOk?
    ensures Keeps(w, a)
  {
    FramedStep(w, Do(w, a));
  }

  lemma RestoreStep(w: World, m: Move)
    requires Can(w, Restore(m))
    ensures Keeps(w, Restore(m))
  {
    hide Coherent, Intact, Moved, MoveEnabled;
    FramedStep(w, Do(w, Restore(m)));
  }

  lemma RestoredBackStep(w: World)
    requires Can(w, RestoredBack)
    ensures Keeps(w, RestoredBack)
  {
    hide Coherent, Intact;
    FramedStep(w, Do(w, RestoredBack));
  }

  lemma RecoverStep(w: World)
    requires Can(w, Recover)
    ensures Keeps(w, Recover)
  {
    hide Coherent, Intact, VerifiedSnapshot;
    FramedStep(w, Do(w, Recover));
  }

  lemma CrashStep(w: World)
    requires Can(w, Crash)
    ensures Keeps(w, Crash)
  {
    FramedStep(w, Do(w, Crash));
  }

  lemma ArchiveStep(w: World, name: Rel)
    requires Can(w, Archive(name))
    ensures Keeps(w, Archive(name))
  {
    hide Coherent, Intact, InstalledVersion, LatestReceipt, PutState;
    FramedStep(w, Do(w, Archive(name)));
  }

  lemma WriteLatestStep(w: World)
    requires Can(w, WriteLatest)
    ensures Keeps(w, WriteLatest)
  {
    hide Coherent, Intact, InstalledVersion, LatestReceipt, PutState;
    FramedStep(w, Do(w, WriteLatest));
  }

  // The commit settles the accepted files with their receipts,
  lemma CommitStep(w: World)
    requires Can(w, Unlink) && w.process.Receipted?
    ensures Keeps(w, Unlink)
  {
    var p := w.process;
    NewReceiptCoherent(w, p.t, p.files, p.name);
    hide Coherent, WithReceipts, PutState, Intact;
  }

  // and the clearing after an undo or a recovery settles the restored ones.
  lemma ClearStep(w: World)
    requires Can(w, Unlink) && !w.process.Receipted?
    ensures Keeps(w, Unlink)
  {
    hide Coherent, Intact, StatusOk;
  }

  lemma UnlinkStep(w: World)
    requires Can(w, Unlink)
    ensures Keeps(w, Unlink)
    ensures Do(w, Unlink).marker.None? && Do(w, Unlink).live == w.live && Do(w, Unlink).base == w.live
    ensures !w.process.Receipted? ==> w.live == w.snaps[w.process.t.snapshot].copy
  {
    hide Coherent, Intact, StatusOk;
    if w.process.Receipted? {
      CommitStep(w);
    } else {
      ClearStep(w);
    }
  }

  lemma FinishStep(w: World)
    requires Can(w, Finish)
    ensures Keeps(w, Finish)
  {
    FramedStep(w, Do(w, Finish));
  }

  lemma RewriteStep(w: World)
    requires Can(w, Rewrite)
    ensures Keeps(w, Rewrite)
  {
    var v := Do(w, Rewrite);
    var t := w.process.t;
    SoundKept(w, v, t);
    CoherentKept(w.snaps, w.snaps, w.snaps[t.snapshot].copy, t.snapshot, w.unused);
  }

  lemma CopyStep(w: World, a: Act)
    requires Can(w, a) && (a.CopyDir? || a.CopyFile? || a.CopyExternal?)
    ensures Keeps(w, a)
  {
    var v := Do(w, a);
    CaptureStep(w, v, v.snaps[w.process.id]);
  }

  lemma StartsStep(w: World, a: Act)
    requires Can(w, a) && (a.StartUpdate? || a.StartRollback?)
    ensures Keeps(w, a)
  {
    match a
    case StartUpdate(candidate) => StartStep(w, UpdateJob(InstalledVersion(w.live).value, candidate));
    case StartRollback =>
      RollbackJobSound(w);
      var r := LatestReceipt(w.live).receipt;
      StartStep(w, RollbackJob(r.current, r.previous, r.snapshot));
  }

  // The steps of a capture.
  predicate CaptureAct(a: Act) {
    a.StartUpdate? || a.StartRollback? || a.CopyDir? || a.CopyFile? || a.CopyExternal? || a.Seal?
  }

  lemma CaptureKeepsCore(w: World, a: Act)
    requires Can(w, a) && BinSound(w) && CaptureAct(a)
    ensures Keeps(w, a)
  {
    hide Core, Enabled, Do, Can, Keeps, BinSound;
    if a.Seal? {
      SealStep(w);
    } else if a.StartUpdate? || a.StartRollback? {
      StartsStep(w, a);
    } else {
      CopyStep(w, a);
    }
  }

  // The steps between writing the marker and committing or withdrawing it.
  predicate CommitAct(a: Act) {
    a.Begin? || a.BeginFault? || a.Accept? || a.Archive? || a.WriteLatest? || a.Unlink? || a.Finish? || a.Rewrite?
  }

  lemma CommitKeepsCore(w: World, a: Act)
    requires Can(w, a) && CommitAct(a)
    ensures Keeps(w, a)
  {
    hide Core, Enabled, Do, Can, Keeps;
    if a.Accept? {
      AcceptStep(w);
    } else if a.Unlink? {
      UnlinkStep(w);
    } else if a.Finish? {
      FinishStep(w);
    } else if a.Rewrite? {
      RewriteStep(w);
    } else if a.Begin? || a.BeginFault? {
      BeginStep(w, a);
    } else if a.WriteLatest? {
      WriteLatestStep(w);
    } else {
      ArchiveStep(w, a.name);
    }
  }

  lemma OtherKeepsCore(w: World, a: Act)
    requires Can(w, a) && !a.DoubleFault? && !CommitAct(a) && !CaptureAct(a)
    ensures Keeps(w, a)
  {
    hide Core, Enabled, Do, Can, Keeps;
    if a.Edit? {
      EditStep(w, a.disk);
    } else if a.Fail? {
      FailStep(w);
    } else if a.Crash? {
      CrashStep(w);
    } else if a.Restore? {
      RestoreStep(w, a.m);
    } else if a.RestoredBack? {
      RestoredBackStep(w);
    } else if a.Recover? {
      RecoverStep(w);
    } else {
      ProgressStep(w, a);
    }
  }

  lemma CoreStep(w: World, a: Act)
    requires Can(w, a) && BinSound(w) && !a.DoubleFault?
    ensures Keeps(w, a)
  {
    hide Core, Enabled, Do, Can, Keeps, BinSound;
    if CaptureAct(a) {
      CaptureKeepsCore(w, a);
    } else if CommitAct(a) {
      CommitKeepsCore(w, a);
    } else {
      OtherKeepsCore(w, a);
    }
  }

  // ---------------------------------------------------------------- `bin` stays a tree

  lemma SourceIsTree(w: World)
    requires Core(w) && w.process.Restoring?
    ensures w.process.source in w.snaps
    ensures Complete(w.snaps[w.process.source].copy) && TreeLike(BinKeys(w.snaps[w.process.source].copy))
  {
    hide TreeLike, BinKeys;
  }

  lemma MoveKeepsReal(source: Owned, disk: DiskFiles, m: Move)
    requires Real(disk) && TreeLike(BinKeys(source)) && MoveEnabled(source, disk, m)
    ensures Real(Moved(source, disk, m))
  {
    hide TreeLike, CanStep, Stepped;
    if m.InBin? {
      StepIsSound(source.dirs[Bin], BinOf(disk), m.step);
      hide WellFormed;
    }
  }

  lemma RestoreKeepsBin(w: World, m: Move)
    requires Can(w, Restore(m)) && BinSound(w)
    ensures BinSound(Do(w, Restore(m)))
  {
    SourceIsTree(w);
    MoveKeepsReal(w.snaps[w.process.source].copy, DiskOf(w), m);
    hide Core, Real, TreeLike, MoveEnabled, Moved;
  }

  lemma ReceiptKeepsBin(o: Owned, rel: Rel, f: File)
    requires State in o.dirs
    ensures BinFiles(PutState(o, rel, f)) == BinFiles(o)
    ensures PutState(o, rel, f).dirs.Keys == o.dirs.Keys && PutState(o, rel, f).external == o.external
  {
  }

  lemma StepKeepsBin(w: World, a: Act)
    requires Can(w, a) && BinSound(w)
    ensures BinSound(Do(w, a))
  {
    hide Core, WellFormed, PutState;
    if a.Restore? {
      RestoreKeepsBin(w, a.m);
    } else if a.Archive? {
      ReceiptKeepsBin(w.live, a.name, ReceiptFile(w.process.t));
    } else if a.WriteLatest? {
      ReceiptKeepsBin(w.live, LATEST_RECEIPT, ReceiptFile(w.process.t));
    }
  }

  // Every step but a double fault keeps the invariant.
  lemma StepKeepsInv(w: World, a: Act)
    requires Inv(w) && Enabled(w, a) && !a.DoubleFault?
    ensures Inv(Do(w, a))
  {
    hide Core, Enabled, Do, BinSound;
    CoreStep(w, a);
    StepKeepsBin(w, a);
  }

  lemma SettledInv(w: World)
    requires Settled(w)
    ensures Inv(w)
  {
  }

  lemma {:induction false} RunKeepsInv(w: World, acts: seq<Act>)
    requires Inv(w) && Legal(w, acts) && NoDoubleFault(acts)
    ensures Inv(After(w, acts))
    decreases acts
  {
    if acts != [] {
      assert acts[0] in acts;
      StepKeepsInv(w, acts[0]);
      hide Inv;
      hide Do;
      hide Enabled;
      RunKeepsInv(Do(w, acts[0]), acts[1..]);
    }
  }
}
