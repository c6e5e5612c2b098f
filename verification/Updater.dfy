// The updater's operations as code over the journal (release_tools/updater.py, 354-492, 836-910,
// 1202-1235, 1278-1785, 1787-1929).
//
// Every change an operation makes is one step of the journal, so what is proved of every run of the
// journal holds at each point of each operation, and a crash may come after any prefix of its log.
module Updater {
  import opened Basics
  import opened FileTrees
  import opened ReleaseFiles
  import opened InPlaceRestore
  import opened Journal
  import opened JournalSafety
  import opened JournalTheorems
  import opened JournalAlternation

  // The order the owned directories are walked in.
  const DIRECTORY_NAMES := [Config, Artifacts, State, Bin]

  lemma AllNamed()
    ensures forall d: Dir :: d in DIRECTORY_NAMES[..|DIRECTORY_NAMES|]
  {
    assert DIRECTORY_NAMES[..|DIRECTORY_NAMES|] == DIRECTORY_NAMES;
    assert DIRECTORY_NAMES[0] == Config && DIRECTORY_NAMES[1] == Artifacts;
    assert DIRECTORY_NAMES[2] == State && DIRECTORY_NAMES[3] == Bin;
    forall d: Dir ensures d in DIRECTORY_NAMES {
      match d case Config => case Artifacts => case State => case Bin =>
    }
  }

  datatype Outcome = NothingToDo | Done | Refused

  // Cut after any prefix of its log, an operation leaves a state recovery can start from, or the
  // files as they last settled.
  lemma CutAnywhere(w: World, log: seq<Act>, k: nat)
    requires Inv(w) && Legal(w, log) && NoDoubleFault(log) && k <= |log|
    ensures Legal(w, log[..k]) && Enabled(After(w, log[..k]), Crash)
    ensures var v := Do(After(w, log[..k]), Crash);
      && Inv(v)
      && if v.marker.Some? then Enabled(v, Recover) else v.live == v.base
  {
    LegalPrefix(w, log, k);
    RunKeepsInv(w, log[..k]);
    var u := After(w, log[..k]);
    StepKeepsInv(u, Crash);
    if Do(u, Crash).marker.Some? {
      RecoveryIsAlwaysOpen(Do(u, Crash));
    }
  }

  // Cut inside an atomic write of a restore, it leaves a temporary file besides, and recovery can
  // start all the same.
  lemma CutInsideWrite(w: World, log: seq<Act>, k: nat, rel: Rel, temp: string, f: File)
    requires Inv(w) && Legal(w, log) && NoDoubleFault(log) && k < |log| && log[k] == Restore(InBin(PutFile(rel)))
    requires Legal(w, log[..k]) && Free(After(w, log[..k]), rel, temp)
    ensures var u := After(w, log[..k]);
      && Legal(u, TornWrite(rel, temp, f))
      && var v := After(u, TornWrite(rel, temp, f));
      Inv(v) && Enabled(v, Recover) && BinFiles(v.live) == BinFiles(u.live)[TempPath(rel, temp) := f]
  {
    var u := After(w, log[..k]);
    LegalPrefix(w, log, k);
    assert log[k..][0] == log[k];
    RunKeepsInv(w, log[..k]);
    RestoringHasMarker(u);
    hide Legal, After, Inv, Enabled, Free;
    TornIs(u, rel, temp, f);
    RunKeepsInv(u, TornWrite(rel, temp, f));
    RecoveryIsAlwaysOpen(After(u, TornWrite(rel, temp, f)));
  }

  // The temporary name is free in the `bin` being restored.
  ghost predicate Free(u: World, rel: Rel, temp: string) {
    && u.process.Restoring? && u.process.source in u.snaps
    && FreeTemp(BinFiles(u.snaps[u.process.source].copy), BinOf(DiskOf(u)), rel, temp)
  }

  function TornWrite(rel: Rel, temp: string, f: File): seq<Act> {
    [Restore(InBin(LeaveTemp(rel, temp, f))), Crash]
  }

  lemma TornIs(u: World, rel: Rel, temp: string, f: File)
    requires Enabled(u, Restore(InBin(PutFile(rel)))) && Free(u, rel, temp)
    ensures Legal(u, TornWrite(rel, temp, f))
    ensures var v := After(u, TornWrite(rel, temp, f));
      v.process.Idle? && v.marker == u.marker && BinFiles(v.live) == BinFiles(u.live)[TempPath(rel, temp) := f]
  {
    var torn := TornWrite(rel, temp, f);
    TornStep(u, rel, temp, f);
    hide Free, Enabled, Do;
    var v := Do(u, torn[0]);
    CrashForgets(v);
    assert torn[1..] == [Crash] && [Crash][1..] == [];
    assert Legal(v, [Crash]) && After(v, [Crash]) == After(Do(v, Crash), []);
    assert Legal(u, torn) && After(u, torn) == After(v, [Crash]);
  }

  lemma CrashForgets(w: World)
    ensures Enabled(w, Crash) && Do(w, Crash) == w.(process := Idle, active := {}, recovering := {})
  {
  }

  lemma TornStep(u: World, rel: Rel, temp: string, f: File)
    requires Enabled(u, Restore(InBin(PutFile(rel)))) && Free(u, rel, temp)
    ensures var torn := Restore(InBin(LeaveTemp(rel, temp, f)));
      && Enabled(u, torn)
      && var v := Do(u, torn);
      v.marker == u.marker && BinFiles(v.live) == BinFiles(u.live)[TempPath(rel, temp) := f]
  {
    hide Required, FreeTemp;
    var torn := Restore(InBin(LeaveTemp(rel, temp, f)));
    var source := u.snaps[u.process.source].copy;
    assert MoveEnabled(source, DiskOf(u), InBin(PutFile(rel)));
    assert MoveEnabled(source, DiskOf(u), InBin(LeaveTemp(rel, temp, f)));
  }

  lemma RestoringHasMarker(w: World)
    requires Inv(w) && w.process.Restoring?
    ensures w.marker.Some?
  {
  }

  lemma {:induction false} LegalSnoc(w: World, log: seq<Act>, a: Act)
    requires Legal(w, log) && Enabled(After(w, log), a)
    ensures Legal(w, log + [a]) && After(w, log + [a]) == Do(After(w, log), a)
    decreases log
  {
    hide Enabled, Do;
    if log == [] {
      assert [] + [a] == [a] && [a][1..] == [];
      assert After(Do(w, a), []) == Do(w, a);
    } else {
      LegalSnoc(Do(w, log[0]), log[1..], a);
      assert (log + [a])[0] == log[0] && (log + [a])[1..] == log[1..] + [a];
    }
  }

  // A receipt name no file has; the original takes it from the clock and a uuid.
  method NewReceiptName(taken: set<Rel>) returns (name: Rel)
    ensures ReceiptName(name) && name != LATEST_RECEIPT && name !in taken
  {
    var stem := "release-transaction-1";
    var rest := taken;
    while [stem] in rest
      invariant "release-transaction-1" <= stem && rest <= taken
      invariant forall rel :: rel in taken && rel !in rest ==> |rel| == 1 && |rel[0]| < |stem|
      decreases |rest|
    {
      rest := rest - {[stem]};
      stem := stem + "1";
    }
    name := [stem];
    assert stem[20] == '1' && LATEST_RECEIPT[0][20] == 'l';
    assert "release-transaction-" <= stem by {
      assert "release-transaction-" <= "release-transaction-1";
    }
  }

  lemma WithBinTwice(o: Owned, a: Tree, b: Tree)
    ensures WithBin(WithBin(o, a), b) == WithBin(o, b)
  {
  }

  // `bin` stands as `b`, and no other owned file has changed.
  ghost predicate BinStands(disk: DiskFiles, live: Owned, b: BinTree) {
    disk == DiskFiles(WithBin(live, b.files), b.dirs, {})
  }

  lemma StandingBin(disk: DiskFiles, live: Owned, b: BinTree)
    requires BinStands(disk, live, b)
    ensures BinOf(disk) == b && Bin in disk.files.dirs
    ensures Real(disk) ==> IsTree(b)
  {
  }

  lemma SteppedBin(source: Owned, disk: DiskFiles, live: Owned, b: BinTree, s: BinStep)
    requires Bin in source.dirs && BinStands(disk, live, b) && CanStep(source.dirs[Bin], b, s)
    ensures MoveEnabled(source, disk, InBin(s))
    ensures BinStands(Moved(source, disk, InBin(s)), live, Stepped(source.dirs[Bin], b, s))
  {
    hide CanStep, Stepped;
    StandingBin(disk, live, b);
    var after := Stepped(source.dirs[Bin], b, s);
    WithBinTwice(live, b.files, after.files);
  }

  lemma MovesStayInPlace(source: Owned, disk: DiskFiles, m: Move)
    requires MoveEnabled(source, disk, m)
    ensures Moved(source, disk, m).obstructed == disk.obstructed
  {
    hide CanStep, Stepped;
  }

  lemma StartOfBin(disk: DiskFiles, source: Owned)
    requires Real(disk)
    ensures MayReturn(BinOf(disk), BinFiles(source), BinOf(disk))
  {
    StartMayReturn(BinOf(disk), BinFiles(source));
  }

  // ---------------------------------------------------------------- what the parts leave

  ghost predicate Begun(before: World, after: World, t: Pending)
    requires before.process.Sealed?
  {
    var job := before.process.job;
    && before.marker.None? && after.marker == Some(t)
    && t.previous == job.previous && t.current == job.current && t.snapshot == before.process.id
    && t.action == (if job.UpdateJob? then Update else Rollback)
    && after.process == if job.UpdateJob? then Switching(t) else Stopping(t, job.prior)
  }

  // Nothing but live files and what the process knows has changed.
  ghost predicate SameDisk(before: World, after: World) {
    after.marker == before.marker && after.base == before.base && after.snaps == before.snaps
  }

  ghost predicate Written(before: World, after: World)
    requires before.process.Checked?
  {
    after.process.Receipted? && after.process.t == before.process.t && after.process.files == before.process.files
  }

  lemma AcceptedHasState(w: World)
    requires Inv(w) && w.process.Checked?
    ensures State in w.live.dirs
  {
  }

  lemma MarkerIsOwn(w: World)
    requires Inv(w) && (w.process.Receipted? || w.process.Withdrawing? || w.process.Proving?)
    ensures w.marker == Some(w.process.t)
    ensures w.process.t.snapshot in w.snaps && w.snaps[w.process.t.snapshot].copy == w.base
  {
  }

  lemma ProvingMayFail(w: World)
    requires w.process.Proving?
    ensures Enabled(w, Fail)
  {
  }

  lemma RestoringMayFail(w: World)
    requires w.process.Restoring?
    ensures Enabled(w, Fail)
  {
  }

  lemma MarkerNamesBase(w: World)
    requires Inv(w) && w.marker.Some?
    ensures w.marker.value.snapshot in w.snaps && w.snaps[w.marker.value.snapshot].copy == w.base
    ensures InstalledVersion(w.base) == Some(w.marker.value.previous)
  {
  }

  lemma SnapshotIsOlder(w: World, id: nat)
    requires Inv(w) && id in w.snaps
    ensures id < w.unused
  {
  }

  lemma PriorIsIntact(w: World)
    requires Inv(w) && w.process.Stopping?
    ensures w.process.prior in w.snaps && Complete(w.snaps[w.process.prior].copy)
    ensures VerifiedSnapshot(w.snaps[w.process.prior])
  {
    IntactVerifies(w.snaps[w.process.prior]);
  }

  lemma SourceOf(w: World)
    requires Inv(w) && w.process.Restoring?
    ensures w.process.source in w.snaps
    ensures Complete(w.snaps[w.process.source].copy) && TreeLike(BinKeys(w.snaps[w.process.source].copy))
  {
    SourceIsTree(w);
  }

  // A restore that stopped midway can be taken back.
  lemma MayGoBack(start: DiskFiles, wanted: Owned, now: DiskFiles)
    requires MayReturn(BinOf(start), BinFiles(wanted), BinOf(now)) && now.obstructed == {}
    ensures Fits(now, start.files)
  {
    ReturnIsClear(BinOf(start), BinFiles(wanted), BinOf(now));
  }

  lemma RestoredIsLive(disk: DiskFiles, source: Owned)
    requires RestoredTo(disk, source)
    ensures disk.files == source
  {
  }

  lemma NothingElse(wanted: Tree, files: Tree)
    requires InPlace(files, wanted) && files.Keys - wanted.Keys == {}
    ensures files == wanted
  {
    forall rel | rel in files ensures rel in wanted {
      assert rel in files.Keys - wanted.Keys || rel in wanted;
    }
  }

  lemma UndoingNamesBase(w: World)
    requires Inv(w) && w.process.Restoring? && w.process.purpose == Undo
    ensures w.process.source in w.snaps && w.snaps[w.process.source].copy == w.base
  {
  }

  lemma StoppedLive(w: World)
    requires Inv(w) && w.process.Stopping?
    ensures w.live == w.base && w.obstructed == {}
  {
    BaseIsComplete(w);
    CompleteIsUnobstructed(DiskOf(w));
    hide Complete, Real;
  }

  lemma BaseIsComplete(w: World)
    requires Inv(w) && w.marker.Some?
    ensures Complete(w.base)
  {
  }

  lemma CommittedHasNoMarker(before: World, after: World)
    ensures forall action, previous, current, files ::
      Switched(before, after, action, previous, current, files) ==> after.marker.None?
  {
  }

  lemma DiskIsReal(w: World)
    requires Inv(w)
    ensures Real(DiskOf(w))
  {
  }

  lemma WantedIsNotRequired(wanted: Tree)
    requires TreeLike(wanted.Keys)
    ensures wanted.Keys !! Required(wanted.Keys)
  {
  }

  // ---------------------------------------------------------------- outcomes

  // The files after a candidate's last write.
  function LastOf(disk: DiskFiles, writes: seq<OnDisk>): DiskFiles {
    if writes == [] then disk else writes[|writes| - 1]
  }

  // A candidate that installs its version and leaves the receipts alone.
  ghost predicate GoodInstall(settled: Owned, candidate: Version, disk: DiskFiles, writes: seq<OnDisk>) {
    && InstalledVersion(LastOf(disk, writes).files) == Some(candidate)
    && LatestReceipt(LastOf(disk, writes).files) == LatestReceipt(settled)
  }

  // A refused operation settled nothing: either the files are the ones that were settled before, or
  // a marker is left from which recovery can start.
  ghost predicate Held(before: World, after: World) {
    && after.process.Idle? && after.base == before.base
    && if after.marker.None? then after.live == before.base else Enabled(after, Recover)
  }

  lemma HeldIs(before: World, after: World)
    requires Inv(after) && after.process.Idle? && after.base == before.base
    ensures Held(before, after)
  {
    if after.marker.Some? {
      RecoveryIsAlwaysOpen(after);
    }
  }

  // A committed transaction: the accepted files are active, the latest receipt names both versions
  // and an intact snapshot of exactly the files before it.
  ghost predicate Switched(
      before: World, after: World, action: Action, previous: Version, current: Version, files: Owned) {
    && after.process.Idle? && after.marker.None?
    && Active(after.live) == Active(files)
    && InstalledVersion(after.live) == Some(current)
    && LatestReceipt(after.live).Readable?
    && var r := LatestReceipt(after.live).receipt;
    && r.action == action && r.previous == previous && r.current == current
    && r.snapshot in after.snaps && Intact(after.snaps[r.snapshot]) && after.snaps[r.snapshot].copy == before.live
  }

  lemma CommittedIs(before: World, written: World, after: World)
    requires Inv(written) && written.process.Receipted? && written.base == before.live
    requires after.process.Idle? && after.marker.None? && after.snaps == written.snaps && after.live == written.live
    ensures var t := written.process.t;
      Switched(before, after, t.action, t.previous, t.current, written.process.files)
  {
    var p := written.process;
    ReceiptsAreNotActive(p.files, p.name, p.t);
    NewReceiptCoherent(written, p.t, p.files, p.name);
    hide Active, Coherent;
  }

  class ReleaseUpdater {
    var world: World
    ghost var first: World
    ghost var log: seq<Act>

    ghost predicate Valid()
      reads this
    {
      && Inv(first) && Legal(first, log) && NoDoubleFault(log) && world == After(first, log)
      && Inv(world)
    }

    // The log only grows.
    ghost predicate Continues(origin: World, earlier: seq<Act>)
      reads this
    {
      first == origin && earlier <= log
    }

    // A process starts with nothing in memory.
    constructor (w: World)
      requires Inv(w) && w.process.Idle? && w.active == {} && w.recovering == {}
      ensures Valid() && world == w && first == w && log == []
    {
      world := w;
      first := w;
      log := [];
    }

    method Perform(a: Act)
      requires Valid() && Enabled(world, a) && !a.DoubleFault?
      modifies this
      ensures Valid() && first == old(first) && log == old(log) + [a]
      ensures world == Do(old(world), a)
    {
      LegalSnoc(first, log, a);
      StepKeepsInv(world, a);
      log := log + [a];
      world := Do(world, a);
    }

    // ---------------------------------------------------------------- capture

    // The snapshot being written holds this much.
    ghost predicate Holds(before: World, copy: Owned)
      reads this
    {
      before.process.Capturing? && world == before.(snaps := before.snaps[before.process.id := Snapshot(copy, None)])
    }

    // Capture was refused; only the unfinished snapshot is left behind.
    ghost predicate Abandoned(before: World)
      reads this
    {
      world == before.(process := Idle, snaps := world.snaps)
    }

    method Abort(ghost before: World, ghost copy: Owned)
      requires Valid() && Holds(before, copy)
      modifies this
      ensures Valid() && Continues(old(first), old(log)) && Abandoned(before)
    {
      Perform(Abandon);
    }

    method CopyOne(ghost before: World, ghost copy: Owned, d: Dir, rel: Rel)
      requires Valid() && Holds(before, copy) && d in copy.dirs && d in before.live.dirs && rel in before.live.dirs[d]
      modifies this
      ensures Valid() && Continues(old(first), old(log))
      ensures Holds(before, copy.(dirs := copy.dirs[d := copy.dirs[d][rel := before.live.dirs[d][rel]]]))
    {
      Perform(CopyFile(d, rel));
    }

    method CopyEmpty(ghost before: World, ghost copy: Owned, d: Dir)
      requires Valid() && Holds(before, copy) && d in before.live.dirs && d !in copy.dirs
      modifies this
      ensures Valid() && Continues(old(first), old(log))
      ensures Holds(before, copy.(dirs := copy.dirs[d := map[]]))
    {
      Perform(CopyDir(d));
    }

    method CopyTree(ghost before: World, ghost copy: Owned, d: Dir, reliable: bool) returns (ok: bool)
      requires Valid() && Holds(before, copy) && d in before.live.dirs && d !in copy.dirs
      modifies this
      ensures Valid() && Continues(old(first), old(log)) && (reliable ==> ok)
      ensures if ok then Holds(before, copy.(dirs := copy.dirs[d := before.live.dirs[d]])) else Abandoned(before)
    {
      hide Inv, Legal, After, Enabled, Do;
      ghost var origin, earlier := first, log;
      var tree := world.live.dirs[d];
      CopyEmpty(before, copy, d);
      var todo := tree.Keys;
      assert tree - todo == map[];
      while todo != {}
        invariant Valid() && Continues(origin, earlier) && todo <= tree.Keys
        invariant Holds(before, copy.(dirs := copy.dirs[d := tree - todo]))
        decreases |todo|
      {
        ghost var part := copy.(dirs := copy.dirs[d := tree - todo]);
        var fault := Faulty(reliable);
        if fault {
          Abort(before, part);
          return false;
        }
        var rel :| rel in todo;
        CopyOne(before, part, d, rel);
        assert (tree - todo)[rel := tree[rel]] == tree - (todo - {rel});
        assert part.dirs[d := tree - (todo - {rel})] == copy.dirs[d := tree - (todo - {rel})];
        todo := todo - {rel};
      }
      assert tree - todo == tree;
      ok := true;
    }

    // Every owned directory, then both external files, then the manifest that seals them.
    method Capture(ghost before: World, reliable: bool) returns (ok: bool)
      requires Valid() && Holds(before, NOTHING)
      modifies this
      ensures Valid() && Continues(old(first), old(log)) && (reliable && Complete(before.live) ==> ok)
      ensures if ok then SealedOf(before) else Abandoned(before)
    {
      hide Inv, Legal, After, Enabled, Do;
      ghost var copy, origin, earlier := NOTHING, first, log;
      var i := 0;
      while i < |DIRECTORY_NAMES|
        invariant Valid() && Continues(origin, earlier) && Holds(before, copy) && i <= |DIRECTORY_NAMES|
        invariant copy.external == map[] && (forall d :: d in copy.dirs <==> d in DIRECTORY_NAMES[..i])
        invariant forall d :: d in copy.dirs ==> d in before.live.dirs && copy.dirs[d] == before.live.dirs[d]
      {
        var d := DIRECTORY_NAMES[i];
        if d !in world.live.dirs {
          Abort(before, copy);
          return false;
        }
        ok := CopyTree(before, copy, d, reliable);
        if !ok {
          return;
        }
        copy := copy.(dirs := copy.dirs[d := before.live.dirs[d]]);
        i := i + 1;
      }
      AllNamed();
      SameDirs(copy.dirs, before.live.dirs);
      ok := CaptureExternal(before, copy, reliable);
    }

    method CopyExternalFile(ghost before: World, ghost copy: Owned, e: External)
      requires Valid() && Holds(before, copy) && e in before.live.external
      modifies this
      ensures Valid() && Continues(old(first), old(log))
      ensures Holds(before, copy.(external := copy.external[e := before.live.external[e]]))
    {
      Perform(CopyExternal(e));
    }

    ghost predicate SealedOf(before: World)
      reads this
    {
      && before.process.Capturing?
      && var id := before.process.id;
      && Complete(before.live)
      && world == before.(process := Sealed(before.process.job, id),
                          snaps := before.snaps[id := Snapshot(before.live, Some(ManifestOf(before.live)))])
    }

    method SealCopy(ghost before: World)
      requires Valid() && Holds(before, before.live) && Complete(before.live)
      modifies this
      ensures Valid() && Continues(old(first), old(log)) && SealedOf(before)
    {
      Perform(Seal);
    }

    method CaptureExternal(ghost before: World, ghost dirs: Owned, reliable: bool) returns (ok: bool)
      requires Valid() && Holds(before, dirs) && dirs.external == map[]
      requires dirs.dirs == before.live.dirs && before.live.dirs.Keys == ALL_DIRS
      modifies this
      ensures Valid() && Continues(old(first), old(log)) && (reliable && Complete(before.live) ==> ok)
      ensures if ok then SealedOf(before) else Abandoned(before)
    {
      hide Inv, Legal, After, Enabled, Do;
      ghost var copy := dirs;
      var fault := Faulty(reliable);
      if fault || CodexConfig !in world.live.external || StudioPlugin !in world.live.external {
        Abort(before, copy);
        return false;
      }
      CopyExternalFile(before, copy, CodexConfig);
      copy := copy.(external := copy.external[CodexConfig := before.live.external[CodexConfig]]);
      fault := Faulty(reliable);
      if fault {
        Abort(before, copy);
        return false;
      }
      CopyExternalFile(before, copy, StudioPlugin);
      copy := copy.(external := copy.external[StudioPlugin := before.live.external[StudioPlugin]]);
      SameExternal(copy.external, before.live.external);
      assert copy == before.live;
      fault := Faulty(reliable);
      if fault {
        Abort(before, copy);
        return false;
      }
      SealCopy(before);
      ok := true;
    }

    // ---------------------------------------------------------------- restore

    // The operation is restoring `source`, and only live files have changed since `before`.
    ghost predicate Restores(before: World, source: Owned)
      reads this
    {
      && before.process.Restoring? && before.process.source in before.snaps
      && source == before.snaps[before.process.source].copy
      && world == before.(live := world.live, binDirs := world.binDirs)
    }

    method Put(ghost before: World, source: Owned, m: Move)
      requires Valid() && Restores(before, source) && MoveEnabled(source, DiskOf(world), m)
      modifies this
      ensures Valid() && Continues(old(first), old(log)) && Restores(before, source)
      ensures DiskOf(world) == Moved(source, DiskOf(old(world)), m)
    {
      hide MoveEnabled, Moved;
      MovesStayInPlace(source, DiskOf(world), m);
      Perform(Restore(m));
    }

    // Move the live directory out of the way and the verified copy in.
    method ReplaceDir(ghost before: World, source: Owned, d: Dir, reliable: bool) returns (ok: bool)
      requires Valid() && Restores(before, source) && before.obstructed == {} && d != Bin && d in source.dirs
      modifies this
      ensures Valid() && Continues(old(first), old(log)) && Restores(before, source) && (reliable ==> ok)
      ensures ok ==> world.live == old(world.live).(dirs := old(world.live).dirs[d := source.dirs[d]])
      ensures BinOf(DiskOf(world)) == BinOf(DiskOf(old(world)))
    {
      hide Inv, Legal, After, Enabled, Do;
      ghost var live := world.live;
      var fault := Faulty(reliable);
      if fault {
        return false;
      }
      if d in world.live.dirs {
        Put(before, source, DirOut(d));
        fault := Faulty(reliable);
        if fault {
          return false;
        }
      }
      Put(before, source, DirIn(d));
      assert (live.dirs - {d})[d := source.dirs[d]] == live.dirs[d := source.dirs[d]];
      ok := true;
    }

    // The restore of `bin` began at `start` and has come to `b`.
    ghost predicate AtBin(before: World, source: Owned, live: Owned, start: BinTree, b: BinTree)
      reads this
    {
      && Restores(before, source) && Bin in source.dirs && TreeLike(source.dirs[Bin].Keys)
      && BinStands(DiskOf(world), live, b) && MayReturn(start, source.dirs[Bin], b)
    }

    method StepBin(ghost before: World, source: Owned, ghost live: Owned, ghost start: BinTree, ghost b: BinTree,
                   s: BinStep)
      requires Valid() && AtBin(before, source, live, start, b) && CanStep(source.dirs[Bin], b, s)
      requires s.MakeDir? ==> start.files.Keys <= b.files.Keys
      requires s.LeaveTemp? ==> Required(start.files.Keys) <= b.dirs
      modifies this
      ensures Valid() && Continues(old(first), old(log))
      ensures AtBin(before, source, live, start, Stepped(source.dirs[Bin], b, s))
    {
      hide Inv, Legal, After, Enabled, Do, MayReturn, BinStands, MoveEnabled, Moved, TreeLike;
      StepMayReturn(start, source.dirs[Bin], b, s);
      SteppedBin(source, DiskOf(world), live, b, s);
      Put(before, source, InBin(s));
    }

    // The needed directories are made shallowest first; one that is a file stops the restore.
    method MakeRequired(ghost before: World, source: Owned, ghost live: Owned, ghost start: BinTree, reliable: bool)
      returns (ok: bool, ghost b: BinTree)
      requires Valid() && AtBin(before, source, live, start, start)
      modifies this
      ensures Valid() && Continues(old(first), old(log)) && AtBin(before, source, live, start, b)
      ensures ok ==> b == start.(dirs := start.dirs + Required(source.dirs[Bin].Keys))
      ensures ok ==> Required(source.dirs[Bin].Keys) !! start.files.Keys
      ensures reliable && !ok ==> !(Required(source.dirs[Bin].Keys) !! start.files.Keys)
    {
      hide Inv, Legal, After, Enabled, Do, Restores, MayReturn, TreeLike, CanStep, Stepped, Required;
      ghost var origin, earlier := first, log;
      var wanted := source.dirs[Bin];
      var todo := Required(wanted.Keys);
      b := start;
      assert b.dirs == start.dirs + (Required(wanted.Keys) - todo);
      while todo != {}
        invariant Valid() && Continues(origin, earlier) && AtBin(before, source, live, start, b)
        invariant Made(wanted, start, b, todo)
        decreases |todo|
      {
        var fault := Faulty(reliable);
        if fault {
          return false, b;
        }
        var d := Shallowest(todo);
        StandingBin(DiskOf(world), live, b);
        hide BinStands;
        if d in world.live.dirs[Bin] {
          return false, b;
        }
        MakeOne(wanted, start, b, todo, d);
        if d !in world.binDirs {
          StepBin(before, source, live, start, b, MakeDir(d));
          b := Stepped(wanted, b, MakeDir(d));
        }
        todo := todo - {d};
      }
      assert Required(wanted.Keys) - todo == Required(wanted.Keys);
      ok := true;
    }

    // An atomic write that failed may leave its temporary file behind.
    method LeaveBehind(ghost before: World, source: Owned, ghost live: Owned, ghost start: BinTree, ghost b: BinTree,
                       rel: Rel)
      returns (ghost after: BinTree)
      requires Valid() && AtBin(before, source, live, start, b) && rel in source.dirs[Bin]
      requires Required(source.dirs[Bin].Keys) <= b.dirs && Required(start.files.Keys) <= b.dirs
      modifies this
      ensures Valid() && Continues(old(first), old(log)) && AtBin(before, source, live, start, after)
    {
      hide Inv, Legal, After, Enabled, Do, Restores, MayReturn, TreeLike, Stepped, Required;
      var temp: string, f: File := *, *;
      StandingBin(DiskOf(world), live, b);
      after := b;
      if FreeTemp(source.dirs[Bin], BinOf(DiskOf(world)), rel, temp) {
        StepBin(before, source, live, start, b, LeaveTemp(rel, temp, f));
        after := Stepped(source.dirs[Bin], b, LeaveTemp(rel, temp, f));
      }
    }

    // Every expected file is put in place before any stale one is removed; one that is a directory
    // stops the restore.
    method ReplaceFiles(ghost before: World, source: Owned, ghost live: Owned, ghost start: BinTree,
                        ghost made: BinTree, reliable: bool)
      returns (ok: bool, ghost b: BinTree)
      requires Valid() && AtBin(before, source, live, start, made) && Required(source.dirs[Bin].Keys) <= made.dirs
      requires Required(start.files.Keys) <= made.dirs
      modifies this
      ensures Valid() && Continues(old(first), old(log)) && AtBin(before, source, live, start, b)
      ensures ok ==> b.dirs == made.dirs && InPlace(b.files, source.dirs[Bin])
      ensures ok ==> source.dirs[Bin].Keys !! made.dirs
      ensures reliable && !ok ==> !(source.dirs[Bin].Keys !! made.dirs)
    {
      hide Inv, Legal, After, Enabled, Do, Restores, MayReturn, TreeLike, CanStep, Stepped, Required;
      ghost var origin, earlier := first, log;
      var wanted := source.dirs[Bin];
      var todo := wanted.Keys;
      b := made;
      while todo != {}
        invariant Valid() && Continues(origin, earlier) && AtBin(before, source, live, start, b)
        invariant Filled(wanted, made, b, todo)
        decreases |todo|
      {
        var rel :| rel in todo;
        var fault := Faulty(reliable);
        if fault {
          b := LeaveBehind(before, source, live, start, b, rel);
          return false, b;
        }
        StandingBin(DiskOf(world), live, b);
        hide BinStands;
        if rel in world.binDirs {
          return false, b;
        }
        FillOne(wanted, made, b, todo, rel);
        StepBin(before, source, live, start, b, PutFile(rel));
        b := Stepped(wanted, b, PutFile(rel));
        todo := todo - {rel};
      }
      assert wanted - todo == wanted;
      ok := true;
    }

    method DropFiles(ghost before: World, source: Owned, ghost live: Owned, ghost start: BinTree,
                     ghost placed: BinTree, reliable: bool)
      returns (ok: bool, ghost b: BinTree)
      requires Valid() && AtBin(before, source, live, start, placed) && InPlace(placed.files, source.dirs[Bin])
      modifies this
      ensures Valid() && Continues(old(first), old(log)) && AtBin(before, source, live, start, b) && (reliable ==> ok)
      ensures ok ==> b == BinTree(source.dirs[Bin], placed.dirs)
    {
      hide Inv, Legal, After, Enabled, Do, Restores, MayReturn, TreeLike, CanStep, Stepped, Required, InPlace;
      ghost var origin, earlier := first, log;
      var wanted := source.dirs[Bin];
      b := placed;
      StandingBin(DiskOf(world), live, b);
      var todo := world.live.dirs[Bin].Keys - wanted.Keys;
      while todo != {}
        invariant Valid() && Continues(origin, earlier) && AtBin(before, source, live, start, b)
        invariant InPlace(b.files, wanted) && todo == b.files.Keys - wanted.Keys && b.dirs == placed.dirs
        decreases |todo|
      {
        hide BinStands;
        var fault := Faulty(reliable);
        if fault {
          return false, b;
        }
        var rel :| rel in todo;
        DropOneFile(wanted, b, rel);
        StepBin(before, source, live, start, b, RemoveFile(rel));
        b := Stepped(wanted, b, RemoveFile(rel));
        todo := todo - {rel};
      }
      NothingElse(wanted, b.files);
      ok := true;
    }

    // The directories nothing needs go deepest first, so each is empty when its turn comes.
    method DropDirs(ghost before: World, source: Owned, ghost live: Owned, ghost start: BinTree,
                    ghost left: BinTree, reliable: bool)
      returns (ok: bool, ghost b: BinTree)
      requires Valid() && AtBin(before, source, live, start, left) && left.files == source.dirs[Bin]
      modifies this
      ensures Valid() && Continues(old(first), old(log)) && AtBin(before, source, live, start, b) && (reliable ==> ok)
      ensures ok ==> b == BinTree(source.dirs[Bin], left.dirs * Required(source.dirs[Bin].Keys))
    {
      hide Legal, After, Enabled, Do, Restores, MayReturn, TreeLike, CanStep, Stepped, Required, Core, Real, IsTree;
      hide Pruned;
      ghost var origin, earlier := first, log;
      var wanted := source.dirs[Bin];
      b := left;
      StandingBin(DiskOf(world), live, b);
      var todo := world.binDirs - Required(wanted.Keys);
      StartPruning(wanted, left, todo);
      while todo != {}
        invariant Valid() && Continues(origin, earlier) && AtBin(before, source, live, start, b)
        invariant Pruned(wanted, left, b, todo)
        decreases |todo|
      {
        StandingBin(DiskOf(world), live, b);
        hide BinStands, Inv;
        var fault := Faulty(reliable);
        if fault {
          return false, b;
        }
        var d := Deepest(todo);
        DropOneDir(wanted, left, b, todo, d);
        StepBin(before, source, live, start, b, RemoveDir(d));
        b := Stepped(wanted, b, RemoveDir(d));
        todo := todo - {d};
      }
      DonePruning(wanted, left, b);
      ok := true;
    }

    // Directories, expected files, stray files, stray directories.
    method RebuildBin(ghost before: World, source: Owned, ghost live: Owned, ghost start: BinTree, reliable: bool)
      returns (ok: bool, ghost b: BinTree)
      requires Valid() && AtBin(before, source, live, start, start) && Required(start.files.Keys) <= start.dirs
      modifies this
      ensures Valid() && Continues(old(first), old(log)) && AtBin(before, source, live, start, b)
      ensures ok ==> b == BinTree(source.dirs[Bin], Required(source.dirs[Bin].Keys))
      ensures ok ==> NoClash(start, source.dirs[Bin])
      ensures reliable && !ok ==> !NoClash(start, source.dirs[Bin])
    {
      WantedIsNotRequired(source.dirs[Bin]);
      hide Valid, AtBin, TreeLike, Required, InPlace;
      ok, b := MakeRequired(before, source, live, start, reliable);
      if ok {
        ok, b := ReplaceFiles(before, source, live, start, b, reliable);
        if ok {
          ok, b := DropFiles(before, source, live, start, b, reliable);
          if ok {
            ok, b := DropDirs(before, source, live, start, b, reliable);
          }
        }
      }
    }

    // `bin` is restored in place, and can be exactly when nothing in it stands where a file or a
    // directory of another kind must be.
    method RestoreBin(ghost before: World, source: Owned, reliable: bool) returns (ok: bool)
      requires Valid() && Restores(before, source) && Bin in source.dirs && TreeLike(source.dirs[Bin].Keys)
      requires before.obstructed == {}
      modifies this
      ensures Valid() && Continues(old(first), old(log)) && Restores(before, source)
      ensures ok ==> world.live == WithBin(old(world.live), source.dirs[Bin])
      ensures ok ==> world.binDirs == Required(source.dirs[Bin].Keys)
      ensures ok ==> Fits(DiskOf(old(world)), source)
      ensures reliable && !ok ==> !Fits(DiskOf(old(world)), source)
      ensures MayReturn(BinOf(DiskOf(old(world))), BinFiles(source), BinOf(DiskOf(world)))
    {
      hide Inv, Legal, After, Enabled, Do, TreeLike, Required, NoClash, MayReturn, Real, IsTree;
      ghost var live := world.live;
      DiskIsReal(world);
      StartOfBin(DiskOf(world), source);
      var fault := Faulty(reliable);
      if fault {
        return false;
      }
      if Bin !in world.live.dirs {
        Put(before, source, MakeBin);
      }
      ghost var start := BinOf(DiskOf(world));
      assert BinStands(DiskOf(world), live, start);
      DiskIsReal(world);
      StandingBin(DiskOf(world), live, start);
      TreeHasItsDirs(start);
      ghost var b;
      ok, b := RebuildBin(before, source, live, start, reliable);
      StandingBin(DiskOf(world), live, b);
    }

    // Refused outright if anything of the wrong kind stands at an owned place.
    method RestoreFiles(ghost before: World, source: Owned, reliable: bool) returns (ok: bool)
      requires Valid() && Restores(before, source) && Complete(source) && TreeLike(BinKeys(source))
      modifies this
      ensures Valid() && Continues(old(first), old(log)) && Restores(before, source)
      ensures ok ==> RestoredTo(DiskOf(world), source) && Fits(DiskOf(old(world)), source)
      ensures reliable && !ok ==> !Fits(DiskOf(old(world)), source)
      ensures MayReturn(BinOf(DiskOf(old(world))), BinFiles(source), BinOf(DiskOf(world)))
    {
      hide Inv, Legal, After, Enabled, Do, TreeLike, NoClash, MayReturn, Required;
      ghost var origin, earlier, start := first, log, DiskOf(world);
      DiskIsReal(world);
      StartOfBin(start, source);
      if world.obstructed != {} {
        return false;
      }
      var i := 0;
      while i < |DIRECTORY_NAMES|
        invariant Valid() && Continues(origin, earlier) && Restores(before, source) && i <= |DIRECTORY_NAMES|
        invariant forall d :: d in DIRECTORY_NAMES[..i] ==> d in world.live.dirs && world.live.dirs[d] == source.dirs[d]
        invariant i < |DIRECTORY_NAMES| ==> BinOf(DiskOf(world)) == BinOf(start)
        invariant i == |DIRECTORY_NAMES| ==> world.binDirs == Required(BinKeys(source)) && Fits(start, source)
        invariant MayReturn(BinOf(start), BinFiles(source), BinOf(DiskOf(world)))
      {
        var d := DIRECTORY_NAMES[i];
        if d == Bin {
          ok := RestoreBin(before, source, reliable);
        } else {
          ok := ReplaceDir(before, source, d, reliable);
        }
        if !ok {
          return;
        }
        i := i + 1;
      }
      AllNamed();
      SameDirs(world.live.dirs, source.dirs);
      ok := RestoreExternal(before, source, reliable);
    }

    method RestoreExternal(ghost before: World, source: Owned, reliable: bool) returns (ok: bool)
      requires Valid() && Restores(before, source) && Complete(source) && world.live.dirs == source.dirs
      requires before.obstructed == {}
      modifies this
      ensures Valid() && Continues(old(first), old(log)) && Restores(before, source) && (reliable ==> ok)
      ensures world.live.dirs == source.dirs && world.binDirs == old(world.binDirs)
      ensures ok ==> world.live == source
    {
      hide Inv, Legal, After, Enabled, Do;
      var fault := Faulty(reliable);
      if fault {
        return false;
      }
      Put(before, source, ExternalIn(CodexConfig));
      fault := Faulty(reliable);
      if fault {
        return false;
      }
      Put(before, source, ExternalIn(StudioPlugin));
      SameExternal(world.live.external, source.external);
      ok := true;
    }

    // ---------------------------------------------------------------- what is read

    // A stale marker is never healthy.
    method Status() returns (ok: bool)
      ensures ok == StatusOk(world)
      ensures ok && world.marker.Some? ==> world.marker.value.nonce in world.active + world.recovering
    {
      var installed := InstalledVersion(world.live);
      if installed.None? {
        return false;
      }
      var latest := LatestReceipt(world.live);
      if world.marker.None? {
        match latest {
          case NoReceipt => return true;
          case Readable(r) => return r.current == installed.value;
          case Unreadable => return false;
        }
      }
      if !ValidMarker(world) {
        return false;
      }
      var t := world.marker.value;
      var receiptOf := if t.action == Rollback then t.current else t.previous;
      var candidateOk := t.nonce in world.active && t.current == installed.value && ReceiptNames(latest, receiptOf);
      var recoveryOk :=
        t.nonce in world.recovering && t.previous == installed.value && ReceiptNames(latest, t.previous);
      return candidateOk || recoveryOk;
    }

    // Only the live update may install another version.
    method AuthorizesCrossVersionInstall(candidate: Version) returns (yes: bool)
      requires Valid()
      ensures yes == Authorizes(world, candidate)
      ensures yes ==> world.marker.Some? && world.marker.value.nonce in world.active
      ensures yes ==> world.marker.value.current == candidate
      ensures world.process.Idle? ==> !yes
      ensures yes <==>
        exists t :: Updating(world, t) && candidate == t.current && InstalledVersion(world.live) == Some(t.previous)
    {
      AuthorizedIff(world, candidate);
      hide Updating;
      if !ValidMarker(world) {
        return false;
      }
      var t := world.marker.value;
      var installed := InstalledVersion(world.live);
      yes := t.action == Action.Update && t.nonce in world.active && installed == Some(t.previous)
        && t.current == candidate && t.previous != candidate;
    }

    // ---------------------------------------------------------------- the parts of a transaction

    method BeginPending(reliable: bool) returns (t: Option<Pending>)
      requires Valid() && world.process.Sealed?
      modifies this
      ensures Valid() && Continues(old(first), old(log))
      ensures DiskOf(world) == DiskOf(old(world)) && world.base == old(world.base) && world.snaps == old(world.snaps)
      ensures t.None? ==> world.process.Idle?
      ensures t.Some? ==> Begun(old(world), world, t.value)
      ensures reliable && old(world.marker).None? ==> t.Some?
    {
      var job := world.process.job;
      if world.marker.Some? {
        Perform(Abandon);
        return None;
      }
      var fault := Faulty(reliable);
      if fault {
        var landed := *;
        if landed {
          Perform(BeginFault);
        } else {
          Perform(Abandon);
        }
        return None;
      }
      Perform(Begin);
      t := world.marker;
    }

    // Archive a receipt, then make it the latest.
    method WriteReceipt(reliable: bool) returns (ok: bool)
      requires Valid() && world.process.Checked?
      modifies this
      ensures Valid() && Continues(old(first), old(log)) && (reliable ==> ok)
      ensures SameDisk(old(world), world)
      ensures if ok then Written(old(world), world) else world.process == UndoOf(old(world).process.t)
    {
      hide Inv, Legal, After, LatestReceipt, InstalledVersion;
      ghost var before := world;
      AcceptedHasState(world);
      var name := NewReceiptName(world.live.dirs[State].Keys);
      var fault := Faulty(reliable);
      if !fault {
        Perform(Archive(name));
        fault := Faulty(reliable);
        if !fault {
          Perform(WriteLatest);
          assert Written(before, world);
          return true;
        }
      }
      FailNow();
      return false;
    }

    method FailNow()
      requires Valid() && Enabled(world, Fail)
      requires !world.process.Proving? && !world.process.Withdrawing?
      requires world.process.Restoring? ==> world.process.purpose == Forward
      modifies this
      ensures Valid() && Continues(old(first), old(log)) && SameDisk(old(world), world)
      ensures world.process == UndoOf(old(world).process.t) && DiskOf(world) == DiskOf(old(world))
    {
      Perform(Fail);
    }

    method StopHere()
      requires Valid() && Enabled(world, Fail)
      requires world.process.Restoring? ==> world.process.purpose != Forward
      requires world.process.Proving? || world.process.Withdrawing? || world.process.Restoring?
      modifies this
      ensures Valid() && Continues(old(first), old(log)) && SameDisk(old(world), world)
      ensures world.process.Idle? && DiskOf(world) == DiskOf(old(world))
    {
      Perform(Fail);
    }

    // Remove this transaction's marker.  When the removal is not durable, the marker is written back.
    method ClearPending(reliable: bool) returns (cleared: bool)
      requires Valid()
      requires world.process.Receipted? || world.process.Withdrawing? || (world.process.Proving? && StatusOk(world))
      modifies this
      ensures Valid() && Continues(old(first), old(log)) && (reliable ==> cleared)
      ensures world.snaps == old(world.snaps) && DiskOf(world) == DiskOf(old(world))
      ensures cleared ==> world.process.Idle? && world.marker.None?
      ensures !cleared ==> world.marker == old(world.marker) && world.base == old(world.base)
      ensures !cleared ==> world.process == if old(world).process.Receipted? then UndoOf(old(world).process.t) else Idle
      ensures cleared && !old(world).process.Receipted? ==> world.base == old(world.base)
    {
      hide Inv, Legal, After, Do, Enabled;
      MarkerIsOwn(world);
      var t := world.process.t;
      RemoveMarker(t);
      var fault := Faulty(reliable);
      if fault {
        PutMarkerBack(t);
      } else {
        UnlinkIsDurable(t);
      }
      cleared := !fault;
    }

    method RemoveMarker(t: Pending)
      requires Valid()
      requires world.process.Receipted? || world.process.Withdrawing? || (world.process.Proving? && StatusOk(world))
      requires t == world.process.t && world.marker == Some(t)
      modifies this
      ensures Valid() && Continues(old(first), old(log))
      ensures world.snaps == old(world.snaps) && DiskOf(world) == DiskOf(old(world)) && world.marker.None?
      ensures world.process == Unlinked(t, if old(world).process.Receipted? then Committed else Cleared)
      ensures world.base == if old(world).process.Receipted? then old(world.live) else old(world.base)
    {
      hide Inv, Legal, After;
      Perform(Unlink);
    }

    method UnlinkIsDurable(t: Pending)
      requires Valid() && world.process.Unlinked? && world.process.t == t
      modifies this
      ensures Valid() && Continues(old(first), old(log)) && SameDisk(old(world), world)
      ensures world.process.Idle? && DiskOf(world) == DiskOf(old(world))
    {
      hide Inv, Legal, After;
      Perform(Finish);
    }

    method PutMarkerBack(t: Pending)
      requires Valid() && world.process.Unlinked? && world.process.t == t
      requires world.process.ending == Committed ==> t.snapshot in world.snaps
      modifies this
      ensures Valid() && Continues(old(first), old(log))
      ensures world.marker == Some(t) && world.snaps == old(world.snaps) && DiskOf(world) == DiskOf(old(world))
      ensures world.process == if old(world).process.ending == Committed then UndoOf(t) else Idle
      ensures world.base ==
        if old(world).process.ending == Committed then world.snaps[t.snapshot].copy else old(world.base)
    {
      hide Inv, Legal, After;
      Perform(Rewrite);
    }

    // The restored release's doctor runs before its marker goes.
    method ProveAndClear(reliable: bool) returns (cleared: bool)
      requires Valid() && world.process.Restoring? && world.process.purpose != Forward
      requires world.process.source in world.snaps
      requires RestoredTo(DiskOf(world), world.snaps[world.process.source].copy)
      modifies this
      ensures Valid() && Continues(old(first), old(log)) && (reliable ==> cleared)
      ensures world.process.Idle? && world.base == old(world.base) && DiskOf(world) == DiskOf(old(world))
      ensures cleared ==> world.marker.None?
      ensures !cleared ==> world.marker == old(world.marker)
    {
      hide Inv, Legal, After;
      Perform(RestoredBack);
      hide Do, Enabled, StatusOk;
      RestoredDoctorSeesOk(world);
      var fault := Faulty(reliable);
      if fault {
        ProvingMayFail(world);
        StopHere();
        return false;
      }
      cleared := ClearPending(reliable);
    }

    // Put the snapshot back after a failed switch, or recover an interrupted one.
    method Undo(reliable: bool) returns (undone: bool)
      requires Valid() && world.process.Restoring? && world.process.purpose != Forward
      modifies this
      ensures Valid() && Continues(old(first), old(log))
      ensures world.process.Idle? && world.base == old(world.base)
      ensures old(world).process.source in old(world).snaps
      ensures var source := old(world).snaps[old(world).process.source].copy;
        && (undone ==> RestoredTo(DiskOf(world), source) && Fits(DiskOf(old(world)), source))
        && (reliable && !undone ==> !Fits(DiskOf(old(world)), source))
      ensures undone ==> world.marker.None?
      ensures !undone ==> world.marker == old(world.marker)
    {
      hide Inv, Legal, After, Do, Enabled, Fits, RestoredTo, MayReturn, TreeLike;
      SourceOf(world);
      ghost var before := world;
      var source := world.snaps[world.process.source].copy;
      var ok := RestoreFiles(before, source, reliable);
      if !ok {
        RestoringMayFail(world);
        StopHere();
        return false;
      }
      undone := ProveAndClear(reliable);
    }

    // ---------------------------------------------------------------- transactions

    // Run the candidate's writes, then its doctor.
    method ApplyAndValidate(writes: seq<OnDisk>, reliable: bool) returns (ok: bool)
      requires Valid() && world.process.Switching?
      modifies this
      ensures Valid() && Continues(old(first), old(log)) && SameDisk(old(world), world)
      ensures !ok ==> world.process == UndoOf(old(world).process.t)
      ensures ok || reliable ==> DiskOf(world) == LastOf(DiskOf(old(world)), writes)
      ensures ok ==> world.process == Checked(old(world).process.t, world.live)
      ensures reliable && GoodInstall(old(world).base, old(world).process.t.current, DiskOf(old(world)), writes) ==> ok
    {
      hide Inv, Legal, After, Real;
      ghost var before, origin, earlier := world, first, log;
      var i := 0;
      while i < |writes|
        invariant Valid() && Continues(origin, earlier) && i <= |writes|
        invariant world == before.(live := world.live, binDirs := world.binDirs, obstructed := world.obstructed)
        invariant DiskOf(world) == LastOf(DiskOf(before), writes[..i])
      {
        var fault := Faulty(reliable);
        if fault {
          FailNow();
          return false;
        }
        Perform(CandidateWrite(writes[i]));
        i := i + 1;
      }
      assert writes[..i] == writes;
      var fault := Faulty(reliable);
      ok := Status();
      if InstalledVersion(world.live) == Some(world.process.t.current)
         && LatestReceipt(world.live) == LatestReceipt(world.base) {
        CandidateDoctorSeesOk(world);
      }
      if fault || !ok {
        FailNow();
        return false;
      }
      Perform(Accept);
    }

    // Seal the accepted files with a receipt, or undo.
    method Commit(ghost before: World, reliable: bool) returns (outcome: Outcome)
      requires Valid() && world.process.Checked? && world.base == before.base && world.base == before.live
      modifies this
      ensures Valid() && Continues(old(first), old(log)) && (reliable ==> outcome == Done)
      ensures outcome == Done ==>
        var t := old(world).process.t;
        Switched(before, world, t.action, t.previous, t.current, old(world).process.files)
      ensures outcome == Refused ==> Held(before, world)
      ensures outcome != NothingToDo
    {
      hide Inv, Legal, After, Do, Enabled, Switched, Held;
      var ok := WriteReceipt(reliable);
      if ok {
        ghost var written := world;
        ok := ClearPending(reliable);
        if ok {
          CommittedIs(before, written, world);
          return Done;
        }
      }
      var undone := Undo(reliable);
      HeldIs(before, world);
      outcome := Refused;
    }

    // A refused update undoes itself, unless its candidate left something in `bin` that clashes.
    method TransactionalSwitch(candidate: Version, writes: seq<OnDisk>, reliable: bool) returns (outcome: Outcome)
      requires Valid() && world.process.Idle?
      requires InstalledVersion(world.live).Some? && InstalledVersion(world.live).value != candidate
      modifies this
      ensures Valid() && Continues(old(first), old(log)) && outcome != NothingToDo
      ensures outcome == Refused ==> Held(old(world), world)
      ensures outcome == Done ==>
        && old(world).marker.None?
        && Switched(old(world), world, Action.Update, InstalledVersion(old(world).live).value, candidate,
                    LastOf(DiskOf(old(world)), writes).files)
      ensures (reliable && old(world).marker.None? && Complete(old(world).live)
               && GoodInstall(old(world).live, candidate, DiskOf(old(world)), writes)) ==> outcome == Done
      ensures reliable && old(world).marker.None? && Complete(old(world).live) && outcome == Refused ==>
        (world.marker.None? <==> Fits(LastOf(DiskOf(old(world)), writes), old(world).live))
    {
      hide Inv, Legal, After, Switched, Held, Fits, RestoredTo;
      ghost var before := world;
      Perform(StartUpdate(candidate));
      hide Do, Enabled;
      var ok := Capture(world, reliable);
      if !ok {
        HeldIs(before, world);
        return Refused;
      }
      var pending := BeginPending(reliable);
      if pending.None? {
        HeldIs(before, world);
        return Refused;
      }
      SettledLive(before);
      ok := ApplyAndValidate(writes, reliable);
      if !ok {
        var undone := Undo(reliable);
        HeldIs(before, world);
        return Refused;
      }
      outcome := Commit(before, reliable);
    }

    // Stop the running release, restore the prior snapshot, and let the restored release's doctor
    // judge.  A prior release that does not fit is undone again.
    method RestorePrior(ghost before: World, reliable: bool) returns (ok: bool)
      requires Valid() && world.process.Stopping? && world.base == before.base
      modifies this
      ensures Valid() && Continues(old(first), old(log)) && world.base == before.base
      ensures old(world).process.prior in old(world).snaps
      ensures var prior := old(world).snaps[old(world).process.prior].copy;
        && (ok ==> world.process == Checked(old(world).process.t, prior) && Fits(DiskOf(old(world)), prior))
        && (reliable && !ok ==> !Fits(DiskOf(old(world)), prior) && world.marker.None?)
      ensures !ok ==> world.process.Idle?
    {
      hide Inv, Legal, After, Fits, RestoredTo, MayReturn, TreeLike, Do, Enabled;
      PriorIsIntact(world);
      StoppedLive(world);
      ghost var start := DiskOf(world);
      var fault := Faulty(reliable);
      if fault {
        Withdraw();
        return false;
      }
      StopForRestore();
      SourceOf(world);
      var prior := world.snaps[world.process.source].copy;
      ok := RestoreFiles(world, prior, reliable);
      fault := Faulty(reliable);
      if !ok || fault {
        GiveUp(start, prior, reliable);
        return false;
      }
      RestoredIsLive(DiskOf(world), prior);
      AcceptPrior();
    }

    method StopForRestore()
      requires Valid() && world.process.Stopping?
      requires world.process.prior in world.snaps && VerifiedSnapshot(world.snaps[world.process.prior])
      modifies this
      ensures Valid() && Continues(old(first), old(log))
      ensures world == old(world).(process := Restoring(old(world).process.t, old(world).process.prior, Forward))
    {
      hide Inv, Legal, After;
      Perform(StopOk);
    }

    // The running release could not be stopped, so nothing was changed.
    method Withdraw()
      requires Valid() && world.process.Stopping?
      modifies this
      ensures Valid() && Continues(old(first), old(log)) && world.process.Idle? && world.base == old(world.base)
    {
      hide Inv, Legal, After;
      Perform(StopRefused);
      hide Do, Enabled;
      var cleared := ClearPending(false);
    }

    method AcceptPrior()
      requires Valid() && world.process.Restoring? && world.process.purpose == Forward
      requires world.process.source in world.snaps
      requires RestoredTo(DiskOf(world), world.snaps[world.process.source].copy)
      modifies this
      ensures Valid() && Continues(old(first), old(log)) && SameDisk(old(world), world)
      ensures world.process == Checked(old(world).process.t, old(world).live)
    {
      hide Inv, Legal, After, Required;
      RollbackDoctorSeesOk(world);
      Perform(Accept);
    }

    method GiveUp(ghost start: DiskFiles, ghost prior: Owned, reliable: bool)
      requires Valid() && world.process.Restoring? && world.process.purpose == Forward && start.files == world.base
      requires MayReturn(BinOf(start), BinFiles(prior), BinOf(DiskOf(world))) && world.obstructed == {}
      modifies this
      ensures Valid() && Continues(old(first), old(log)) && world.base == old(world.base)
      ensures world.process.Idle? && (reliable ==> world.marker.None?)
    {
      hide Inv, Legal, After, Fits, RestoredTo, MayReturn, Do;
      MayGoBack(start, prior, DiskOf(world));
      FailNow();
      UndoingNamesBase(world);
      var undone := Undo(reliable);
    }

    method StartRollingBack()
      requires Valid() && world.process.Idle? && RollbackAllowed(world)
      modifies this
      ensures Valid() && Continues(old(first), old(log))
      ensures var r := LatestReceipt(old(world).live).receipt;
        world == Started(old(world), RollbackJob(r.current, r.previous, r.snapshot))
    {
      hide Inv, Legal, After;
      Perform(StartRollback);
    }

    // Put back the exact files of the snapshot the latest receipt names.  Undisturbed, it is done
    // exactly when that release's `bin` fits over the present one, and otherwise everything is back.
    method TransactionalSnapshotRollback(reliable: bool) returns (outcome: Outcome)
      requires Valid() && world.process.Idle? && RollbackAllowed(world)
      modifies this
      ensures Valid() && Continues(old(first), old(log)) && outcome != NothingToDo
      ensures outcome == Refused ==> Held(old(world), world)
      ensures var r := LatestReceipt(old(world).live).receipt;
        var prior := old(world).snaps[r.snapshot].copy;
        && (outcome == Done ==>
              && old(world).marker.None? && Fits(DiskOf(old(world)), prior)
              && Switched(old(world), world, Rollback, r.current, r.previous, prior))
        && (reliable && old(world).marker.None? && Complete(old(world).live) ==>
              && (outcome == Done <==> Fits(DiskOf(old(world)), prior))
              && world.marker.None?)
    {
      hide Inv, Legal, After, Switched, Held, Fits, Do, Enabled, Complete;
      ghost var before := world;
      SnapshotIsOlder(before, LatestReceipt(before.live).receipt.snapshot);
      StartRollingBack();
      var ok := Capture(world, reliable);
      if !ok {
        HeldIs(before, world);
        return Refused;
      }
      var pending := BeginPending(reliable);
      if pending.None? {
        HeldIs(before, world);
        return Refused;
      }
      SettledLive(before);
      ok := RestorePrior(before, reliable);
      if !ok {
        HeldIs(before, world);
        return Refused;
      }
      outcome := Commit(before, reliable);
      CommittedHasNoMarker(before, world);
    }

    // ---------------------------------------------------------------- operations

    method Update(candidate: Version, writes: seq<OnDisk>, reliable: bool) returns (outcome: Outcome)
      requires Valid() && world.process.Idle?
      modifies this
      ensures Valid() && Continues(old(first), old(log)) && outcome != NothingToDo
      ensures outcome == Refused ==> Held(old(world), world)
      ensures outcome == Done ==>
        && InstalledVersion(old(world).live).Some? && InstalledVersion(old(world).live).value != candidate
        && Switched(old(world), world, Action.Update, InstalledVersion(old(world).live).value, candidate,
                    LastOf(DiskOf(old(world)), writes).files)
      ensures (reliable && old(world).marker.None? && Complete(old(world).live)
               && InstalledVersion(old(world).live).Some? && InstalledVersion(old(world).live).value != candidate
               && GoodInstall(old(world).live, candidate, DiskOf(old(world)), writes)) ==> outcome == Done
    {
      hide Inv, Legal, After, Switched, Held, Fits, GoodInstall;
      var installed := InstalledVersion(world.live);
      var fault := Faulty(reliable);
      if installed.None? || installed.value == candidate || fault {
        HeldIs(world, world);
        return Refused;
      }
      outcome := TransactionalSwitch(candidate, writes, reliable);
    }

    // Only the version the latest receipt came from, and only from the version the caller accepts.
    method RollBack(target: Version, accepted: Version, reliable: bool) returns (outcome: Outcome)
      requires Valid() && world.process.Idle?
      modifies this
      ensures Valid() && Continues(old(first), old(log)) && outcome != NothingToDo
      ensures outcome == Refused ==> Held(old(world), world)
      ensures outcome == Done ==>
        && LatestReceipt(old(world).live).Readable?
        && var r := LatestReceipt(old(world).live).receipt;
        && r.snapshot in old(world).snaps
        && Switched(old(world), world, Rollback, accepted, target, old(world).snaps[r.snapshot].copy)
      ensures (reliable && old(world).marker.None? && Complete(old(world).live)
               && RollbackAllowed(old(world)) && LatestReceipt(old(world).live).receipt.current == accepted
               && LatestReceipt(old(world).live).receipt.previous == target) ==>
        var r := LatestReceipt(old(world).live).receipt;
        world.marker.None? && (outcome == Done <==> Fits(DiskOf(old(world)), old(world).snaps[r.snapshot].copy))
    {
      hide Inv, Legal, After, Switched, Held, Fits;
      var latest := LatestReceipt(world.live);
      if InstalledVersion(world.live) != Some(accepted) || !latest.Readable?
         || latest.receipt.current != accepted || latest.receipt.previous != target || !RollbackAllowed(world) {
        HeldIs(world, world);
        return Refused;
      }
      outcome := TransactionalSnapshotRollback(reliable);
    }

    // From any marker a crash may have left, an undisturbed recovery completes exactly when nothing
    // in `bin` clashes with the snapshot.
    method RecoverInterruptedUpdate(reliable: bool) returns (outcome: Outcome)
      requires Valid() && world.process.Idle?
      modifies this
      ensures Valid() && Continues(old(first), old(log)) && world.process.Idle? && world.base == old(world).base
      ensures outcome == NothingToDo <==> old(world).marker.None?
      ensures outcome == NothingToDo ==> world == old(world)
      ensures outcome == Done ==>
        && old(world).marker.Some? && world.marker.None?
        && var t := old(world).marker.value;
        && t.snapshot in old(world).snaps && RestoredTo(DiskOf(world), old(world).snaps[t.snapshot].copy)
        && InstalledVersion(world.live) == Some(t.previous) && Clear(old(world), t)
      ensures outcome == Refused ==> world.marker == old(world).marker && Held(old(world), world)
      ensures reliable && old(world).marker.Some? ==> (outcome == Done <==> Clear(old(world), old(world).marker.value))
    {
      hide Inv, Legal, After, Held, RestoredTo, Fits;
      if world.marker.None? {
        return NothingToDo;
      }
      RecoveryIsAlwaysOpen(world);
      MarkerNamesBase(world);
      ghost var before := world;
      var fault := Faulty(reliable);
      if fault {
        HeldIs(before, world);
        return Refused;
      }
      Perform(Recover);
      hide Do, Enabled;
      var recovered := Undo(reliable);
      if recovered {
        SettledLive(world);
        return Done;
      }
      HeldIs(before, world);
      outcome := Refused;
    }
  }
}
