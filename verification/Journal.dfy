// The release transaction journal as a protocol over atomic file steps
// (release_tools/updater.py, 836-1022, 1458-1785).
//
// A step is one atomic change of the disk, or one change of what the running process knows.  A
// crash may come between any two of them; it forgets the process and keeps the disk.
module Journal {
  import opened Basics
  import opened FileTrees
  import opened ReleaseFiles
  import opened InPlaceRestore

  datatype Job =
    | UpdateJob(previous: Version, current: Version)
    | RollbackJob(previous: Version, current: Version, prior: nat)

  // Why a snapshot is being restored: as the rollback itself, to undo a failed switch, or to
  // recover an interrupted one.
  datatype Purpose = Forward | Undo | Recovery

  datatype Ending = Committed | Cleared

  // Where the running process is.
  datatype Process =
    | Idle
    | Capturing(job: Job, id: nat)
    | Sealed(job: Job, id: nat)
    | Switching(t: Pending)
    | Stopping(t: Pending, prior: nat)
    | Withdrawing(t: Pending)
    | Restoring(t: Pending, source: nat, purpose: Purpose)
    | Proving(t: Pending)
    | Checked(t: Pending, files: Owned)     // the files its doctor accepted
    | Archived(t: Pending, files: Owned, name: Rel)
    | Receipted(t: Pending, files: Owned, name: Rel)
    | Unlinked(t: Pending, ending: Ending)

  datatype World = World(
    live: Owned,                  // on disk: the owned files
    binDirs: set<Rel>,            // on disk: the directories inside `bin`, empty ones included
    obstructed: set<Place>,       // on disk: places where something of the wrong kind stands
    snaps: map<nat, Snapshot>,    // on disk: backups/release-updates/transaction-*
    marker: Option<Pending>,      // on disk: the pending marker
    active: set<nat>,             // in memory: _ACTIVE_VALIDATION_NONCES
    recovering: set<nat>,         // in memory: _ACTIVE_RECOVERY_NONCES
    process: Process,             // in memory: the running operation
    unused: nat,                  // names and nonces from here on have never been used
    base: Owned)                  // history: the owned files as they last settled

  // ---------------------------------------------------------------- checks the code makes

  // The stale-marker validation: identity, snapshot hashes, and the version it was taken of.
  predicate ValidMarker(w: World) {
    && w.marker.Some?
    && var t := w.marker.value;
    && t.previous != t.current
    && t.snapshot in w.snaps
    && VerifiedSnapshot(w.snaps[t.snapshot])
    && w.snaps[t.snapshot].manifest == Some(t.manifest)
    && InstalledVersion(w.snaps[t.snapshot].copy) == Some(t.previous)
  }

  predicate ReceiptNames(latest: Latest, version: Version) {
    latest.NoReceipt? || (latest.Readable? && latest.receipt.current == version)
  }

  // status()["ok"]: a pending marker must be proven live by this process; otherwise the latest
  // receipt must name the installed version.
  predicate StatusOk(w: World) {
    var installed := InstalledVersion(w.live);
    var latest := LatestReceipt(w.live);
    && installed.Some?
    && if w.marker.Some? then
         && ValidMarker(w)
         && var t := w.marker.value;
         || (t.nonce in w.active && t.current == installed.value
             && ReceiptNames(latest, if t.action == Rollback then t.current else t.previous))
         || (t.nonce in w.recovering && t.previous == installed.value && ReceiptNames(latest, t.previous))
       else ReceiptNames(latest, installed.value)
  }

  // authorizes_cross_version_install
  predicate Authorizes(w: World, candidate: Version) {
    && ValidMarker(w)
    && var t := w.marker.value;
    && t.action == Update && t.nonce in w.active
    && InstalledVersion(w.live) == Some(t.previous)
    && t.current == candidate && t.previous != candidate
  }

  // The one-step rollback the latest receipt allows.
  predicate RollbackAllowed(w: World) {
    && InstalledVersion(w.live).Some?
    && LatestReceipt(w.live).Readable?
    && var r := LatestReceipt(w.live).receipt;
    && r.current == InstalledVersion(w.live).value
    && r.snapshot in w.snaps
    && VerifiedSnapshot(w.snaps[r.snapshot])
    && InstalledVersion(w.snaps[r.snapshot].copy) == Some(r.previous)
  }

  // ---------------------------------------------------------------- one restore step

  datatype Move =
    | DirOut(d: Dir)       // rename the live directory into the failed root
    | DirIn(d: Dir)        // rename the verified copy into place
    | MakeBin
    | InBin(step: BinStep) // one file or directory of `bin`, in place
    | ExternalIn(e: External)

  // The owned files on disk.
  function DiskOf(w: World): DiskFiles {
    DiskFiles(w.live, w.binDirs, w.obstructed)
  }

  // `bin` as it stands, empty if it is missing.
  function BinOf(d: DiskFiles): BinTree {
    BinTree(BinFiles(d.files), d.binDirs)
  }

  // A restore begins by refusing anything of the wrong kind at any place.
  predicate MoveEnabled(source: Owned, disk: DiskFiles, m: Move) {
    && disk.obstructed == {}
    && match m
       case DirOut(d) => d != Bin && d in disk.files.dirs
       case DirIn(d) => d != Bin && d in source.dirs && d !in disk.files.dirs
       case MakeBin => Bin !in disk.files.dirs
       case InBin(step) =>
         Bin in source.dirs && Bin in disk.files.dirs && CanStep(source.dirs[Bin], BinOf(disk), step)
       case ExternalIn(e) => e in source.external
  }

  function WithBin(o: Owned, tree: Tree): Owned {
    o.(dirs := o.dirs[Bin := tree])
  }

  function Moved(source: Owned, disk: DiskFiles, m: Move): DiskFiles
    requires MoveEnabled(source, disk, m)
  {
    var live := disk.files;
    match m
    case DirOut(d) => disk.(files := live.(dirs := live.dirs - {d}))
    case DirIn(d) => disk.(files := live.(dirs := live.dirs[d := source.dirs[d]]))
    case MakeBin => disk.(files := WithBin(live, map[]))
    case InBin(step) =>
      var b := Stepped(source.dirs[Bin], BinOf(disk), step);
      disk.(files := WithBin(live, b.files), binDirs := b.dirs)
    case ExternalIn(e) => disk.(files := live.(external := live.external[e := source.external[e]]))
  }

  // Every owned file is the source's, and `bin` has no directory too many.
  predicate RestoredTo(disk: DiskFiles, source: Owned) {
    disk.files == source && disk.binDirs == Required(BinKeys(source))
  }

  // ---------------------------------------------------------------- steps

  datatype Act =
    | Edit(disk: OnDisk)                  // anything outside a transaction writes owned files
    | StartUpdate(candidate: Version)
    | StartRollback
    | CopyDir(d: Dir)                     // make a directory of the snapshot
    | CopyFile(d: Dir, rel: Rel)
    | CopyExternal(e: External)
    | Seal                                // write and verify the manifest
    | Abandon                             // capture or begin was refused
    | Begin                               // write the marker, remember its nonce
    | BeginFault                          // the marker landed, but the write reported failure
    | CandidateWrite(disk: OnDisk)
    | Accept                              // the candidate's or the restored release's doctor said ok
    | Fail                                // any exception
    | StopRefused
    | StopOk
    | Restore(m: Move)
    | RestoredBack                        // undo or recovery is in place; its doctor runs next
    | Archive(name: Rel)                  // write the archived receipt
    | WriteLatest                         // write the latest receipt
    | Unlink                              // remove the marker
    | Finish                              // the unlink is durable
    | Rewrite                             // it was not, and the marker was written back
    | DoubleFault                         // it was not, and writing the marker back failed too
    | Recover
    | Crash

  function ReceiptFor(t: Pending): Receipt {
    Receipt(t.action, t.previous, t.current, t.snapshot)
  }

  function ReceiptFile(t: Pending): File {
    File(ReceiptDoc(ReceiptFor(t)), 0x180)
  }

  // The marker is this transaction's, as clearing it demands.
  predicate OwnMarker(w: World, t: Pending) {
    w.marker.Some? && w.marker.value.nonce == t.nonce
  }

  function PendingOf(w: World): Pending
    requires w.process.Sealed? && w.process.id in w.snaps && w.snaps[w.process.id].manifest.Some?
  {
    Pending(if w.process.job.UpdateJob? then Update else Rollback, w.unused,
            w.process.job.previous, w.process.job.current, w.process.id, w.snaps[w.process.id].manifest.value)
  }

  // Changes made while no transaction runs keep the installed version and its receipt; while a
  // stale marker waits for recovery, the half-switched files may be anything.
  predicate EditEnabled(w: World, files: Owned) {
    && w.process.Idle?
    && (w.marker.None? ==>
          InstalledVersion(files) == InstalledVersion(w.live) && LatestReceipt(files) == LatestReceipt(w.live))
  }

  predicate CopyEnabled(w: World) {
    w.process.Capturing? && w.process.id in w.snaps
  }

  predicate Enabled(w: World, a: Act) {
    var p := w.process;
    match a
    case Edit(disk) => EditEnabled(w, disk.files)
    case StartUpdate(candidate) =>
      p.Idle? && InstalledVersion(w.live).Some? && InstalledVersion(w.live).value != candidate
    case StartRollback => p.Idle? && RollbackAllowed(w)
    case CopyDir(d) => CopyEnabled(w) && d in w.live.dirs && d !in w.snaps[p.id].copy.dirs
    case CopyFile(d, rel) =>
      CopyEnabled(w) && d in w.live.dirs && rel in w.live.dirs[d] && d in w.snaps[p.id].copy.dirs
    case CopyExternal(e) => CopyEnabled(w) && e in w.live.external
    case Seal =>
      && CopyEnabled(w) && w.snaps[p.id].copy == w.live
      && w.live.dirs.Keys == ALL_DIRS && w.live.external.Keys == ALL_EXTERNALS
    case Abandon => p.Capturing? || p.Sealed?
    case Begin => p.Sealed? && p.id in w.snaps && w.snaps[p.id].manifest.Some? && w.marker.None?
    case BeginFault => p.Sealed? && p.id in w.snaps && w.snaps[p.id].manifest.Some? && w.marker.None?
    case CandidateWrite(_) => p.Switching?
    case Accept =>
      || (p.Switching? && StatusOk(w))
      || (p.Restoring? && p.purpose == Forward && p.source in w.snaps && RestoredTo(DiskOf(w), w.snaps[p.source].copy)
          && InstalledVersion(w.live) == Some(p.t.current) && StatusOk(w))
    case Fail =>
      || p.Switching? || p.Restoring? || p.Checked? || p.Archived? || p.Receipted? || p.Proving? || p.Withdrawing?
    case StopRefused => p.Stopping?
    case StopOk => p.Stopping? && p.prior in w.snaps && VerifiedSnapshot(w.snaps[p.prior])
    case Restore(m) => p.Restoring? && p.source in w.snaps && MoveEnabled(w.snaps[p.source].copy, DiskOf(w), m)
    case RestoredBack =>
      && p.Restoring? && p.purpose != Forward && p.source in w.snaps
      && RestoredTo(DiskOf(w), w.snaps[p.source].copy)
    case Archive(name) =>
      p.Checked? && State in w.live.dirs && ReceiptName(name) && name != LATEST_RECEIPT && name !in w.live.dirs[State]
    case WriteLatest => p.Archived? && State in w.live.dirs
    case Unlink =>
      || (p.Receipted? && OwnMarker(w, p.t))
      || (p.Proving? && OwnMarker(w, p.t) && StatusOk(w))
      || (p.Withdrawing? && OwnMarker(w, p.t))
    case Finish => p.Unlinked?
    case Rewrite => p.Unlinked?
    case DoubleFault => p.Unlinked? && p.ending == Committed
    case Recover => p.Idle? && ValidMarker(w) && w.marker.value.nonce !in w.active
    case Crash => true
  }

  // The end of an operation: its nonce is forgotten.
  function Ended(w: World, t: Pending): World {
    w.(process := Idle, active := w.active - {t.nonce}, recovering := w.recovering - {t.nonce})
  }

  function Started(w: World, job: Job): World {
    w.(process := Capturing(job, w.unused), snaps := w.snaps[w.unused := Snapshot(NOTHING, None)],
       unused := w.unused + 1)
  }

  function Copied(w: World, copy: Owned): World
    requires CopyEnabled(w)
  {
    w.(snaps := w.snaps[w.process.id := Snapshot(copy, None)])
  }

  function Failed(w: World): World
    requires Enabled(w, Fail)
  {
    var p := w.process;
    if p.Proving? || p.Withdrawing? || (p.Restoring? && p.purpose != Forward) then Ended(w, p.t)
    else w.(process := Restoring(p.t, p.t.snapshot, Undo))
  }

  function Do(w: World, a: Act): World
    requires Enabled(w, a)
  {
    var p := w.process;
    match a
    case Edit(disk) =>
      w.(live := disk.files, binDirs := disk.binDirs, obstructed := disk.obstructed,
         base := if w.marker.None? then disk.files else w.base)
    case StartUpdate(candidate) => Started(w, UpdateJob(InstalledVersion(w.live).value, candidate))
    case StartRollback =>
      var r := LatestReceipt(w.live).receipt;
      Started(w, RollbackJob(r.current, r.previous, r.snapshot))
    case CopyDir(d) => Copied(w, w.snaps[p.id].copy.(dirs := w.snaps[p.id].copy.dirs[d := map[]]))
    case CopyFile(d, rel) =>
      var copy := w.snaps[p.id].copy;
      Copied(w, copy.(dirs := copy.dirs[d := copy.dirs[d][rel := w.live.dirs[d][rel]]]))
    case CopyExternal(e) =>
      var copy := w.snaps[p.id].copy;
      Copied(w, copy.(external := copy.external[e := w.live.external[e]]))
    case Seal =>
      w.(snaps := w.snaps[p.id := Snapshot(w.snaps[p.id].copy, Some(ManifestOf(w.snaps[p.id].copy)))],
         process := Sealed(p.job, p.id))
    case Abandon => w.(process := Idle)
    case Begin =>
      var t := PendingOf(w);
      w.(marker := Some(t), active := w.active + {t.nonce}, unused := w.unused + 1,
         process := if p.job.UpdateJob? then Switching(t) else Stopping(t, p.job.prior))
    case BeginFault => w.(marker := Some(PendingOf(w)), unused := w.unused + 1, process := Idle)
    case CandidateWrite(disk) =>
      w.(live := disk.files, binDirs := disk.binDirs, obstructed := disk.obstructed)
    case Accept => w.(process := Checked(p.t, w.live))
    case Fail => Failed(w)
    case StopRefused => w.(process := Withdrawing(p.t))
    case StopOk => w.(process := Restoring(p.t, p.prior, Forward))
    case Restore(m) =>
      var disk := Moved(w.snaps[p.source].copy, DiskOf(w), m);
      w.(live := disk.files, binDirs := disk.binDirs)
    case RestoredBack => w.(process := Proving(p.t), recovering := w.recovering + {p.t.nonce})
    case Archive(name) => w.(live := PutState(w.live, name, ReceiptFile(p.t)), process := Archived(p.t, p.files, name))
    case WriteLatest =>
      w.(live := PutState(w.live, LATEST_RECEIPT, ReceiptFile(p.t)), process := Receipted(p.t, p.files, p.name))
    case Unlink =>
      w.(marker := None, process := Unlinked(p.t, if p.Receipted? then Committed else Cleared),
         base := if p.Receipted? then w.live else w.base)
    case Finish => Ended(w, p.t)
    case Rewrite =>
      if p.ending == Committed then
        w.(marker := Some(p.t), process := Restoring(p.t, p.t.snapshot, Undo),
           base := if p.t.snapshot in w.snaps then w.snaps[p.t.snapshot].copy else w.base)
      else Ended(w.(marker := Some(p.t)), p.t)
    case DoubleFault => w.(process := Restoring(p.t, p.t.snapshot, Undo))
    case Recover => w.(process := Restoring(w.marker.value, w.marker.value.snapshot, Recovery))
    case Crash => w.(process := Idle, active := {}, recovering := {})
  }

  // ---------------------------------------------------------------- runs

  predicate Legal(w: World, acts: seq<Act>)
    decreases acts
  {
    acts == [] || (Enabled(w, acts[0]) && Legal(Do(w, acts[0]), acts[1..]))
  }

  function After(w: World, acts: seq<Act>): World
    requires Legal(w, acts)
    decreases acts
  {
    if acts == [] then w else After(Do(w, acts[0]), acts[1..])
  }

  ghost predicate NoDoubleFault(acts: seq<Act>) {
    forall a :: a in acts ==> !a.DoubleFault?
  }
}
