// Owned files, snapshots, receipts and the pending marker (release_tools/updater.py, 35-48, 310-433).
module ReleaseFiles {
  import opened Basics
  import opened FileTrees

  type Version = string

  datatype Action = Update | Rollback

  datatype Receipt = Receipt(action: Action, previous: Version, current: Version, snapshot: nat)

  // File contents; JSON documents are kept as what they say.
  datatype Content =
    | Blob(bytes: Bytes)
    | InstallDoc(version: Version, details: Bytes)
    | ReceiptDoc(receipt: Receipt)

  datatype File = File(content: Content, mode: nat)

  type Tree = map<Rel, File>

  datatype Dir = Config | Artifacts | State | Bin

  datatype External = CodexConfig | StudioPlugin

  const ALL_DIRS := {Config, Artifacts, State, Bin}
  const ALL_EXTERNALS := {CodexConfig, StudioPlugin}

  // The four shared directories and the two external files an update may replace.
  datatype Owned = Owned(dirs: map<Dir, Tree>, external: map<External, File>)

  lemma SameDirs(a: map<Dir, Tree>, b: map<Dir, Tree>)
    requires forall d :: d in ALL_DIRS ==> d in a && d in b && a[d] == b[d]
    ensures a == b
  {
    forall d: Dir ensures d in ALL_DIRS {
      match d case Config => case Artifacts => case State => case Bin =>
    }
  }

  lemma SameExternal(a: map<External, File>, b: map<External, File>)
    requires forall e :: e in ALL_EXTERNALS ==> e in a && e in b && a[e] == b[e]
    ensures a == b
  {
    forall e: External ensures e in ALL_EXTERNALS {
      match e case CodexConfig => case StudioPlugin =>
    }
  }

  const NOTHING := Owned(map[], map[])

  ghost predicate Complete(o: Owned) {
    o.dirs.Keys == ALL_DIRS && o.external.Keys == ALL_EXTERNALS
  }

  // The files of `bin`, none if it is missing.
  function BinFiles(o: Owned): Tree {
    if Bin in o.dirs then o.dirs[Bin] else map[]
  }

  function BinKeys(o: Owned): set<Rel> {
    BinFiles(o).Keys
  }

  // Where the owned directories and the external files are.
  datatype Place = DirPlace(dir: Dir) | FilePlace(external: External)

  // What stands on disk: the owned files, the directories inside `bin`, empty ones included, and the
  // places at which something of the wrong kind stands, as a file where a directory belongs.
  datatype DiskFiles = DiskFiles(files: Owned, binDirs: set<Rel>, obstructed: set<Place>)

  predicate Real(d: DiskFiles) {
    && WellFormed(BinKeys(d.files), d.binDirs) && (Bin !in d.files.dirs ==> d.binDirs == {})
    && (forall dir :: DirPlace(dir) in d.obstructed ==> dir !in d.files.dirs)
    && (forall e :: FilePlace(e) in d.obstructed ==> e !in d.files.external)
  }

  type OnDisk = d: DiskFiles | Real(d) witness DiskFiles(NOTHING, {}, {})

  // A complete installation leaves no place for anything else.
  lemma CompleteIsUnobstructed(d: DiskFiles)
    requires Real(d) && Complete(d.files)
    ensures d.obstructed == {}
  {
    hide WellFormed;
    forall dir: Dir ensures dir in ALL_DIRS {
      match dir case Config => case Artifacts => case State => case Bin =>
    }
    forall e: External ensures e in ALL_EXTERNALS {
      match e case CodexConfig => case StudioPlugin =>
    }
    forall place: Place ensures place !in d.obstructed {
      assert place == if place.DirPlace? then DirPlace(place.dir) else FilePlace(place.external);
    }
  }

  const INSTALL_STATE: Rel := ["install-state.json"]
  const LATEST_RECEIPT: Rel := ["release-transaction-latest.json"]

  // SHA-256 of a content, taken to be injective, and the recorded mode.
  datatype Meta = Meta(digest: Content, mode: nat)

  datatype Manifest = Manifest(dirs: map<Dir, map<Rel, Meta>>, external: map<External, Meta>)

  datatype Snapshot = Snapshot(copy: Owned, manifest: Option<Manifest>)

  datatype Pending = Pending(
    action: Action, nonce: nat, previous: Version, current: Version, snapshot: nat, manifest: Manifest)

  // ---------------------------------------------------------------- manifests

  function MetaOf(f: File): Meta {
    Meta(f.content, f.mode)
  }

  function Entries(t: Tree): map<Rel, Meta> {
    map rel | rel in t :: MetaOf(t[rel])
  }

  function ManifestOf(o: Owned): Manifest {
    Manifest(map d | d in o.dirs :: Entries(o.dirs[d]), map e | e in o.external :: MetaOf(o.external[e]))
  }

  // The file set and each digest; modes are not compared.
  predicate VerifiedTree(t: Tree, entries: map<Rel, Meta>) {
    t.Keys == entries.Keys && forall rel :: rel in t ==> t[rel].content == entries[rel].digest
  }

  predicate VerifiedSnapshot(s: Snapshot) {
    && s.manifest.Some?
    && s.manifest.value.dirs.Keys == ALL_DIRS && s.manifest.value.external.Keys == ALL_EXTERNALS
    && s.copy.dirs.Keys == ALL_DIRS && s.copy.external.Keys == ALL_EXTERNALS
    && (forall d :: d in ALL_DIRS ==> VerifiedTree(s.copy.dirs[d], s.manifest.value.dirs[d]))
    && (forall e :: e in ALL_EXTERNALS ==> s.copy.external[e].content == s.manifest.value.external[e].digest)
  }

  // A snapshot that was sealed and never touched since; its `bin` was copied from a tree on disk.
  ghost predicate Intact(s: Snapshot) {
    Complete(s.copy) && s.manifest == Some(ManifestOf(s.copy)) && TreeLike(BinKeys(s.copy))
  }

  lemma IntactVerifies(s: Snapshot)
    requires Intact(s)
    ensures VerifiedSnapshot(s)
  {
    hide TreeLike;
  }

  // The same files with the same contents, whatever their modes.
  ghost predicate SameContents(a: Tree, b: Tree) {
    a.Keys == b.Keys && forall rel :: rel in a ==> a[rel].content == b[rel].content
  }

  // A copy with the manifest of some captured files verifies exactly if it holds those files: every
  // directory and both external files, no file more or less, every content the captured one.
  lemma VerifiesIff(s: Snapshot, o: Owned)
    requires Complete(o) && s.manifest == Some(ManifestOf(o))
    ensures VerifiedSnapshot(s) <==>
      && Complete(s.copy)
      && (forall d :: d in ALL_DIRS ==> SameContents(s.copy.dirs[d], o.dirs[d]))
      && (forall e :: e in ALL_EXTERNALS ==> s.copy.external[e].content == o.external[e].content)
  {
    var m := ManifestOf(o);
    assert m.dirs.Keys == o.dirs.Keys && m.external.Keys == o.external.Keys;
    forall d | d in ALL_DIRS && d in s.copy.dirs
      ensures VerifiedTree(s.copy.dirs[d], m.dirs[d]) <==> SameContents(s.copy.dirs[d], o.dirs[d])
    {
      assert m.dirs[d] == Entries(o.dirs[d]) && m.dirs[d].Keys == o.dirs[d].Keys;
    }
  }

  // ---------------------------------------------------------------- what the state tree says

  function InstalledVersion(o: Owned): Option<Version> {
    if State in o.dirs && INSTALL_STATE in o.dirs[State] && o.dirs[State][INSTALL_STATE].content.InstallDoc?
    then Some(o.dirs[State][INSTALL_STATE].content.version) else None
  }

  datatype Latest = NoReceipt | Readable(receipt: Receipt) | Unreadable

  function LatestReceipt(o: Owned): Latest {
    if State !in o.dirs || LATEST_RECEIPT !in o.dirs[State] then NoReceipt
    else
      match o.dirs[State][LATEST_RECEIPT].content
      case ReceiptDoc(r) => Readable(r)
      case _ => Unreadable
  }

  function PutState(o: Owned, rel: Rel, f: File): Owned
    requires State in o.dirs
  {
    o.(dirs := o.dirs[State := o.dirs[State][rel := f]])
  }

  // Receipts are kept in the state tree under their own names.
  predicate ReceiptName(rel: Rel) {
    |rel| == 1 && StartsWith(rel[0], "release-transaction-")
  }

  function WithoutReceipts(t: Tree): Tree {
    map rel | rel in t && !ReceiptName(rel) :: t[rel]
  }

  // Everything but the receipts.
  function Active(o: Owned): Owned {
    o.(dirs := map d | d in o.dirs :: if d == State then WithoutReceipts(o.dirs[d]) else o.dirs[d])
  }
}
