// Restoring `bin` in place, one file or directory at a time (release_tools/updater.py, 225-335).
module InPlaceRestore {
  import opened FileTrees
  import opened ReleaseFiles

  datatype BinTree = BinTree(files: Tree, dirs: set<Rel>)

  datatype BinStep =
    | MakeDir(d: Rel)     // make one directory an expected file needs
    | PutFile(rel: Rel)   // atomically replace one expected file
    | LeaveTemp(rel: Rel, temp: string, f: File) // a replacement cut short leaves its temporary file
    | RemoveFile(rel: Rel)   // remove one unexpected file, once every expected one is in place
    | RemoveDir(d: Rel)   // remove one directory nothing needs, once only the expected files are left

  // Every wanted file is in place.
  predicate InPlace(now: Tree, wanted: Tree) {
    forall rel :: rel in wanted ==> rel in now && now[rel] == wanted[rel]
  }

  // The temporary file of an atomic write stands beside its target.
  function TempPath(rel: Rel, temp: string): Rel
    requires rel != []
  {
    rel[..|rel| - 1] + [temp]
  }

  // A name nothing has: not on disk, and not one of the expected files.
  predicate FreeTemp(wanted: Tree, b: BinTree, rel: Rel, temp: string) {
    rel != [] && var path := TempPath(rel, temp); path !in b.files && path !in b.dirs && path !in wanted
  }

  // What the file system lets happen, in the order the restore asks for it.
  predicate CanStep(wanted: Tree, b: BinTree, s: BinStep) {
    match s
    case MakeDir(d) => d in Required(wanted.Keys) && d !in b.files && d !in b.dirs && ParentIn(b.dirs, d)
    case PutFile(rel) => rel in wanted && rel !in b.dirs && Required(wanted.Keys) <= b.dirs
    case LeaveTemp(rel, temp, _) => rel in wanted && Required(wanted.Keys) <= b.dirs && FreeTemp(wanted, b, rel, temp)
    case RemoveFile(rel) => rel in b.files && rel !in wanted && InPlace(b.files, wanted)
    case RemoveDir(d) =>
      b.files == wanted && d in b.dirs && d !in Required(wanted.Keys) && EmptyDir(b.files.Keys, b.dirs, d)
  }

  function Stepped(wanted: Tree, b: BinTree, s: BinStep): BinTree
    requires CanStep(wanted, b, s)
  {
    match s
    case MakeDir(d) => b.(dirs := b.dirs + {d})
    case PutFile(rel) => b.(files := b.files[rel := wanted[rel]])
    case LeaveTemp(rel, temp, f) => b.(files := b.files[TempPath(rel, temp) := f])
    case RemoveFile(rel) => b.(files := b.files - {rel})
    case RemoveDir(d) => b.(dirs := b.dirs - {d})
  }

  ghost predicate IsTree(b: BinTree) {
    WellFormed(b.files.Keys, b.dirs)
  }

  // The directories and files asked for do not meet a file or a directory of the same name.
  predicate NoClash(b: BinTree, wanted: Tree) {
    Required(wanted.Keys) !! b.files.Keys && wanted.Keys !! b.dirs
  }

  // Every expected file of `start` is there, with its old or its snapshot content.
  ghost predicate Stable(start: Tree, now: Tree, wanted: Tree) {
    forall rel :: rel in wanted && rel in start ==> rel in now && (now[rel] == start[rel] || now[rel] == wanted[rel])
  }

  // ---------------------------------------------------------------- what every step keeps

  lemma StepIsSound(wanted: Tree, b: BinTree, s: BinStep)
    requires TreeLike(wanted.Keys) && IsTree(b) && CanStep(wanted, b, s)
    ensures IsTree(Stepped(wanted, b, s))
  {
    hide WellFormed;
    match s
    case MakeDir(d) => AddDir(b.files.Keys, b.dirs, d);
    case PutFile(rel) =>
      PutHasParent(wanted, b, rel);
      AddFile(b.files.Keys, b.dirs, rel);
      assert b.files[rel := wanted[rel]].Keys == b.files.Keys + {rel};
    case LeaveTemp(rel, temp, f) =>
      var path := TempPath(rel, temp);
      PutHasParent(wanted, b, rel);
      assert path[..|path| - 1] == rel[..|rel| - 1];
      AddFile(b.files.Keys, b.dirs, path);
      assert b.files[path := f].Keys == b.files.Keys + {path};
    case RemoveFile(rel) =>
      DropFile(b.files.Keys, b.dirs, rel);
      assert (b.files - {rel}).Keys == b.files.Keys - {rel};
    case RemoveDir(d) => DropDir(b.files.Keys, b.dirs, d);
  }

  lemma PutHasParent(wanted: Tree, b: BinTree, rel: Rel)
    requires TreeLike(wanted.Keys) && rel in wanted && Required(wanted.Keys) <= b.dirs
    ensures ParentIn(b.dirs, rel)
  {
    if |rel| > 1 {
      ParentsAreRequired(wanted.Keys, rel, |rel| - 1);
    }
  }

  lemma StepIsStable(start: Tree, wanted: Tree, b: BinTree, s: BinStep)
    requires Stable(start, b.files, wanted) && CanStep(wanted, b, s)
    ensures Stable(start, Stepped(wanted, b, s).files, wanted)
  {
    hide Required, EmptyDir, InPlace;
  }

  lemma TreeHasItsDirs(b: BinTree)
    requires IsTree(b)
    ensures Required(b.files.Keys) <= b.dirs
  {
    WellFormedIsTreeLike(b.files.Keys, b.dirs);
  }

  // Once every expected file is in place, nothing clashes.
  lemma PlacedIsClear(wanted: Tree, b: BinTree)
    requires IsTree(b) && InPlace(b.files, wanted)
    ensures NoClash(b, wanted)
  {
    WellFormedIsTreeLike(b.files.Keys, b.dirs);
    assert wanted.Keys <= b.files.Keys;
    assert Required(wanted.Keys) <= Required(b.files.Keys);
  }

  // No step of a restore resolves a clash, and none makes one.
  lemma ClashStays(wanted: Tree, b: BinTree, s: BinStep)
    requires TreeLike(wanted.Keys) && IsTree(b) && CanStep(wanted, b, s)
    ensures NoClash(Stepped(wanted, b, s), wanted) <==> NoClash(b, wanted)
  {
    hide EmptyDir;
    assert Required(wanted.Keys) !! wanted.Keys;
    assert b.files.Keys !! b.dirs;
    hide Required, WellFormed, TreeLike, IsTree;
    if s.RemoveFile? || s.RemoveDir? {
      PlacedIsClear(wanted, b);
    }
  }

  // ---------------------------------------------------------------- whole runs

  ghost predicate CanRun(wanted: Tree, b: BinTree, steps: seq<BinStep>)
    decreases steps
  {
    steps == [] || (CanStep(wanted, b, steps[0]) && CanRun(wanted, Stepped(wanted, b, steps[0]), steps[1..]))
  }

  ghost function RunSteps(wanted: Tree, b: BinTree, steps: seq<BinStep>): BinTree
    requires CanRun(wanted, b, steps)
    decreases steps
  {
    if steps == [] then b else RunSteps(wanted, Stepped(wanted, b, steps[0]), steps[1..])
  }

  // However many steps a restore has taken, in whatever order they were possible: the tree is one
  // a file system can hold, no expected file of the start is missing or half written, and a clash
  // is there at the end exactly when it was there at the start.
  lemma {:induction false} RunIsStable(start: Tree, wanted: Tree, b: BinTree, steps: seq<BinStep>)
    requires TreeLike(wanted.Keys) && IsTree(b) && Stable(start, b.files, wanted) && CanRun(wanted, b, steps)
    ensures var end := RunSteps(wanted, b, steps);
      && IsTree(end) && Stable(start, end.files, wanted)
      && (NoClash(end, wanted) <==> NoClash(b, wanted))
      && (end.files == wanted ==> NoClash(b, wanted))
    decreases steps
  {
    hide TreeLike, IsTree, Stable, NoClash, CanStep, Stepped;
    if steps == [] {
      if b.files == wanted {
        PlacedIsClear(wanted, b);
      }
    } else {
      StepIsSound(wanted, b, steps[0]);
      StepIsStable(start, wanted, b, steps[0]);
      ClashStays(wanted, b, steps[0]);
      RunIsStable(start, wanted, Stepped(wanted, b, steps[0]), steps[1..]);
    }
  }

  // ---------------------------------------------------------------- undoing an unfinished restore

  // A restore under way from `start` has not got in the way of the files of `start`.
  ghost predicate MayReturn(start: BinTree, wanted: Tree, b: BinTree) {
    && Required(start.files.Keys) !! b.files.Keys && start.files.Keys !! b.dirs
    && (Required(start.files.Keys) <= b.dirs || wanted.Keys <= b.files.Keys)
  }

  lemma StartMayReturn(start: BinTree, wanted: Tree)
    requires IsTree(start)
    ensures MayReturn(start, wanted, start)
  {
    WellFormedIsTreeLike(start.files.Keys, start.dirs);
  }

  lemma StepMayReturn(start: BinTree, wanted: Tree, b: BinTree, s: BinStep)
    requires MayReturn(start, wanted, b) && CanStep(wanted, b, s)
    requires s.MakeDir? ==> start.files.Keys <= b.files.Keys
    requires s.LeaveTemp? ==> Required(start.files.Keys) <= b.dirs
    ensures MayReturn(start, wanted, Stepped(wanted, b, s))
  {
    hide Required, EmptyDir, InPlace;
  }

  // So putting the files of `start` back meets no clash.
  lemma ReturnIsClear(start: BinTree, wanted: Tree, b: BinTree)
    requires MayReturn(start, wanted, b)
    ensures NoClash(b, start.files)
  {
    hide Required;
  }

  // ---------------------------------------------------------------- the order the restore works in

  // The needed directories are made, all but these.
  ghost predicate Made(wanted: Tree, start: BinTree, b: BinTree, todo: set<Rel>) {
    && todo <= Required(wanted.Keys) && (Required(wanted.Keys) - todo) !! start.files.Keys
    && b == start.(dirs := start.dirs + (Required(wanted.Keys) - todo))
  }

  lemma MakeOne(wanted: Tree, start: BinTree, b: BinTree, todo: set<Rel>, d: Rel)
    requires TreeLike(wanted.Keys) && Made(wanted, start, b, todo) && d in todo && d !in b.files
    requires forall c :: c in todo ==> |d| <= |c|
    ensures d !in b.dirs ==>
      CanStep(wanted, b, MakeDir(d)) && Made(wanted, start, Stepped(wanted, b, MakeDir(d)), todo - {d})
    ensures d in b.dirs ==> Made(wanted, start, b, todo - {d})
  {
    assert d != [];
    if |d| > 1 {
      RequiredIsAncestorClosed(wanted.Keys, d, |d| - 1);
    }
    hide Required, TreeLike;
    if d !in b.dirs {
      assert Stepped(wanted, b, MakeDir(d)).dirs == start.dirs + (Required(wanted.Keys) - (todo - {d}));
    } else {
      assert b.dirs == start.dirs + (Required(wanted.Keys) - (todo - {d}));
    }
  }

  // The expected files are in place, all but these.
  ghost predicate Filled(wanted: Tree, start: BinTree, b: BinTree, todo: set<Rel>) {
    && todo <= wanted.Keys && (wanted.Keys - todo) !! start.dirs
    && b.dirs == start.dirs && Required(wanted.Keys) <= b.dirs && InPlace(b.files, wanted - todo)
  }

  lemma FillOne(wanted: Tree, start: BinTree, b: BinTree, todo: set<Rel>, rel: Rel)
    requires Filled(wanted, start, b, todo) && rel in todo && rel !in b.dirs
    ensures CanStep(wanted, b, PutFile(rel))
    ensures Filled(wanted, start, Stepped(wanted, b, PutFile(rel)), todo - {rel})
  {
    hide Required;
  }

  lemma DropOneFile(wanted: Tree, b: BinTree, rel: Rel)
    requires InPlace(b.files, wanted) && rel in b.files && rel !in wanted
    ensures CanStep(wanted, b, RemoveFile(rel))
    ensures var after := Stepped(wanted, b, RemoveFile(rel));
      && InPlace(after.files, wanted) && after.dirs == b.dirs
      && after.files.Keys - wanted.Keys == (b.files.Keys - wanted.Keys) - {rel}
  {
  }

  // Only the expected files are left, and of the directories only the needed ones and these.
  ghost predicate Pruned(wanted: Tree, start: BinTree, b: BinTree, todo: set<Rel>) {
    && b.files == wanted && todo == b.dirs - Required(wanted.Keys)
    && b.dirs * Required(wanted.Keys) == start.dirs * Required(wanted.Keys)
  }

  lemma StartPruning(wanted: Tree, start: BinTree, todo: set<Rel>)
    requires start.files == wanted && todo == start.dirs - Required(wanted.Keys)
    ensures Pruned(wanted, start, start, todo)
  {
  }

  lemma DropOneDir(wanted: Tree, start: BinTree, b: BinTree, todo: set<Rel>, d: Rel)
    requires IsTree(b) && Pruned(wanted, start, b, todo) && d in todo
    requires forall c :: c in todo ==> |c| <= |d|
    ensures CanStep(wanted, b, RemoveDir(d))
    ensures Pruned(wanted, start, Stepped(wanted, b, RemoveDir(d)), todo - {d})
  {
    StaleIsEmpty(b.files.Keys, b.dirs, d);
    hide Required, EmptyDir;
  }

  lemma DonePruning(wanted: Tree, start: BinTree, b: BinTree)
    requires Pruned(wanted, start, b, {})
    ensures b == BinTree(wanted, start.dirs * Required(wanted.Keys))
  {
    hide Required;
    forall d | d in b.dirs ensures d in Required(wanted.Keys) {
      assert d in b.dirs - Required(wanted.Keys) || d in Required(wanted.Keys);
    }
    assert b.dirs == b.dirs * Required(wanted.Keys);
  }
}
