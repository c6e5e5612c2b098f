// Importing a reviewed catalog and rolling an import back (studio_mcp_v2/catalog_review.py, 1007-1341).
module CatalogImport {
  import opened Basics

  // ---------------------------------------------------------------- one directory of catalogs

  datatype Name =
    | Catalog(name: string)
    | Backup(name: string, tag: string)         // <name>.backup-<tag>
    | PreRollback(name: string, tag: string)    // <name>.pre-rollback-<tag>
    | Receipt(candidate: string, prior: string) // catalog-import-receipt-<candidate>-<prior>.json

  datatype Entry = Entry(target: string, backup: Name, prior: Digest, installed: Digest)

  datatype Content = Raw(bytes: Bytes) | Doc(entries: seq<Entry>)

  type Files = map<Name, Content>

  // What an import depends on besides the files: where the two catalogs are, which bytes load as a
  // catalog, which imports the review accepts, what regeneration yields, and the twelve hex digits
  // that stand for bytes (two byte strings may share them) or for a list of digests.
  datatype Setting = Setting(
    destination: string,
    durable: string,
    loads: Bytes -> bool,
    accepts: (Bytes, Bytes, Bytes, bool) -> bool,
    generate: (Bytes, Bytes, Bytes) -> Bytes,
    tag: Bytes -> string,
    joinTag: seq<Bytes> -> string)

  datatype Edit = Edit(target: string, prior: Bytes, replacement: Bytes)

  predicate Holds(files: Files, name: Name, content: Content) {
    name in files && files[name] == content
  }

  predicate Loaded(s: Setting, files: Files, name: Name) {
    name in files && files[name].Raw? && s.loads(files[name].bytes)
  }

  // ---------------------------------------------------------------- what an import and a rollback do

  // The checks made before anything is written.
  predicate MayImport(s: Setting, files: Files, candidate: Bytes, regenerate: bool) {
    && Loaded(s, files, Catalog(s.destination)) && Loaded(s, files, Catalog(s.durable)) && s.loads(candidate)
    && s.accepts(files[Catalog(s.destination)].bytes, files[Catalog(s.durable)].bytes, candidate, regenerate)
  }

  function EditsFrom(s: Setting, baseline: Bytes, durable: Bytes, candidate: Bytes, regenerate: bool): seq<Edit> {
    [Edit(s.destination, baseline, candidate)]
    + if regenerate then [Edit(s.durable, durable, s.generate(baseline, durable, candidate))] else []
  }

  function Edits(s: Setting, files: Files, candidate: Bytes, regenerate: bool): seq<Edit>
    requires MayImport(s, files, candidate, regenerate)
  {
    EditsFrom(s, files[Catalog(s.destination)].bytes, files[Catalog(s.durable)].bytes, candidate, regenerate)
  }

  function WithBackups(s: Setting, files: Files, edits: seq<Edit>): Files {
    if edits == [] then files
    else
      var e := edits[|edits| - 1];
      WithBackups(s, files, edits[..|edits| - 1])[Backup(e.target, s.tag(e.prior)) := Raw(e.prior)]
  }

  function WithReplacements(files: Files, edits: seq<Edit>): Files {
    if edits == [] then files
    else
      var e := edits[|edits| - 1];
      WithReplacements(files, edits[..|edits| - 1])[Catalog(e.target) := Raw(e.replacement)]
  }

  function WithPriors(files: Files, edits: seq<Edit>): Files {
    if edits == [] then files
    else
      var e := edits[|edits| - 1];
      WithPriors(files, edits[..|edits| - 1])[Catalog(e.target) := Raw(e.prior)]
  }

  function Priors(edits: seq<Edit>): (r: seq<Bytes>)
    ensures |r| == |edits|
  {
    if edits == [] then [] else Priors(edits[..|edits| - 1]) + [edits[|edits| - 1].prior]
  }

  // The digest recorded for a target is that of the first replacement installed under its name.
  function InstalledAs(edits: seq<Edit>, target: string): Digest {
    if edits == [] then Sha256("")
    else if edits[0].target == target then Sha256(edits[0].replacement)
    else InstalledAs(edits[1..], target)
  }

  function EntryOf(s: Setting, edits: seq<Edit>, e: Edit): Entry {
    Entry(e.target, Backup(e.target, s.tag(e.prior)), Sha256(e.prior), InstalledAs(edits, e.target))
  }

  function EntriesOf(s: Setting, edits: seq<Edit>): (r: seq<Entry>)
    ensures |r| == |edits|
  {
    seq(|edits|, i requires 0 <= i < |edits| => EntryOf(s, edits, edits[i]))
  }

  function ReceiptName(s: Setting, candidate: Bytes, edits: seq<Edit>): Name {
    Receipt(s.tag(candidate), s.joinTag(Priors(edits)))
  }

  function Imported(s: Setting, files: Files, candidate: Bytes, regenerate: bool): Files
    requires MayImport(s, files, candidate, regenerate)
  {
    var edits := Edits(s, files, candidate, regenerate);
    WithReplacements(WithBackups(s, files, edits), edits)[ReceiptName(s, candidate, edits) := Doc(EntriesOf(s, edits))]
  }

  // A receipt applies only while every target holds what it installed and every backup what it saved.
  predicate EntryApplies(s: Setting, files: Files, e: Entry) {
    && Loaded(s, files, Catalog(e.target)) && Loaded(s, files, e.backup)
    && Sha256(files[Catalog(e.target)].bytes) == e.installed
    && Sha256(files[e.backup].bytes) == e.prior
  }

  predicate AllApply(s: Setting, files: Files, entries: seq<Entry>) {
    forall i :: 0 <= i < |entries| ==> EntryApplies(s, files, entries[i])
  }

  predicate Applies(s: Setting, files: Files, receipt: Name) {
    && receipt in files && files[receipt].Doc? && 1 <= |files[receipt].entries| <= 2
    && AllApply(s, files, files[receipt].entries)
  }

  function RestoreOf(s: Setting, files: Files, e: Entry): Edit
    requires EntryApplies(s, files, e)
  {
    Edit(e.target, files[Catalog(e.target)].bytes, files[e.backup].bytes)
  }

  function Restores(s: Setting, files: Files, entries: seq<Entry>): seq<Edit>
    requires AllApply(s, files, entries)
  {
    seq(|entries|, i requires 0 <= i < |entries| => RestoreOf(s, files, entries[i]))
  }

  function WithCopies(s: Setting, files: Files, edits: seq<Edit>): Files {
    if edits == [] then files
    else
      var e := edits[|edits| - 1];
      WithCopies(s, files, edits[..|edits| - 1])[PreRollback(e.target, s.tag(e.prior)) := Raw(e.prior)]
  }

  function RolledBack(s: Setting, files: Files, receipt: Name): Files
    requires Applies(s, files, receipt)
  {
    var edits := Restores(s, files, files[receipt].entries);
    WithReplacements(WithCopies(s, files, edits), edits)
  }

  ghost predicate SameCatalogs(a: Files, b: Files) {
    forall name ::
      (Catalog(name) in a <==> Catalog(name) in b)
      && (Catalog(name) in a ==> a[Catalog(name)] == b[Catalog(name)])
  }

  // ---------------------------------------------------------------- the directory, changed file by file

  datatype Outcome =
    | Done
    | Refused      // before any catalog was touched
    | Undone       // a write failed and every target was written back
    | Stuck        // writing back failed too

  class CatalogDirectory {
    const setting: Setting
    var files: Files

    constructor (setting: Setting, files: Files)
      ensures this.setting == setting && this.files == files
    {
      this.setting := setting;
      this.files := files;
    }

    // Atomic replacement.
    method Write(name: Name, content: Content)
      modifies this`files
      ensures files == old(files)[name := content]
    {
      files := files[name := content];
    }

    method BackUp(edits: seq<Edit>, reliable: bool) returns (ok: bool)
      modifies this`files
      ensures ok ==> files == WithBackups(setting, old(files), edits)
      ensures SameCatalogs(old(files), files) && (reliable ==> ok)
    {
      ghost var before := files;
      var i := 0;
      while i < |edits|
        invariant i <= |edits| && files == WithBackups(setting, before, edits[..i]) && SameCatalogs(before, files)
      {
        var fault := Faulty(reliable);
        if fault {
          return false;
        }
        assert edits[..i + 1][..i] == edits[..i];
        Write(Backup(edits[i].target, setting.tag(edits[i].prior)), Raw(edits[i].prior));
        i := i + 1;
      }
      assert edits[..i] == edits;
      ok := true;
    }

    method CopyAside(edits: seq<Edit>, reliable: bool) returns (ok: bool)
      modifies this`files
      ensures ok ==> files == WithCopies(setting, old(files), edits)
      ensures SameCatalogs(old(files), files) && (reliable ==> ok)
    {
      ghost var before := files;
      var i := 0;
      while i < |edits|
        invariant i <= |edits| && files == WithCopies(setting, before, edits[..i]) && SameCatalogs(before, files)
      {
        var fault := Faulty(reliable);
        if fault {
          return false;
        }
        assert edits[..i + 1][..i] == edits[..i];
        Write(PreRollback(edits[i].target, setting.tag(edits[i].prior)), Raw(edits[i].prior));
        i := i + 1;
      }
      assert edits[..i] == edits;
      ok := true;
    }

    // Replace each target and read it back.
    method Replace(edits: seq<Edit>, reliable: bool) returns (ok: bool)
      modifies this`files
      ensures ok ==> files == WithReplacements(old(files), edits)
      ensures exists k :: 0 <= k <= |edits| && files == WithReplacements(old(files), edits[..k])
      ensures reliable && (forall e :: e in edits ==> setting.loads(e.replacement)) ==> ok
    {
      ghost var before := files;
      var i := 0;
      assert edits[..0] == [];
      while i < |edits|
        invariant i <= |edits| && files == WithReplacements(before, edits[..i])
      {
        var fault := Faulty(reliable);
        if fault {
          return false;
        }
        assert edits[..i + 1][..i] == edits[..i];
        Write(Catalog(edits[i].target), Raw(edits[i].replacement));
        assert edits[i] in edits;
        assert files == WithReplacements(before, edits[..i + 1]);
        if !setting.loads(edits[i].replacement) {
          return false;
        }
        i := i + 1;
      }
      assert edits[..i] == edits;
      ok := true;
    }

    // Write every target's prior bytes back, replaced or not.
    method WriteBack(edits: seq<Edit>, reliable: bool) returns (ok: bool)
      modifies this`files
      ensures ok ==> files == WithPriors(old(files), edits)
      ensures reliable ==> ok
    {
      ghost var before := files;
      var i := 0;
      while i < |edits|
        invariant i <= |edits| && files == WithPriors(before, edits[..i])
      {
        var fault := Faulty(reliable);
        if fault {
          return false;
        }
        assert edits[..i + 1][..i] == edits[..i];
        Write(Catalog(edits[i].target), Raw(edits[i].prior));
        i := i + 1;
      }
      assert edits[..i] == edits;
      ok := true;
    }

    method ReplaceOrUndo(edits: seq<Edit>, reliable: bool, undoable: bool) returns (outcome: Outcome)
      requires ReadsPriors(files, edits)
      modifies this`files
      ensures outcome == Done || outcome == Undone || outcome == Stuck
      ensures outcome == Done ==> files == WithReplacements(old(files), edits)
      ensures outcome == Undone ==> files == old(files)
      ensures undoable ==> outcome != Stuck
      ensures reliable && (forall e :: e in edits ==> setting.loads(e.replacement)) ==> outcome == Done
    {
      ghost var before := files;
      var ok := Replace(edits, reliable);
      if ok {
        return Done;
      }
      ghost var k :| 0 <= k <= |edits| && files == WithReplacements(before, edits[..k]);
      WriteBackRestores(before, edits, k);
      ok := WriteBack(edits, undoable);
      outcome := if ok then Undone else Stuck;
    }

    method Import(candidate: Bytes, regenerate: bool, reliable: bool, undoable: bool)
      returns (outcome: Outcome, receipt: Option<Name>)
      modifies this`files
      ensures outcome == Done ==>
        && MayImport(setting, old(files), candidate, regenerate)
        && files == Imported(setting, old(files), candidate, regenerate)
        && receipt == Some(ReceiptName(setting, candidate, Edits(setting, old(files), candidate, regenerate)))
      ensures outcome == Refused || outcome == Undone ==> SameCatalogs(old(files), files)
      ensures undoable ==> outcome != Stuck
      ensures !MayImport(setting, old(files), candidate, regenerate) ==> outcome == Refused && files == old(files)
      ensures (reliable && MayImport(setting, old(files), candidate, regenerate)
               && forall e :: e in Edits(setting, old(files), candidate, regenerate) ==> setting.loads(e.replacement))
        ==> outcome == Done
      ensures (Loaded(setting, old(files), Catalog(setting.destination))
               && Loaded(setting, old(files), Catalog(setting.durable))
               && !setting.accepts(old(files)[Catalog(setting.destination)].bytes,
                                   old(files)[Catalog(setting.durable)].bytes, candidate, regenerate))
        ==> outcome == Refused && files == old(files)
    {
      receipt := None;
      if !MayImport(setting, files, candidate, regenerate) {
        return Refused, None;
      }
      ghost var before := files;
      var edits := Edits(setting, files, candidate, regenerate);
      EditsReadPriors(setting, files, candidate, regenerate);
      var ok := BackUp(edits, reliable);
      if !ok {
        return Refused, None;
      }
      BackupsKeepPriors(setting, before, edits);
      ghost var saved := files;
      outcome := ReplaceOrUndo(edits, reliable, undoable);
      if outcome != Done {
        return;
      }
      var fault := Faulty(reliable);
      if fault {
        assert edits[..|edits|] == edits;
        WriteBackRestores(saved, edits, |edits|);
        ok := WriteBack(edits, undoable);
        return if ok then Undone else Stuck, None;
      }
      var name := ReceiptName(setting, candidate, edits);
      Write(name, Doc(EntriesOf(setting, edits)));
      receipt := Some(name);
    }

    // A receipt that does not apply is refused with every file unchanged.
    method Rollback(receipt: Name, reliable: bool, undoable: bool) returns (outcome: Outcome)
      modifies this`files
      ensures outcome == Done ==>
        Applies(setting, old(files), receipt) && files == RolledBack(setting, old(files), receipt)
      ensures outcome == Refused || outcome == Undone ==> SameCatalogs(old(files), files)
      ensures undoable ==> outcome != Stuck
      ensures !Applies(setting, old(files), receipt) ==> outcome == Refused && files == old(files)
      ensures reliable && Applies(setting, old(files), receipt) ==> outcome == Done
    {
      if !Applies(setting, files, receipt) {
        return Refused;
      }
      ghost var before := files;
      var edits := Restores(setting, files, files[receipt].entries);
      RestoresReadPriors(setting, files, files[receipt].entries);
      var ok := CopyAside(edits, reliable);
      if !ok {
        return Refused;
      }
      CopiesKeepPriors(setting, before, edits);
      outcome := ReplaceOrUndo(edits, reliable, undoable);
    }
  }

  // ---------------------------------------------------------------- writing back

  // Each edit's prior bytes are what its target holds.
  ghost predicate ReadsPriors(files: Files, edits: seq<Edit>) {
    forall i :: 0 <= i < |edits| ==> Holds(files, Catalog(edits[i].target), Raw(edits[i].prior))
  }

  lemma EditsReadPriors(s: Setting, files: Files, candidate: Bytes, regenerate: bool)
    requires MayImport(s, files, candidate, regenerate)
    ensures ReadsPriors(files, Edits(s, files, candidate, regenerate))
  {
  }

  lemma RestoresReadPriors(s: Setting, files: Files, entries: seq<Entry>)
    requires AllApply(s, files, entries)
    ensures ReadsPriors(files, Restores(s, files, entries))
    ensures forall e :: e in Restores(s, files, entries) ==> s.loads(e.replacement)
  {
  }

  lemma {:induction false} BackupsKeepPriors(s: Setting, files: Files, edits: seq<Edit>)
    ensures forall name: Name :: !name.Backup? ==>
      (name in WithBackups(s, files, edits) <==> name in files)
      && (name in files ==> WithBackups(s, files, edits)[name] == files[name])
  {
    if edits != [] {
      BackupsKeepPriors(s, files, edits[..|edits| - 1]);
    }
  }

  lemma {:induction false} CopiesKeepPriors(s: Setting, files: Files, edits: seq<Edit>)
    ensures forall name: Name :: !name.PreRollback? ==>
      (name in WithCopies(s, files, edits) <==> name in files)
      && (name in files ==> WithCopies(s, files, edits)[name] == files[name])
  {
    if edits != [] {
      CopiesKeepPriors(s, files, edits[..|edits| - 1]);
    }
  }

  // However many targets were replaced, writing all priors back restores every file.
  lemma WriteBackRestores(files: Files, edits: seq<Edit>, k: nat)
    requires ReadsPriors(files, edits) && k <= |edits|
    ensures WithPriors(WithReplacements(files, edits[..k]), edits) == files
  {
    var replaced := WithReplacements(files, edits[..k]);
    ReplacementsTouch(files, edits, k);
    PriorsRestore(files, replaced, edits, |edits|);
    assert edits[..|edits|] == edits;
    var back := WithPriors(replaced, edits);
    forall name ensures name in back <==> name in files {
    }
    forall name | name in files ensures back[name] == files[name] {
    }
    assert back == files;
  }

  ghost predicate IsTarget(edits: seq<Edit>, k: nat, name: Name) {
    exists i :: 0 <= i < k && i < |edits| && name == Catalog(edits[i].target)
  }

  lemma {:induction false} ReplacementsTouch(files: Files, edits: seq<Edit>, k: nat)
    requires k <= |edits|
    ensures forall name :: !IsTarget(edits, k, name) ==>
      (name in WithReplacements(files, edits[..k]) <==> name in files)
      && (name in files ==> WithReplacements(files, edits[..k])[name] == files[name])
  {
    if k > 0 {
      ReplacementsTouch(files, edits, k - 1);
      assert edits[..k][..k - 1] == edits[..k - 1];
      assert IsTarget(edits, k, Catalog(edits[k - 1].target));
      assert forall name :: IsTarget(edits, k - 1, name) ==> IsTarget(edits, k, name);
    } else {
      assert edits[..0] == [];
    }
  }

  lemma {:induction false} PriorsRestore(files: Files, replaced: Files, edits: seq<Edit>, k: nat)
    requires ReadsPriors(files, edits) && k <= |edits|
    ensures forall name :: IsTarget(edits, k, name) ==>
      name in files && Holds(WithPriors(replaced, edits[..k]), name, files[name])
    ensures forall name :: !IsTarget(edits, k, name) ==>
      (name in WithPriors(replaced, edits[..k]) <==> name in replaced)
      && (name in replaced ==> WithPriors(replaced, edits[..k])[name] == replaced[name])
  {
    if k > 0 {
      PriorsRestore(files, replaced, edits, k - 1);
      assert edits[..k][..k - 1] == edits[..k - 1];
      assert IsTarget(edits, k, Catalog(edits[k - 1].target));
      assert Holds(files, Catalog(edits[k - 1].target), Raw(edits[k - 1].prior));
      assert forall name :: IsTarget(edits, k - 1, name) ==> IsTarget(edits, k, name);
      assert forall name :: IsTarget(edits, k, name) ==>
        IsTarget(edits, k - 1, name) || name == Catalog(edits[k - 1].target);
    } else {
      assert edits[..0] == [];
    }
  }
}
