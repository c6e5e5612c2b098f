// What two imports on top of each other need of their tags (studio_mcp_v2/catalog_review.py, 1168-1341).
module CatalogCollisions {
  import opened Basics
  import opened CatalogImport
  import opened CatalogStack

  // A name holds in `b` what it holds in `a`.
  predicate SameAt(a: Files, b: Files, name: Name) {
    (name in a <==> name in b) && (name in a ==> a[name] == b[name])
  }

  // ---------------------------------------------------------------- what one import leaves, whatever its tags

  lemma BackupsOf(s: Setting, files: Files, x: Bytes, y: Bytes, c: Bytes, r: bool)
    ensures var saved := files[Backup(s.destination, s.tag(x)) := Raw(x)];
      WithBackups(s, files, EditsFrom(s, x, y, c, r)) ==
      if r then saved[Backup(s.durable, s.tag(y)) := Raw(y)] else saved
  {
    var edits := EditsFrom(s, x, y, c, r);
    var first := [Edit(s.destination, x, c)];
    assert first[..0] == [];
    assert WithBackups(s, files, first) == files[Backup(s.destination, s.tag(x)) := Raw(x)];
    if r {
      assert edits[..|edits| - 1] == first;
    } else {
      assert edits == first;
    }
  }

  // Everything but the catalogs.
  ghost predicate Left(s: Setting, a: Files, f: Files, x: Bytes, y: Bytes, c: Bytes, r: bool) {
    && HasReceipt(s, f, x, y, c, r)
    && Holds(f, Backup(s.destination, s.tag(x)), Raw(x))
    && (r ==> Holds(f, Backup(s.durable, s.tag(y)), Raw(y)))
    && (forall t :: t != s.tag(x) ==> SameAt(a, f, Backup(s.destination, t)))
    && (forall t :: !r || t != s.tag(y) ==> SameAt(a, f, Backup(s.durable, t)))
    && (forall name: Name :: name.Receipt? && name != ReceiptName(s, c, EditsFrom(s, x, y, c, r)) ==>
          SameAt(a, f, name))
  }

  lemma ImportLeaves(s: Setting, files: Files, c: Bytes, r: bool)
    requires s.destination != s.durable && MayImport(s, files, c, r)
    ensures var x, y := files[Catalog(s.destination)].bytes, files[Catalog(s.durable)].bytes;
      Left(s, files, Imported(s, files, c, r), x, y, c, r)
  {
    var x, y := files[Catalog(s.destination)].bytes, files[Catalog(s.durable)].bytes;
    var edits := Edits(s, files, c, r);
    BackupsOf(s, files, x, y, c, r);
    ReplacementsAreCatalogs(WithBackups(s, files, edits), edits);
    hide WithBackups, WithReplacements, EntriesOf;
  }

  // An import whose files are untouched can always be rolled back.
  lemma ImportIsReady(s: Setting, files: Files, c: Bytes, r: bool)
    requires s.destination != s.durable && Imports(s, files, c, r)
    ensures var x, y := files[Catalog(s.destination)].bytes, files[Catalog(s.durable)].bytes;
      Ready(s, Imported(s, files, c, r), x, y, c, r)
  {
    ImportReplaces(s, files, c, r);
    ImportLeaves(s, files, c, r);
    var edits := Edits(s, files, c, r);
    assert edits[|edits| - 1] in edits;
    hide Imported, HasReceipt;
  }

  lemma RollbackLeaves(s: Setting, files: Files, receipt: Name)
    requires Applies(s, files, receipt)
    ensures forall name: Name :: !name.Catalog? && !name.PreRollback? ==>
      SameAt(files, RolledBack(s, files, receipt), name)
  {
    var edits := Restores(s, files, files[receipt].entries);
    CopiesKeepPriors(s, files, edits);
    ReplacementsAreCatalogs(WithCopies(s, files, edits), edits);
    hide WithCopies, WithReplacements, Restores, Applies;
  }

  lemma LeftKept(s: Setting, a: Files, f: Files, g: Files, x: Bytes, y: Bytes, c: Bytes, r: bool)
    requires Left(s, a, f, x, y, c, r)
    requires forall name: Name :: !name.Catalog? && !name.PreRollback? ==> SameAt(f, g, name)
    ensures Left(s, a, g, x, y, c, r)
  {
    hide EditsFrom, EntriesOf;
    var receipt := ReceiptName(s, c, EditsFrom(s, x, y, c, r));
    assert SameAt(f, g, receipt);
    assert SameAt(f, g, Backup(s.destination, s.tag(x))) && SameAt(f, g, Backup(s.durable, s.tag(y)));
    forall t | t != s.tag(x) ensures SameAt(a, g, Backup(s.destination, t)) {
      assert SameAt(f, g, Backup(s.destination, t));
    }
    forall t | !r || t != s.tag(y) ensures SameAt(a, g, Backup(s.durable, t)) {
      assert SameAt(f, g, Backup(s.durable, t));
    }
    forall name: Name | name.Receipt? && name != receipt ensures SameAt(a, g, name) {
      assert SameAt(f, g, name);
    }
  }

  // ---------------------------------------------------------------- two imports

  // The second import keeps what the rollback of the first reads: its receipt, and its backups.
  predicate KeepsApart(s: Setting, x: Bytes, y: Bytes, c: Bytes, r: bool, d: Bytes, r2: bool) {
    var y1 := if r then s.generate(x, y, c) else y;
    && ReceiptName(s, c, EditsFrom(s, x, y, c, r)) != ReceiptName(s, d, EditsFrom(s, c, y1, d, r2))
    && (x == c || s.tag(x) != s.tag(c))
    && (r && r2 ==> y == y1 || s.tag(y) != s.tag(y1))
  }

  // The files once the second import is rolled back.
  ghost predicate Between(s: Setting, a: Files, f: Files, x: Bytes, y: Bytes, c: Bytes, r: bool, d: Bytes, r2: bool) {
    var y1 := if r then s.generate(x, y, c) else y;
    && Holds(f, Catalog(s.destination), Raw(c)) && Holds(f, Catalog(s.durable), Raw(y1))
    && Left(s, a, f, c, y1, d, r2)
  }

  lemma SecondRollsBack(s: Setting, files: Files, c: Bytes, r: bool, d: Bytes, r2: bool)
    requires s.destination != s.durable && Imports(s, files, c, r)
    requires Imports(s, Imported(s, files, c, r), d, r2)
    ensures var x, y := files[Catalog(s.destination)].bytes, files[Catalog(s.durable)].bytes;
      var first := Imported(s, files, c, r);
      && Run(s, first, Around(d, r2, Nothing)).Some?
      && var f := Run(s, first, Around(d, r2, Nothing)).value;
      && Between(s, first, f, x, y, c, r, d, r2)
      && (forall name: string :: name != s.destination && name != s.durable ==> SameAt(first, f, Catalog(name)))
  {
    var x, y := files[Catalog(s.destination)].bytes, files[Catalog(s.durable)].bytes;
    var first := Imported(s, files, c, r);
    ImportReplaces(s, files, c, r);
    var y1 := if r then s.generate(x, y, c) else y;
    var second := Imported(s, first, d, r2);
    var receipt := ReceiptName(s, d, EditsFrom(s, c, y1, d, r2));
    ImportReplaces(s, first, d, r2);
    ImportLeaves(s, first, d, r2);
    ImportIsReady(s, first, d, r2);
    ReceiptApplies(s, second, c, y1, d, r2);
    RestoresCatalogs(s, second, c, y1, d, r2);
    RollbackLeaves(s, second, receipt);
    LeftKept(s, first, second, RolledBack(s, second, receipt), c, y1, d, r2);
    assert Run(s, second, Nothing) == Some(second);
    hide Imported, Applies, RolledBack, EditsFrom, EntriesOf, ReceiptName, Left;
  }

  lemma FirstIsReady(s: Setting, files: Files, f: Files, c: Bytes, r: bool, d: Bytes, r2: bool)
    requires s.destination != s.durable && Imports(s, files, c, r)
    requires var x, y := files[Catalog(s.destination)].bytes, files[Catalog(s.durable)].bytes;
      KeepsApart(s, x, y, c, r, d, r2) && Between(s, Imported(s, files, c, r), f, x, y, c, r, d, r2)
    ensures var x, y := files[Catalog(s.destination)].bytes, files[Catalog(s.durable)].bytes;
      Ready(s, f, x, y, c, r)
  {
    ImportIsReady(s, files, c, r);
    ImportLeaves(s, files, c, r);
    hide Imported, EntriesOf, ReceiptName, Imports, EditsFrom;
  }

  lemma FirstIsLost(s: Setting, f: Files, a: Files, x: Bytes, y: Bytes, c: Bytes, r: bool, d: Bytes, r2: bool)
    requires s.destination != s.durable && c != d && HasReceipt(s, a, x, y, c, r)
    requires !KeepsApart(s, x, y, c, r, d, r2) && Between(s, a, f, x, y, c, r, d, r2)
    ensures !Applies(s, f, ReceiptName(s, c, EditsFrom(s, x, y, c, r)))
  {
    var y1 := if r then s.generate(x, y, c) else y;
    var edits := EditsFrom(s, x, y, c, r);
    var later := EditsFrom(s, c, y1, d, r2);
    var receipt := ReceiptName(s, c, edits);
    if receipt == ReceiptName(s, d, later) {
      assert f[receipt].entries[0] == EntryOf(s, later, later[0]);
      assert !EntryApplies(s, f, f[receipt].entries[0]);
    } else {
      assert f[receipt] == Doc(EntriesOf(s, edits));
      assert f[receipt].entries[0] == EntryOf(s, edits, edits[0]);
      if x != c && s.tag(x) == s.tag(c) {
        assert !EntryApplies(s, f, f[receipt].entries[0]);
      } else {
        assert f[receipt].entries[1] == EntryOf(s, edits, edits[1]);
        assert !EntryApplies(s, f, f[receipt].entries[1]);
      }
    }
  }

  lemma AroundIs(s: Setting, files: Files, c: Bytes, r: bool, inner: Session)
    requires Imports(s, files, c, r) && Run(s, Imported(s, files, c, r), inner).Some?
    ensures var f := Run(s, Imported(s, files, c, r), inner).value;
      var receipt := ReceiptName(s, c, Edits(s, files, c, r));
      Run(s, files, Around(c, r, inner)) == if Applies(s, f, receipt) then Some(RolledBack(s, f, receipt)) else None
  {
    hide Imported, Applies, RolledBack, ReceiptName;
  }

  // Back at the catalogs before the first import.
  lemma CatalogsReturn(s: Setting, files: Files, f: Files, end: Files, c: Bytes, r: bool)
    requires s.destination != s.durable && MayImport(s, files, c, r)
    requires forall name: string :: name != s.destination && name != s.durable ==>
      SameAt(Imported(s, files, c, r), f, Catalog(name)) && SameAt(f, end, Catalog(name))
    requires Holds(end, Catalog(s.destination), files[Catalog(s.destination)])
    requires Holds(end, Catalog(s.durable), files[Catalog(s.durable)])
    ensures SameCatalogs(files, end)
  {
    ImportReplaces(s, files, c, r);
    hide Imported;
    forall name: string ensures SameAt(files, end, Catalog(name)) {
      if name != s.destination && name != s.durable {
        assert SameAt(Imported(s, files, c, r), f, Catalog(name)) && SameAt(f, end, Catalog(name));
      }
    }
  }

  // Two imports of different candidates, the second inside the first: the rollback of the second is
  // never refused, and that of the first is accepted exactly when their tags kept them apart.  Then
  // every catalog is back.
  lemma NestedImports(s: Setting, files: Files, c: Bytes, r: bool, d: Bytes, r2: bool)
    requires s.destination != s.durable && c != d
    requires Imports(s, files, c, r) && Imports(s, Imported(s, files, c, r), d, r2)
    ensures var end := Run(s, files, Around(c, r, Around(d, r2, Nothing)));
      && (end.Some? <==>
            KeepsApart(s, files[Catalog(s.destination)].bytes, files[Catalog(s.durable)].bytes, c, r, d, r2))
      && (end.Some? ==> SameCatalogs(files, end.value))
  {
    var x, y := files[Catalog(s.destination)].bytes, files[Catalog(s.durable)].bytes;
    var first := Imported(s, files, c, r);
    SecondRollsBack(s, files, c, r, d, r2);
    var f := Run(s, first, Around(d, r2, Nothing)).value;
    AroundIs(s, files, c, r, Around(d, r2, Nothing));
    hide Run, Imported, Applies, RolledBack, EditsFrom, EntriesOf, ReceiptName, KeepsApart, Between, HasReceipt, Left;
    if KeepsApart(s, x, y, c, r, d, r2) {
      FirstIsReady(s, files, f, c, r, d, r2);
      ReceiptApplies(s, f, x, y, c, r);
      RestoresCatalogs(s, f, x, y, c, r);
      CatalogsReturn(s, files, f, RolledBack(s, f, ReceiptName(s, c, EditsFrom(s, x, y, c, r))), c, r);
    } else {
      ImportLeaves(s, files, c, r);
      LeftHasReceipt(s, files, first, x, y, c, r);
      FirstIsLost(s, f, first, x, y, c, r, d, r2);
    }
  }

  lemma LeftHasReceipt(s: Setting, a: Files, f: Files, x: Bytes, y: Bytes, c: Bytes, r: bool)
    requires Left(s, a, f, x, y, c, r)
    ensures HasReceipt(s, f, x, y, c, r)
  {
  }

  // With one tag for everything, no rollback of the outer import is ever accepted.
  lemma OneTagRefuses(s: Setting, files: Files, c: Bytes, r: bool, d: Bytes, r2: bool)
    requires s.destination != s.durable && c != d
    requires (forall a, b :: s.tag(a) == s.tag(b)) && (forall p, q :: s.joinTag(p) == s.joinTag(q))
    requires Imports(s, files, c, r) && Imports(s, Imported(s, files, c, r), d, r2)
    ensures Run(s, files, Around(c, r, Around(d, r2, Nothing))) == None
  {
    NestedImports(s, files, c, r, d, r2);
  }

  // An import that regenerates the very file it replaces writes a receipt that does not apply, unless
  // what is regenerated is the candidate itself.
  lemma OwnBaselineRefuses(s: Setting, files: Files, c: Bytes)
    requires s.destination == s.durable && MayImport(s, files, c, true)
    ensures var x := files[Catalog(s.destination)].bytes;
      s.generate(x, x, c) != c ==>
        !Applies(s, Imported(s, files, c, true), ReceiptName(s, c, Edits(s, files, c, true)))
  {
    var x := files[Catalog(s.destination)].bytes;
    var edits := Edits(s, files, c, true);
    var saved := WithBackups(s, files, edits);
    assert edits == [edits[0], edits[1]];
    ReplaceTwo(saved, edits[0], edits[1]);
    var f := Imported(s, files, c, true);
    var receipt := ReceiptName(s, c, edits);
    assert f[receipt].entries[0] == EntryOf(s, edits, edits[0]);
  }
}
