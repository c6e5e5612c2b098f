// Imports and rollbacks form a stack (studio_mcp_v2/catalog_review.py, 1168-1341).
module CatalogStack {
  import opened Basics
  import opened CatalogImport

  // What a session does, in order.
  datatype Session =
    | Nothing
    | Attempt(candidate: Bytes, regenerate: bool, saved: nat)   // an import that failed after so many backups
    | Then(first: Session, second: Session)
    | Around(candidate: Bytes, regenerate: bool, inner: Session) // import, the rest, then its rollback

  // An import that passes its checks and whose replacements read back.
  predicate Imports(s: Setting, files: Files, candidate: Bytes, regenerate: bool) {
    && MayImport(s, files, candidate, regenerate)
    && forall e :: e in Edits(s, files, candidate, regenerate) ==> s.loads(e.replacement)
  }

  function Min(a: nat, b: nat): nat {
    if a < b then a else b
  }

  // The files a session leaves; none when some rollback is refused.
  function Run(s: Setting, files: Files, session: Session): Option<Files>
    decreases session
  {
    match session
    case Nothing => Some(files)
    case Attempt(candidate, regenerate, saved) =>
      if MayImport(s, files, candidate, regenerate) then
        var edits := Edits(s, files, candidate, regenerate);
        Some(WithBackups(s, files, edits[..Min(saved, |edits|)]))
      else Some(files)
    case Then(first, second) =>
      var middle := Run(s, files, first);
      if middle.None? then None else Run(s, middle.value, second)
    case Around(candidate, regenerate, inner) =>
      if !Imports(s, files, candidate, regenerate) then Run(s, files, inner)
      else
        var receipt := ReceiptName(s, candidate, Edits(s, files, candidate, regenerate));
        var after := Run(s, Imported(s, files, candidate, regenerate), inner);
        if after.None? || !Applies(s, after.value, receipt) then None else Some(RolledBack(s, after.value, receipt))
  }

  // ---------------------------------------------------------------- bytes that tags tell apart

  // The lists of priors an import can write into the name of its receipt.
  ghost function PriorLists(known: set<Bytes>): set<seq<Bytes>> {
    (set x | x in known :: [x]) + (set x, y | x in known && y in known :: [x, y])
  }

  // No two of finitely many byte strings share a tag, and no two lists of one or two of them do.
  ghost predicate TagsDiffer(s: Setting, known: set<Bytes>) {
    && (forall a, b :: a in known && b in known && s.tag(a) == s.tag(b) ==> a == b)
    && (forall p, q :: p in PriorLists(known) && q in PriorLists(known) && s.joinTag(p) == s.joinTag(q) ==> p == q)
  }

  ghost predicate Unambiguous(s: Setting, known: set<Bytes>) {
    s.destination != s.durable && TagsDiffer(s, known)
  }

  // What the two catalogs hold.
  ghost function Live(s: Setting, files: Files): set<Bytes> {
    set name | name in {Catalog(s.destination), Catalog(s.durable)} && name in files && files[name].Raw? ::
      files[name].bytes
  }

  // Every byte string that is a catalog, a candidate or a regenerated catalog at some point of a session.
  ghost function Reached(s: Setting, files: Files, session: Session): set<Bytes>
    decreases session
  {
    match session
    case Nothing => Live(s, files)
    case Attempt(_, _, _) => Live(s, files)
    case Then(first, second) =>
      var middle := Run(s, files, first);
      Reached(s, files, first) + if middle.Some? then Reached(s, middle.value, second) else {}
    case Around(candidate, regenerate, inner) =>
      if !Imports(s, files, candidate, regenerate) then Reached(s, files, inner)
      else Live(s, files) + {candidate} + Reached(s, Imported(s, files, candidate, regenerate), inner)
  }

  lemma {:induction false} ReachedIncludesLive(s: Setting, files: Files, session: Session)
    ensures Live(s, files) <= Reached(s, files, session)
    decreases session
  {
    hide Imports, Imported, Live;
    if session.Then? {
      ReachedIncludesLive(s, files, session.first);
    } else if session.Around? && !Imports(s, files, session.candidate, session.regenerate) {
      ReachedIncludesLive(s, files, session.inner);
    }
  }

  lemma LiveBytes(s: Setting, files: Files, candidate: Bytes, regenerate: bool)
    requires MayImport(s, files, candidate, regenerate)
    ensures files[Catalog(s.destination)].bytes in Live(s, files)
    ensures files[Catalog(s.durable)].bytes in Live(s, files)
  {
    assert Catalog(s.destination) in {Catalog(s.destination), Catalog(s.durable)};
    assert Catalog(s.durable) in {Catalog(s.destination), Catalog(s.durable)};
  }

  // ---------------------------------------------------------------- what every step keeps

  ghost predicate KeepsBackups(s: Setting, known: set<Bytes>, a: Files, b: Files) {
    forall t: string, x :: x in known && Holds(a, Backup(t, s.tag(x)), Raw(x)) ==> Holds(b, Backup(t, s.tag(x)), Raw(x))
  }

  // The receipt an import of these bytes would write is there.
  ghost predicate HasReceipt(s: Setting, files: Files, baseline: Bytes, durable: Bytes, candidate: Bytes,
                             regenerate: bool) {
    var edits := EditsFrom(s, baseline, durable, candidate, regenerate);
    Holds(files, ReceiptName(s, candidate, edits), Doc(EntriesOf(s, edits)))
  }

  ghost predicate KeepsReceipts(s: Setting, known: set<Bytes>, a: Files, b: Files) {
    forall x, y, c, r :: x in known && y in known && c in known && HasReceipt(s, a, x, y, c, r) ==>
      HasReceipt(s, b, x, y, c, r)
  }

  ghost predicate Keeps(s: Setting, known: set<Bytes>, a: Files, b: Files) {
    SameCatalogs(a, b) && KeepsBackups(s, known, a, b) && KeepsReceipts(s, known, a, b)
  }

  lemma KeepsChain(s: Setting, known: set<Bytes>, a: Files, b: Files, c: Files)
    requires Keeps(s, known, a, b) && Keeps(s, known, b, c)
    ensures Keeps(s, known, a, c)
  {
    hide HasReceipt, Holds;
  }

  lemma {:induction false} BackupsKeep(s: Setting, known: set<Bytes>, files: Files, edits: seq<Edit>)
    requires Unambiguous(s, known) && forall e :: e in edits ==> e.prior in known
    ensures KeepsBackups(s, known, files, WithBackups(s, files, edits))
  {
    if edits != [] {
      BackupsKeep(s, known, files, edits[..|edits| - 1]);
    }
  }

  // A backup outlives the backup of other bytes of the same catalog exactly when their tags differ.
  lemma BackupSurvivesIff(s: Setting, files: Files, target: string, a: Bytes, b: Bytes, replacement: Bytes)
    requires Holds(files, Backup(target, s.tag(a)), Raw(a))
    ensures Holds(WithBackups(s, files, [Edit(target, b, replacement)]), Backup(target, s.tag(a)), Raw(a))
      <==> (a != b ==> s.tag(a) != s.tag(b))
  {
    assert [Edit(target, b, replacement)][..0] == [];
  }

  lemma BackupsAreApart(s: Setting, known: set<Bytes>, files: Files, edits: seq<Edit>)
    requires Unambiguous(s, known) && forall e :: e in edits ==> e.prior in known
    ensures Keeps(s, known, files, WithBackups(s, files, edits))
  {
    BackupsKeep(s, known, files, edits);
    BackupsKeepPriors(s, files, edits);
    hide Unambiguous, WithBackups, EntriesOf;
  }

  lemma EditsAreKnown(s: Setting, known: set<Bytes>, files: Files, candidate: Bytes, regenerate: bool)
    requires Live(s, files) <= known && MayImport(s, files, candidate, regenerate)
    ensures forall e :: e in Edits(s, files, candidate, regenerate) ==> e.prior in known
  {
    LiveBytes(s, files, candidate, regenerate);
  }

  // Two imports write the same receipt name only if they write the same receipt.
  lemma ReceiptsAreTheirOwn(s: Setting, known: set<Bytes>, x: Bytes, y: Bytes, c: Bytes, r: bool,
                            x': Bytes, y': Bytes, c': Bytes, r': bool)
    requires Unambiguous(s, known) && x in known && y in known && c in known
    requires x' in known && y' in known && c' in known
    requires ReceiptName(s, c, EditsFrom(s, x, y, c, r)) == ReceiptName(s, c', EditsFrom(s, x', y', c', r'))
    ensures EditsFrom(s, x, y, c, r) == EditsFrom(s, x', y', c', r')
  {
    var p := PriorsOf(s, x, y, c, r);
    var q := PriorsOf(s, x', y', c', r');
    assert p in PriorLists(known) && q in PriorLists(known) && s.joinTag(p) == s.joinTag(q);
    assert |p| == |q| && p[0] == q[0] && p[|p| - 1] == q[|q| - 1];
  }

  lemma PriorsOf(s: Setting, x: Bytes, y: Bytes, c: Bytes, r: bool) returns (p: seq<Bytes>)
    ensures p == Priors(EditsFrom(s, x, y, c, r)) && p == if r then [x, y] else [x]
  {
    var edits := EditsFrom(s, x, y, c, r);
    p := Priors(edits);
    assert edits[..1] == [Edit(s.destination, x, c)];
    assert edits[..1][..0] == [];
  }

  // ---------------------------------------------------------------- one import

  lemma {:induction false} ReplacementsAreCatalogs(files: Files, edits: seq<Edit>)
    ensures forall name: Name :: !name.Catalog? ==>
      (name in WithReplacements(files, edits) <==> name in files)
      && (name in files ==> WithReplacements(files, edits)[name] == files[name])
  {
    if edits != [] {
      ReplacementsAreCatalogs(files, edits[..|edits| - 1]);
    }
  }

  lemma ReplaceOne(files: Files, a: Edit)
    ensures WithReplacements(files, [a]) == files[Catalog(a.target) := Raw(a.replacement)]
  {
    assert [a][..0] == [];
  }

  lemma ReplaceTwo(files: Files, a: Edit, b: Edit)
    ensures WithReplacements(files, [a, b]) ==
      files[Catalog(a.target) := Raw(a.replacement)][Catalog(b.target) := Raw(b.replacement)]
  {
    assert [a, b][..1] == [a];
    ReplaceOne(files, a);
  }

  lemma {:induction false} BackupsThere(s: Setting, known: set<Bytes>, files: Files, edits: seq<Edit>, i: nat)
    requires Unambiguous(s, known) && (forall e :: e in edits ==> e.prior in known) && i < |edits|
    ensures Holds(WithBackups(s, files, edits), Backup(edits[i].target, s.tag(edits[i].prior)), Raw(edits[i].prior))
  {
    var n := |edits| - 1;
    if i < n {
      BackupsThere(s, known, files, edits[..n], i);
    }
  }

  // What an import leaves besides the catalogs.
  lemma ImportKeeps(s: Setting, known: set<Bytes>, files: Files, candidate: Bytes, regenerate: bool)
    requires Unambiguous(s, known) && Live(s, files) <= known && candidate in known
    requires MayImport(s, files, candidate, regenerate)
    ensures var f := Imported(s, files, candidate, regenerate);
      && KeepsBackups(s, known, files, f) && KeepsReceipts(s, known, files, f)
      && HasReceipt(s, f, files[Catalog(s.destination)].bytes, files[Catalog(s.durable)].bytes, candidate, regenerate)
  {
    var edits := Edits(s, files, candidate, regenerate);
    var saved := WithBackups(s, files, edits);
    var f := Imported(s, files, candidate, regenerate);
    EditsAreKnown(s, known, files, candidate, regenerate);
    BackupsAreApart(s, known, files, edits);
    ReplacementsAreCatalogs(saved, edits);
    assert KeepsBackups(s, known, files, f) by {
      hide WithBackups, WithReplacements, EntriesOf, Unambiguous;
    }
    var x', y' := files[Catalog(s.destination)].bytes, files[Catalog(s.durable)].bytes;
    LiveBytes(s, files, candidate, regenerate);
    hide WithBackups, WithReplacements, EntriesOf, Unambiguous, KeepsBackups, EditsFrom;
    forall x, y, c, r | x in known && y in known && c in known && HasReceipt(s, files, x, y, c, r)
      ensures HasReceipt(s, f, x, y, c, r)
    {
      assert HasReceipt(s, saved, x, y, c, r);
      if ReceiptName(s, c, EditsFrom(s, x, y, c, r))
        == ReceiptName(s, candidate, EditsFrom(s, x', y', candidate, regenerate)) {
        ReceiptsAreTheirOwn(s, known, x, y, c, r, x', y', candidate, regenerate);
      }
    }
  }

  // What it leaves at the catalogs,
  lemma ImportReplaces(s: Setting, files: Files, candidate: Bytes, regenerate: bool)
    requires s.destination != s.durable && MayImport(s, files, candidate, regenerate)
    ensures var x, y := files[Catalog(s.destination)].bytes, files[Catalog(s.durable)].bytes;
      var f := Imported(s, files, candidate, regenerate);
      && Holds(f, Catalog(s.destination), Raw(candidate))
      && Holds(f, Catalog(s.durable), Raw(if regenerate then s.generate(x, y, candidate) else y))
      && (forall name: string :: name != s.destination && name != s.durable ==>
            (Catalog(name) in f <==> Catalog(name) in files)
            && (Catalog(name) in f ==> f[Catalog(name)] == files[Catalog(name)]))
  {
    var edits := Edits(s, files, candidate, regenerate);
    var saved := WithBackups(s, files, edits);
    BackupsKeepPriors(s, files, edits);
    if regenerate {
      assert edits == [edits[0], edits[1]];
      ReplaceTwo(saved, edits[0], edits[1]);
    } else {
      assert edits == [edits[0]];
      ReplaceOne(saved, edits[0]);
    }
    hide WithBackups, WithReplacements, EntriesOf;
  }

  // and as their backups.
  lemma ImportSaves(s: Setting, known: set<Bytes>, files: Files, candidate: Bytes, regenerate: bool)
    requires Unambiguous(s, known) && Live(s, files) <= known && MayImport(s, files, candidate, regenerate)
    ensures var x, y := files[Catalog(s.destination)].bytes, files[Catalog(s.durable)].bytes;
      var f := Imported(s, files, candidate, regenerate);
      && Holds(f, Backup(s.destination, s.tag(x)), Raw(x))
      && (regenerate ==> Holds(f, Backup(s.durable, s.tag(y)), Raw(y)))
  {
    var edits := Edits(s, files, candidate, regenerate);
    EditsAreKnown(s, known, files, candidate, regenerate);
    BackupsThere(s, known, files, edits, 0);
    if regenerate {
      BackupsThere(s, known, files, edits, 1);
    }
    ReplacementsAreCatalogs(WithBackups(s, files, edits), edits);
    hide WithBackups, WithReplacements, EntriesOf;
  }

  // ---------------------------------------------------------------- one rollback

  lemma RollbackKeeps(s: Setting, known: set<Bytes>, files: Files, receipt: Name)
    requires Applies(s, files, receipt)
    ensures KeepsBackups(s, known, files, RolledBack(s, files, receipt))
    ensures KeepsReceipts(s, known, files, RolledBack(s, files, receipt))
  {
    var edits := Restores(s, files, files[receipt].entries);
    CopiesKeepPriors(s, files, edits);
    ReplacementsAreCatalogs(WithCopies(s, files, edits), edits);
    hide WithCopies, WithReplacements, Restores, EntriesOf, EditsFrom, Applies;
  }

  // After the import it undoes, and whatever kept its files in between, the receipt applies and the
  // catalogs return to what they were.
  lemma RollbackReturns(s: Setting, known: set<Bytes>, files: Files, candidate: Bytes, regenerate: bool, after: Files)
    requires Unambiguous(s, known) && Live(s, files) <= known && candidate in known
    requires Imports(s, files, candidate, regenerate)
    requires Keeps(s, known, Imported(s, files, candidate, regenerate), after)
    ensures var receipt := ReceiptName(s, candidate, Edits(s, files, candidate, regenerate));
      Applies(s, after, receipt) && SameCatalogs(files, RolledBack(s, after, receipt))
  {
    var x, y := files[Catalog(s.destination)].bytes, files[Catalog(s.durable)].bytes;
    var f := Imported(s, files, candidate, regenerate);
    var edits := Edits(s, files, candidate, regenerate);
    var receipt := ReceiptName(s, candidate, edits);
    ImportKeeps(s, known, files, candidate, regenerate);
    ImportReplaces(s, files, candidate, regenerate);
    ImportSaves(s, known, files, candidate, regenerate);
    EditsAreKnown(s, known, files, candidate, regenerate);
    AfterHolds(s, known, files, candidate, regenerate, after);
    ReceiptApplies(s, after, x, y, candidate, regenerate);
    RestoresCatalogs(s, after, x, y, candidate, regenerate);
    hide Imported, Unambiguous, EditsFrom, Applies, RolledBack, ReceiptName, Keeps;
  }

  // What the later files hold, read from what the import left.
  ghost predicate Ready(s: Setting, after: Files, x: Bytes, y: Bytes, candidate: Bytes, regenerate: bool) {
    && s.destination != s.durable
    && HasReceipt(s, after, x, y, candidate, regenerate)
    && Holds(after, Catalog(s.destination), Raw(candidate)) && s.loads(candidate)
    && Holds(after, Backup(s.destination, s.tag(x)), Raw(x)) && s.loads(x)
    && (if regenerate then
          && Holds(after, Catalog(s.durable), Raw(s.generate(x, y, candidate))) && s.loads(s.generate(x, y, candidate))
          && Holds(after, Backup(s.durable, s.tag(y)), Raw(y)) && s.loads(y)
        else Holds(after, Catalog(s.durable), Raw(y)))
  }

  lemma AfterHolds(s: Setting, known: set<Bytes>, files: Files, candidate: Bytes, regenerate: bool, after: Files)
    requires Unambiguous(s, known) && Live(s, files) <= known && candidate in known
    requires Imports(s, files, candidate, regenerate)
    requires Keeps(s, known, Imported(s, files, candidate, regenerate), after)
    ensures Ready(s, after, files[Catalog(s.destination)].bytes, files[Catalog(s.durable)].bytes, candidate, regenerate)
  {
    ImportKeeps(s, known, files, candidate, regenerate);
    ImportReplaces(s, files, candidate, regenerate);
    ImportSaves(s, known, files, candidate, regenerate);
    var x, y := files[Catalog(s.destination)].bytes, files[Catalog(s.durable)].bytes;
    LiveBytes(s, files, candidate, regenerate);
    var edits := Edits(s, files, candidate, regenerate);
    assert edits[|edits| - 1] in edits;
    hide Imported, EntriesOf, ReceiptName;
  }

  lemma ReceiptApplies(s: Setting, after: Files, x: Bytes, y: Bytes, candidate: Bytes, regenerate: bool)
    requires Ready(s, after, x, y, candidate, regenerate)
    ensures Applies(s, after, ReceiptName(s, candidate, EditsFrom(s, x, y, candidate, regenerate)))
  {
    var edits := EditsFrom(s, x, y, candidate, regenerate);
    assert EntriesOf(s, edits)[0]
      == Entry(s.destination, Backup(s.destination, s.tag(x)), Sha256(x), Sha256(candidate));
    if regenerate {
      assert edits[1..] == [edits[1]];
      assert InstalledAs(edits, s.durable) == InstalledAs(edits[1..], s.durable) == Sha256(edits[1].replacement);
      assert EntriesOf(s, edits)[1]
        == Entry(s.durable, Backup(s.durable, s.tag(y)), Sha256(y), Sha256(s.generate(x, y, candidate)));
    }
  }

  lemma RestoresCatalogs(s: Setting, after: Files, x: Bytes, y: Bytes, candidate: Bytes, regenerate: bool)
    requires Ready(s, after, x, y, candidate, regenerate)
    requires Applies(s, after, ReceiptName(s, candidate, EditsFrom(s, x, y, candidate, regenerate)))
    ensures var f := RolledBack(s, after, ReceiptName(s, candidate, EditsFrom(s, x, y, candidate, regenerate)));
      && Holds(f, Catalog(s.destination), Raw(x)) && Holds(f, Catalog(s.durable), Raw(y))
      && (forall name: string :: name != s.destination && name != s.durable ==>
            (Catalog(name) in f <==> Catalog(name) in after)
            && (Catalog(name) in f ==> f[Catalog(name)] == after[Catalog(name)]))
  {
    var receipt := ReceiptName(s, candidate, EditsFrom(s, x, y, candidate, regenerate));
    var back := Restores(s, after, after[receipt].entries);
    assert back[0] == Edit(s.destination, candidate, x);
    if regenerate {
      assert back[1] == Edit(s.durable, s.generate(x, y, candidate), y);
      assert back == [back[0], back[1]];
      ReplaceTwo(WithCopies(s, after, back), back[0], back[1]);
    } else {
      assert back == [back[0]];
      ReplaceOne(WithCopies(s, after, back), back[0]);
    }
    CopiesKeepPriors(s, after, back);
    hide WithCopies, WithReplacements, EntriesOf, Restores, ReceiptName, EditsFrom, Applies;
  }

  // ---------------------------------------------------------------- every session

  lemma {:induction false} SessionKeeps(s: Setting, known: set<Bytes>, files: Files, session: Session)
    requires Unambiguous(s, known) && Reached(s, files, session) <= known
    ensures Run(s, files, session).Some? && Keeps(s, known, files, Run(s, files, session).value)
    decreases session
  {
    hide Unambiguous, Imported, Edits, RolledBack, Applies, KeepsBackups, KeepsReceipts, ReceiptName, WithBackups;
    hide Live;
    ReachedIncludesLive(s, files, session);
    if session.Then? {
      SessionKeeps(s, known, files, session.first);
      var middle := Run(s, files, session.first).value;
      SessionKeeps(s, known, middle, session.second);
      KeepsChain(s, known, files, middle, Run(s, middle, session.second).value);
    } else if session.Around? {
      if Imports(s, files, session.candidate, session.regenerate) {
        AroundKeeps(s, known, files, session);
      } else {
        SessionKeeps(s, known, files, session.inner);
      }
    } else {
      KeepsItself(s, known, files);
      if session.Attempt? && MayImport(s, files, session.candidate, session.regenerate) {
        var edits := Edits(s, files, session.candidate, session.regenerate);
        EditsAreKnown(s, known, files, session.candidate, session.regenerate);
        BackupsAreApart(s, known, files, edits[..Min(session.saved, |edits|)]);
      }
    }
  }

  lemma {:induction false} AroundKeeps(s: Setting, known: set<Bytes>, files: Files, session: Session)
    requires session.Around? && Imports(s, files, session.candidate, session.regenerate)
    requires Unambiguous(s, known) && Reached(s, files, session) <= known
    ensures Run(s, files, session).Some? && Keeps(s, known, files, Run(s, files, session).value)
    decreases session, 0
  {
    hide Unambiguous, Imported, Edits, RolledBack, Applies, KeepsBackups, KeepsReceipts, ReceiptName, Live;
    var candidate, regenerate, inner := session.candidate, session.regenerate, session.inner;
    var f := Imported(s, files, candidate, regenerate);
    ImportKeeps(s, known, files, candidate, regenerate);
    SessionKeeps(s, known, f, inner);
    var after := Run(s, f, inner).value;
    var receipt := ReceiptName(s, candidate, Edits(s, files, candidate, regenerate));
    RollbackReturns(s, known, files, candidate, regenerate, after);
    RollbackKeeps(s, known, after, receipt);
    ArtefactsChain(s, known, files, f, after);
    ArtefactsChain(s, known, files, after, RolledBack(s, after, receipt));
  }

  // Whatever a last-in-first-out session imports, attempts and rolls back, as long as the tags tell
  // the bytes it reaches apart: no rollback is refused, every catalog returns to its bytes, and no
  // backup or receipt of these bytes is lost to another's.
  lemma SessionsReturn(s: Setting, files: Files, session: Session)
    requires s.destination != s.durable && TagsDiffer(s, Reached(s, files, session))
    ensures Run(s, files, session).Some?
    ensures Keeps(s, Reached(s, files, session), files, Run(s, files, session).value)
  {
    SessionKeeps(s, Reached(s, files, session), files, session);
  }

  lemma KeepsItself(s: Setting, known: set<Bytes>, files: Files)
    ensures Keeps(s, known, files, files)
  {
  }

  lemma ArtefactsChain(s: Setting, known: set<Bytes>, a: Files, b: Files, c: Files)
    requires KeepsBackups(s, known, a, b) && KeepsBackups(s, known, b, c)
    requires KeepsReceipts(s, known, a, b) && KeepsReceipts(s, known, b, c)
    ensures KeepsBackups(s, known, a, c) && KeepsReceipts(s, known, a, c)
  {
    hide HasReceipt, Holds;
  }

  // ---------------------------------------------------------------- twelve digits can do it

  ghost predicate CandidatesIn(known: set<Bytes>, session: Session) {
    match session
    case Nothing => true
    case Attempt(candidate, _, _) => candidate in known
    case Then(first, second) => CandidatesIn(known, first) && CandidatesIn(known, second)
    case Around(candidate, _, inner) => candidate in known && CandidatesIn(known, inner)
  }

  lemma FewerDiffer(s: Setting, known: set<Bytes>, fewer: set<Bytes>)
    requires TagsDiffer(s, known) && fewer <= known
    ensures TagsDiffer(s, fewer)
  {
    assert PriorLists(fewer) <= PriorLists(known);
    hide PriorLists;
  }

  predicate TwelveDigits(t: string) {
    |t| == 12 && forall i :: 0 <= i < |t| ==> '0' <= t[i] <= '9' || 'a' <= t[i] <= 'f'
  }

  // A small world: catalogs `a` and `b`, candidates `c` and `d`, and `e` whenever one is regenerated.
  const SMALL: set<Bytes> := {"a", "b", "c", "d", "e"}

  function Digit(b: Bytes): char {
    if b in SMALL then b[0] else '0'
  }

  function SmallTag(b: Bytes): string {
    "00000000000" + [Digit(b)]
  }

  function SmallJoinTag(p: seq<Bytes>): string {
    if |p| == 1 then "00000000001" + [Digit(p[0])]
    else if |p| == 2 then "0000000000" + [Digit(p[0]), Digit(p[1])]
    else "000000000000"
  }

  function SmallSetting(): Setting {
    Setting("live", "durable", b => true, (x, y, c, r) => true, (x, y, c) => "e", SmallTag, SmallJoinTag)
  }

  const SMALL_FILES: Files := map[Catalog("live") := Raw("a"), Catalog("durable") := Raw("b")]

  // An import that regenerates, another on top of it, and both their rollbacks.
  const SMALL_SESSION := Around("c", true, Around("d", false, Nothing))

  lemma TwelveEach(b: Bytes, p: seq<Bytes>)
    ensures TwelveDigits(SmallTag(b)) && TwelveDigits(SmallJoinTag(p))
  {
  }

  lemma SmallTagsDiffer(a: Bytes, b: Bytes)
    requires a in SMALL && b in SMALL && SmallTag(a) == SmallTag(b)
    ensures a == b
  {
    assert SmallTag(a)[11] == Digit(a) && SmallTag(b)[11] == Digit(b);
  }

  lemma SmallJoinTagsDiffer(p: seq<Bytes>, q: seq<Bytes>)
    requires p in PriorLists(SMALL) && q in PriorLists(SMALL) && SmallJoinTag(p) == SmallJoinTag(q)
    ensures p == q
  {
    var t, u := SmallJoinTag(p), SmallJoinTag(q);
    assert t[10] == if |p| == 1 then '1' else Digit(p[0]);
    assert u[10] == if |q| == 1 then '1' else Digit(q[0]);
    assert t[11] == Digit(p[|p| - 1]) && u[11] == Digit(q[|q| - 1]);
  }

  // The hypothesis of `SessionsReturn` can be met with tags of twelve digits, by a session whose two
  // imports both take place.
  lemma TwelveDigitsSuffice()
    ensures var s := SmallSetting();
      && (forall b :: TwelveDigits(s.tag(b))) && (forall p :: TwelveDigits(s.joinTag(p)))
      && Imports(s, SMALL_FILES, "c", true)
      && Imports(s, Imported(s, SMALL_FILES, "c", true), "d", false)
      && s.destination != s.durable && TagsDiffer(s, Reached(s, SMALL_FILES, SMALL_SESSION))
  {
    var s := SmallSetting();
    forall b: Bytes, p: seq<Bytes> ensures TwelveDigits(s.tag(b)) && TwelveDigits(s.joinTag(p)) {
      TwelveEach(b, p);
    }
    assert TagsDiffer(s, SMALL) by {
      forall a, b | a in SMALL && b in SMALL && s.tag(a) == s.tag(b) ensures a == b {
        SmallTagsDiffer(a, b);
      }
      forall p, q | p in PriorLists(SMALL) && q in PriorLists(SMALL) && s.joinTag(p) == s.joinTag(q) ensures p == q {
        SmallJoinTagsDiffer(p, q);
      }
    }
    hide PriorLists;
    SmallReached();
    FewerDiffer(s, SMALL, Reached(s, SMALL_FILES, SMALL_SESSION));
  }

  lemma SmallReached()
    ensures var s := SmallSetting();
      && Imports(s, SMALL_FILES, "c", true)
      && Imports(s, Imported(s, SMALL_FILES, "c", true), "d", false)
      && Reached(s, SMALL_FILES, SMALL_SESSION) <= SMALL
  {
    var s := SmallSetting();
    var f := Imported(s, SMALL_FILES, "c", true);
    ImportReplaces(s, SMALL_FILES, "c", true);
    ImportReplaces(s, f, "d", false);
  }
}
