# Verification of the release tools, the config splicer, catalog review and the Luau quoter

This project models four parts of the repository in Dafny and proves what they promise.

**The release transaction journal** (`release_tools/updater.py`). `ReleaseFiles`, `Journal` and `JournalSafety` describe
updates, rollbacks and recoveries as atomic steps over the owned files, the snapshots and the pending marker. A crash
may come between any two steps; it forgets the process and both nonce sets and keeps the disk. `JournalTheorems` and
`JournalAlternation` hold the results about every run: what a marker and its absence mean, that every interrupted switch
can be recovered, that receipts stay coherent inside every snapshot that is still named, that a stale marker carries no
authority, and that one-step rollbacks alternate. `Updater` is the imperative layer: every change its methods make is
one step of the journal, so those results hold at each point of each method. Anything outside the model may fail at any
call (`Faulty`); with `reliable` set nothing does, and then rollback and recovery are proved to complete exactly when
the snapshot fits. `bin` is restored in place, one file or directory per journal step: `FileTrees` says which files and
directories a file system can hold together, and `InPlaceRestore` what each step needs and keeps, the temporary file of
a replacement cut short included. The world therefore carries the directories inside `bin`, empty ones included, and the
owned places at which something of the wrong kind stands.

**The config splicer** (`release_tools/installer.py`). `TomlLexer` gives the line advance as a one-byte-at-a-time
automaton and proves the find-and-jump loop equal to it; `TomlStream` extends that to whole files. `TomlHeader` gives
every spelling of a dotted header key as a syntax tree and proves printing and parsing inverse in both directions, and
`TomlEscapes` says from a digit printer of its own what each spelling stands for. `TomlValues` and `TomlDocument` are an
independent grammar of values and documents, nested to any depth, and prove that scanning a document reports exactly
what it says; `DocumentFinder` draws the consequence for the registration. `TomlScan` proves that scanning composes,
`Registration` and `Splice` characterise exactly which files the finder accepts, `CodexBlock` shows the generated block
is one closed table whatever the launcher path, and `CodexConfig` and `CodexLifecycle` prove that uninstall inverts
install over any run of reinstalls, migrations and added tables.

**Ownership and the broker** (`release_tools/installer.py`). `InstallFiles` and `Installation` model the steps of
install, repair, catalog import and catalog rollback over named files with a log of stops, starts and writes. A write a
broker depends on can only be made behind a stop; when nothing needs to change none is made.

**Catalog review** (`studio_mcp_v2/catalog_review.py`). `Json` keeps objects in key order and defines their canonical
form; `Catalog`, `CatalogReview`, `CatalogGate`, `CatalogContract` and `CatalogRegenerate` cover validation, the review
and what it lets through, the durable contract and regeneration; `CatalogImport`, `CatalogStack` and `CatalogCollisions`
cover the multi-file replace, its rollback, and how imports and rollbacks nest.

**The long-bracket quoter** (`scripts/render_studio_plugin.py`) is in `LongBracket`, read back by the long-bracket rule
of section 2.1 of the Lua 5.1 Reference Manual.

Conventions: bytes are characters with the same code; SHA-256 is injective, so a digest keeps its preimage; nonces,
snapshot names and uuids come from a counter that never repeats; JSON documents of the journal are kept as what they say.

## What the proofs found

- A marker whose removal is not durable and cannot be written back leaves one unprotected window:
  `JournalTheorems.DoubleFaultIsUnsafe` gives a four-step run that ends in a mixture with no marker. All other results
  about runs assume that this one fault does not happen (`NoDoubleFault`). If the undo that follows completes, the files
  are the old ones, and it completes on nothing else (`JournalTheorems.DoubleFaultUndone`).
- Recovery is not always able to complete. It refuses outright when something of the wrong kind stands at an owned
  place, as a file where `artifacts` should be; and since `bin` is restored in place, a file that is wanted where a
  directory stands, or a directory where a file stands, stops it. A candidate that leaves either, and then crashes,
  leaves a valid marker that no number of recoveries clears (`JournalTheorems.ObstructionBlocksRecovery`,
  `JournalTheorems.DirectoryBlocksRecovery`, `JournalTheorems.ClashBlocksRecovery`). An undisturbed recovery or rollback
  completes if and only if neither is the case (`JournalTheorems.Fits`, in
  `Updater.ReleaseUpdater.RecoverInterruptedUpdate` and `Updater.ReleaseUpdater.TransactionalSnapshotRollback`); a
  rollback that does not fit is itself undone completely.
- TOML lets a multiline string end in one or two quotes right before its closing delimiter. The scanner closes the string
  at the first three quotes and takes a fourth for the start of another string (`TomlValues.QuoteBeforeClosing`); in a
  list on one line it then refuses the config for an open bracket (`TomlDocument.QuotedEndRefused`). The grammar of
  documents leaves this one form out; on all others scanning is exact (`TomlDocument.ScanDocument`).
- Uninstall returns the original text and the added tables byte for byte, but the tables that followed keep a line of
  their own exactly when the text before them is empty or ends its last line (`CodexLifecycle.SeamKeepsTable`); a config
  that is a single unterminated comment swallows the next table (`CodexLifecycle.CommentSwallowsTable`).
- Backups of catalog imports are named by twelve hex digits. A backup survives a backup of other bytes exactly when the
  two tags differ (`CatalogStack.BackupSurvivesIff`). The stack theorem therefore asks that the tags differ on the
  finitely many byte strings the session reaches, and twelve digits can do that (`CatalogStack.TwelveDigitsSuffice`).
  For two imports, one inside the other, the outer rollback is accepted exactly when the tags keep its receipt and its
  backups apart from those of the inner one (`CatalogCollisions.NestedImports`); with one tag for everything it is
  always refused (`CatalogCollisions.OneTagRefuses`).
- When an import or a rollback fails and the broker refuses to stop a second time, the message says that disk and state
  still match the broker. They do exactly when the record step completed, or the old record happened to name the new
  catalogs (`InstallFiles.RecordedIff`, `Installation.Installer.CatalogImport`,
  `Installation.Installer.CatalogRollback`). From an installation whose record is right, a fault in the record step
  leaves a record that does not match, unless the command put in place the very bytes it found
  (`InstallFiles.UnrecordedImport`).
- The 32-level search of the quoter needs at least 529 characters to fail, and 529 is enough
  (`LongBracket.UnquotableIsLong`, `LongBracket.ShortestUnquotable`).

## Model
| member | source | states |
|---|---|---|
| ReleaseFiles.IntactVerifies | release_tools/updater.py:402-433 | a snapshot that was sealed and never touched passes every check of its manifest: scope, file sets and digests |
| ReleaseFiles.VerifiesIff | release_tools/updater.py:402-433 | a copy with the manifest of some captured files verifies exactly if it holds those files: every directory and both external files, no file more or less, every content the captured one |
| JournalSafety.CoherentKept | release_tools/updater.py:1202-1235 | the chain of receipts and snapshots behind an installation stays coherent as long as sealed snapshots stay as they are |
| JournalSafety.NewReceiptCoherent | release_tools/updater.py:1202-1235 | after the two receipt writes the latest receipt names the new version and an intact snapshot of the old one, whose own receipt is coherent |
| JournalSafety.SealStep | release_tools/updater.py:348-400 | sealing a capture keeps the invariant: the receipt inside the new snapshot only names earlier, intact snapshots |
| JournalSafety.UnlinkStep | release_tools/updater.py:877-910 | clearing the marker last keeps the invariant and settles exactly the live files, which are the committed ones or, after an undo or a recovery, those of the snapshot |
| JournalSafety.RewriteStep | release_tools/updater.py:893-910 | a marker written back after an unlink that was not durable again names an intact snapshot of the files before the switch |
| JournalSafety.StepKeepsInv | release_tools/updater.py:836-1022 | every step of every operation, and a crash at any point, keeps the journal invariant |
| JournalSafety.StepKeepsBin | release_tools/updater.py:225-307 | after every step, whatever was interrupted, what stands in `bin` is a tree a file system can hold: no path is both file and directory and no parent is missing |
| JournalSafety.RunKeepsInv | release_tools/updater.py:1458-1785 | so does every run of any length |
| JournalTheorems.JournalIsSafe | release_tools/updater.py:836-910 | in every run, a present marker names an intact snapshot equal to the files before the switch, and without a marker the files are exactly the ones that last settled, never a mixture; those are the files of the start, of an edit made while no transaction was open, or the files live when a doctor said ok at an earlier step together with that transaction's two receipts |
| JournalTheorems.WhatSettles | release_tools/updater.py:1566-1657 | the settled files change only by an edit outside any transaction, by a commit of the accepted files with their two receipts, or back again when that commit's unlink was not durable |
| JournalTheorems.CommittedFilesWereAccepted | release_tools/updater.py:1553-1564 | the files carried to a commit were the live files of an earlier doctor run of the same transaction that said ok while status was ok |
| JournalTheorems.DoubleFaultIsUnsafe | release_tools/updater.py:893-910 | when the marker is gone and cannot be written back, the next rename and a crash leave neither the old files nor the new ones, and no marker; this run is possible exactly when nothing of the wrong kind stands at an owned place |
| JournalTheorems.DoubleFaultUndone | release_tools/updater.py:1597-1631 | however far the undo after that fault gets there is no marker, and the restored release's doctor runs exactly when every owned file is the old one again |
| JournalTheorems.RecoveryIsAlwaysOpen | release_tools/updater.py:912-1022 | whatever interrupted a switch, its marker validates and recovery may start |
| JournalTheorems.SnapshotsAreKept | release_tools/updater.py:435-492 | no step, in particular none of a restore or of a failed restore, changes a sealed snapshot |
| JournalTheorems.RecoveryRestoresSnapshot | release_tools/updater.py:1507-1533 | the recovery that clears the marker leaves every owned file equal to the snapshot, however many attempts were cut before it |
| JournalTheorems.SettledReceiptNamesVersion | release_tools/updater.py:1278-1429 | without a marker the latest receipt is absent or names the installed version, and status is ok |
| JournalTheorems.RestoredDoctorSeesOk | release_tools/updater.py:1507-1533 | status is ok whenever the doctor of an undone or recovered release runs |
| JournalTheorems.RollbackDoctorSeesOk | release_tools/updater.py:1694-1708 | status is ok, and the installed version is the target, when the doctor of a rolled-back release runs |
| JournalTheorems.CandidateDoctorSeesOk | release_tools/updater.py:1337-1405 | status is ok for a candidate that installed its version and left the receipts alone |
| JournalTheorems.StatusIff | release_tools/updater.py:1278-1429 | in every state of a run: without a marker status is ok; with one exactly while a restored release is proved, or for a nonce in memory whose candidate or rolled-back release is installed with the receipt it must have |
| JournalTheorems.RollbackAllowedIff | release_tools/updater.py:1837-1929 | a settled installation can be rolled back exactly if it has a receipt, and that receipt leads to an intact snapshot of the version it names |
| JournalTheorems.SnapshotReceiptsCoherent | release_tools/updater.py:1202-1235 | receipts are coherent inside every snapshot that the marker or the latest receipt names |
| JournalTheorems.StaleStep | release_tools/updater.py:1431-1456 | under a stale marker no cross-version install is authorised, no transaction begins, its snapshot stays, and only its own recovery clears it |
| JournalTheorems.StaleUntilRecovered | release_tools/updater.py:852-875 | the same over every continuation of any length: the marker is still there without authority, or some step of the run was its recovery clearing it |
| JournalTheorems.StaleIsNeverOk | release_tools/updater.py:1337-1405 | under a stale marker status is ok only inside its own recovery once the files are back |
| JournalTheorems.AuthorizedIff | release_tools/updater.py:1431-1456 | in every state of a run, a cross-version install is authorised exactly for the candidate of the update this process runs, and exactly while the version it leaves is still installed |
| JournalTheorems.BegunIsAuthorized | release_tools/updater.py:1431-1456 | right after its marker is written an update is authorised for its candidate and for nothing else; a rollback never is |
| JournalTheorems.WrittenIsAuthorized | release_tools/updater.py:1446-1456 | after each write of the candidate the authority stands exactly if that write left the old version installed |
| JournalTheorems.RecoveryAttempts | release_tools/updater.py:1458-1551 | over any run of recoveries that fail or are cut, every file of the snapshot's `bin` that was there stays there with its old or its snapshot content, what keeps the snapshot from fitting neither comes nor goes, and the marker is cleared only if it fitted |
| JournalTheorems.ClashBlocksRecovery | release_tools/updater.py:435-459 | a snapshot that does not fit keeps the marker through any number of attempts until the files are edited |
| JournalTheorems.DirectoryBlocksRecovery | release_tools/updater.py:272-279 | a failing input: a candidate that puts a directory in place of any file of the old `bin`, and a crash; the marker validates, recovery may start, and none clears it |
| JournalTheorems.ObstructionBlocksRecovery | release_tools/updater.py:441-459 | another: a candidate that leaves something of the wrong kind at any owned directory or external file |
| JournalTheorems.UnfitBlocksRecovery | release_tools/updater.py:435-492 | and in general any candidate over whose files the old ones do not fit |
| JournalAlternation.RollbacksAlternate | release_tools/updater.py:1659-1785 | over every run in which only rollbacks commit, an even number of them is back at the first release and an odd number at the other, whatever crashed, failed or was recovered in between |
| JournalAlternation.RollbacksAfterUpdate | release_tools/updater.py:1837-1929 | after an update from A to B, n successful rollbacks leave exactly the active files of A when n is odd and of B when n is even |
| Updater.CutAnywhere | release_tools/updater.py:1458-1551 | cut after any prefix of its log, an operation leaves a marker recovery accepts, or the files as they last settled |
| Updater.CutInsideWrite | release_tools/updater.py:129-151 | cut inside an atomic write of a restore it leaves a temporary file besides, every expected file is untouched, and recovery may start |
| Updater.ReleaseUpdater.Perform | release_tools/updater.py:1566-1785 | an operation changes the world only by legal steps of the journal, which its log records |
| Updater.ReleaseUpdater.CopyTree | release_tools/updater.py:184-222 | the copy of a directory equals it, or the capture is abandoned with nothing else changed |
| Updater.ReleaseUpdater.Capture | release_tools/updater.py:348-400 | a finished capture is sealed and equals the live files; a refused one leaves only an unfinished snapshot |
| Updater.ReleaseUpdater.ReplaceDir | release_tools/updater.py:471-481 | a directory moved out and its copy moved in leave the snapshot's directory and nothing else changed |
| Updater.ReleaseUpdater.MakeRequired | release_tools/updater.py:252-270 | shallowest first, every needed directory is made, unless one of them is a file |
| Updater.ReleaseUpdater.ReplaceFiles | release_tools/updater.py:272-279 | every expected file is replaced before any is removed, unless one of them is a directory |
| Updater.ReleaseUpdater.DropDirs | release_tools/updater.py:293-306 | deepest first, every directory nothing needs is removed, and each is empty when its turn comes |
| Updater.ReleaseUpdater.RestoreBin | release_tools/updater.py:225-307 | `bin` ends as exactly the snapshot's files and the directories they need; undisturbed this happens if and only if nothing clashes, and wherever it stops the files it started from can be put back without a clash |
| Updater.ReleaseUpdater.RestoreFiles | release_tools/updater.py:435-492 | a finished restore leaves all four trees, the directories of `bin` and both external files equal to the snapshot; a failed one changed only live files; undisturbed it finishes if and only if nothing of the wrong kind stands at an owned place and nothing in `bin` clashes |
| Updater.ReleaseUpdater.Status | release_tools/updater.py:1278-1429 | reports ok exactly when a marker is proven live by this process, or without one the receipt names the installed version; a marker whose nonce is not in memory is never ok |
| Updater.ReleaseUpdater.AuthorizesCrossVersionInstall | release_tools/updater.py:1431-1456 | answers yes exactly for the candidate of the update in progress while the version it leaves is installed; never while no operation runs |
| Updater.ReleaseUpdater.BeginPending | release_tools/updater.py:836-875 | writes a marker naming the sealed snapshot and both versions, or leaves the process idle with the files unchanged |
| Updater.ReleaseUpdater.ClearPending | release_tools/updater.py:877-910 | the marker is gone, or it is back with the settled files unchanged |
| Updater.ReleaseUpdater.WriteReceipt | release_tools/updater.py:1202-1235 | archives the receipt under a new name and then makes it the latest, or turns to undoing |
| Updater.ReleaseUpdater.Undo | release_tools/updater.py:1597-1631 | puts the snapshot back and clears the marker, or leaves the same marker for recovery; undisturbed the first happens if and only if the snapshot fits |
| Updater.ReleaseUpdater.TransactionalSwitch | release_tools/updater.py:1566-1657 | done: the accepted files are active and the receipt names both versions and an intact snapshot of exactly the files before; refused: the old files, or a marker recovery accepts; undisturbed with a good candidate it succeeds, and undisturbed with a bad one it is undone if and only if the old files fit over what the candidate left |
| Updater.ReleaseUpdater.TransactionalSnapshotRollback | release_tools/updater.py:1659-1785 | done: the exact active files of the receipt's snapshot, and a receipt that allows rolling forward again; refused: nothing settled changed; undisturbed and from a complete installation it succeeds if and only if the snapshot fits over the live files, and otherwise it is undone and leaves no marker |
| Updater.ReleaseUpdater.Update | release_tools/updater.py:1787-1835 | the same from the entry point, refusing the installed version itself; undisturbed with a good candidate it succeeds |
| Updater.ReleaseUpdater.RollBack | release_tools/updater.py:1837-1929 | only to the version the latest receipt came from, and only from the version the caller accepts; undisturbed such a request succeeds if and only if that release's files fit |
| Updater.ReleaseUpdater.RecoverInterruptedUpdate | release_tools/updater.py:1458-1551 | does nothing exactly when there is no marker; done leaves exactly the snapshot's files and the directories they need; refused keeps the marker; undisturbed it completes if and only if nothing of the wrong kind stands at an owned place and nothing in `bin` clashes with the snapshot |
| FileTrees.RequiredIsAncestorClosed | release_tools/updater.py:252-259 | the directories the expected files need contain their own ancestors |
| FileTrees.StaleIsEmpty | release_tools/updater.py:296-306 | an unneeded directory of greatest depth holds no file and no directory, so removing it cannot fail |
| InPlaceRestore.StepIsSound | release_tools/updater.py:139-306 | making a directory, replacing a file, leaving a temporary file, removing an unexpected file and removing an empty directory each lead from one possible tree to another |
| InPlaceRestore.ClashStays | release_tools/updater.py:258-279 | no step of a restore makes or resolves a clash between what is wanted and what stands |
| InPlaceRestore.RunIsStable | release_tools/updater.py:225-307 | after any number of steps of a restore each expected file of the start is present with its old or its snapshot content, and the tree can only have become the snapshot's if nothing clashed at the start |
| InPlaceRestore.StepMayReturn | release_tools/updater.py:225-307 | no step gets in the way of the files the restore started from, provided directories are made before any file is removed and temporary files are left while the directories of the start are there |
| InPlaceRestore.ReturnIsClear | release_tools/updater.py:225-307 | so putting those files back meets no clash |
| TomlLexer.Escaped | release_tools/installer.py:737-744 | backward counting finds whether an odd run of backslashes precedes a position |
| TomlLexer.InsideMultiBasic | release_tools/installer.py:746-758 | inside a multiline basic string the forward automaton carries exactly the parity the backward count finds |
| TomlLexer.FindClose | release_tools/installer.py:747-753 | finds the first unescaped closing delimiter, or that there is none |
| TomlLexer.MultilineJump | release_tools/installer.py:746-758 | jumping to that delimiter equals running the automaton over every byte before it |
| TomlLexer.SkipBasic | release_tools/installer.py:771-781 | skipping a single-line basic string equals running the automaton over it, closed or not |
| TomlLexer.SkipLiteral | release_tools/installer.py:782-785 | likewise for a single-line literal string |
| TomlLexer.AdvanceTomlLexicalState | release_tools/installer.py:727-795 | for every byte string and state, the find-and-jump loop computes what the one-byte automaton computes |
| TomlValues.ItemPasses | release_tools/installer.py:727-795 | over any value of the grammar, whatever its strings, blocks and comments hold and however deep its brackets and braces nest, the automaton returns to the state it began in, and no line inside begins at a statement boundary |
| TomlValues.QuoteBeforeClosing | release_tools/installer.py:746-758 | the exception: a block ending in a quote before its closing delimiter leaves a string open |
| TomlStream.HeaderClosesItself | release_tools/installer.py:826-841 | advancing over an accepted header line would have changed nothing, so skipping it loses nothing |
| TomlStream.ScanFollowsAutomaton | release_tools/installer.py:816-858 | a successful scan ends in the state the automaton reaches over all the bytes |
| TomlStream.HeadersAreOutside | release_tools/installer.py:820-841 | a header is reported only where the automaton is outside every string, comment and collection |
| Utf8.DecodeEncode | release_tools/installer.py:616-620 | strict decoding inverts encoding on every string |
| Utf8.EncodeDecode | release_tools/installer.py:616-620 | bytes decode to a text exactly if they are its encoding, so overlong and surrogate forms are refused |
| Utf8.EncodedShape | release_tools/installer.py:616-620 | a character has one to four bytes by its size, and they spell its number in groups of six bits |
| TomlHeader.ParsePrinted | release_tools/installer.py:608-724 | every spelling of a header, in any mix of bare, literal and basic keys, blanks and comment, parses back to itself |
| TomlHeader.PrintParsed | release_tools/installer.py:608-724 | every accepted line is a spelling of what it parses to |
| TomlHeader.AcceptedIffSpelled | release_tools/installer.py:608-724 | a line is accepted with given segments and array flag exactly when it is a spelling of them |
| TomlEscapes.ParsedIffSpells | release_tools/installer.py:608-724 | an accepted header means a list of names exactly if it spells them, segment by segment and character by character: a bare or literal segment is itself, an escaped character is its number in hexadecimal digits of either case or its letter |
| TomlEscapes.EscapeIsRead | release_tools/installer.py:679-693 | every character written as four or eight hexadecimal digits, in either case, is read back as that character |
| TomlEscapes.LetterIsRead | release_tools/installer.py:669-678 | exactly seven letters are escapes, and each gives its character by number |
| TomlEscapes.EscapedHeaderIsRead | release_tools/installer.py:608-724 | any list of names has a header in which every character is escaped, and the parser gives the names back |
| TomlHeader.ReadEscape | release_tools/installer.py:663-694 | computes the escape parser, whose values the rows of TomlEscapes fix, refusing surrogates and values beyond Unicode |
| TomlHeader.ParseTomlHeaderSegments | release_tools/installer.py:608-724 | the nested index loops terminate and decode exactly what the syntax tree says, on every byte string |
| TomlScan.TomlAssignmentKey | release_tools/installer.py:878-911 | the key of an assignment is what precedes the first `=` outside quotes and comments, decoded by the header parser |
| TomlScan.ScanTomlStructure | release_tools/installer.py:798-858 | the line loop reports the headers and assignments of the recursive scan |
| TomlDocument.ScanInsideValue | release_tools/installer.py:816-858 | lines that begin inside a value, within a bracket, a brace or a block, report nothing |
| TomlDocument.AssignedKey | release_tools/installer.py:874-913 | the key of an assignment is read whatever stands after its equals sign, also when quoted segments hold equals signs, comment signs or dots |
| TomlDocument.ScanDocument | release_tools/installer.py:798-858 | for every document of the grammar, scanning reports exactly its headers and its assignments, each at its offset and with its decoded names, and nothing inside a value |
| TomlDocument.QuotedEndRefused | release_tools/installer.py:727-795 | the exception at document level: a list on one line with such a block is refused for an open bracket |
| TomlScan.ScanAppend | release_tools/installer.py:816-853 | scanning a whole is scanning its parts one after the other at every cut that splits no line |
| TomlScan.ScanFrame | release_tools/installer.py:816-853 | what a scan finds does not depend on where it starts or on what came before |
| TomlScan.ScanFromHeader | release_tools/installer.py:831-841 | text that opens with a header does not see the table it comes after |
| TomlScan.ScanAscends | release_tools/installer.py:832-841 | headers are reported in the order of their starts |
| TomlScan.HeaderCut | release_tools/installer.py:832-841 | cutting a file at any reported header leaves two parts that scan on their own |
| Registration.MatchedParts | release_tools/installer.py:75-82 | what the header pattern matches is put together from its pieces |
| Registration.MatchRejoined | release_tools/installer.py:75-82 | and everything put together that way is matched, piece by piece |
| Registration.MatchedLine | release_tools/installer.py:583-605 | the pattern takes exactly the first line, and the scanner reads the same registration there or refuses the line |
| Splice.MatchMeansRegistration | release_tools/installer.py:583-605 | a header the pattern matches registers exactly the matched name |
| Splice.SplitIsFound | release_tools/installer.py:950-996 | a file made of clean text, one exact table and clean tables is reported with exactly that table |
| Splice.FoundIsSplit | release_tools/installer.py:950-996 | and every file reported with one table is made that way, so everything naming a registration lies inside the slice |
| Splice.UnregisteredIff | release_tools/installer.py:861-996 | the finder reports nothing exactly when no header and no dotted assignment names a registration |
| DocumentFinder.RegistersIff | release_tools/installer.py:861-876 | a header registers exactly if its names lead to or into the table of one of the two servers |
| DocumentFinder.DocumentRegisters | release_tools/installer.py:915-996 | the finder reports nothing for a document exactly if none of its tables leads to one of the two servers and none of its assignments does or defines all servers at once |
| CodexBlock.QuotedCloses | release_tools/installer.py:549-563 | a JSON-quoted launcher path opens and closes on its line, whatever it contains |
| CodexBlock.QuotedReads | release_tools/installer.py:549-552 | read as a TOML basic string the quoted launcher path is the path, whatever it contains |
| CodexBlock.BlockNamesLauncher | release_tools/installer.py:549-557 | the first entry of the generated table is the quoted launcher path |
| CodexBlock.BlockIsTable | release_tools/installer.py:549-580 | the generated block is exactly one table under its own name, whatever the launcher path |
| CodexConfig.ConfigFile.Write | release_tools/installer.py:1131-1208 | a change backs the old bytes up first and writes exactly the planned bytes; it happens exactly if there is neither a registration nor a record, or the recorded table is the former one with its recorded hash and migration is allowed, or the current one differs from what would be written and its replacement was asked for; in every other case nothing changes |
| CodexConfig.WriteIff | release_tools/installer.py:999-1070 | exactly when a write succeeds and what it leaves: a first table appended, an up-to-date table kept, a replaceable table replaced and nothing else touched; a drifted, unowned or unrecorded table is refused |
| CodexConfig.OwnsSeparatorIff | release_tools/installer.py:1073-1128 | the separator owned is the recorded one if the text before the table ends with it, or the one by which that text exceeds the backup |
| CodexConfig.FreshSeparatorIs | release_tools/installer.py:1158-1187 | the separator of a first table ends an open last line and leaves one blank line |
| CodexConfig.ConfigFile.Uninstall | release_tools/installer.py:4020-4077 | removes the table and its separator after a backup, or refuses with the file unchanged |
| CodexConfig.SplitTables | release_tools/installer.py:816-853 | the tables of a spliced file are those before, the registration, and those after, in order |
| CodexConfig.FirstWrite | release_tools/installer.py:1158-1187 | after an append, rescanning finds exactly the expected block, and every other table is as before |
| CodexConfig.LaterWrite | release_tools/installer.py:1158-1208 | after a migration or replacement, rescanning finds exactly the expected block in the place of the old one, no legacy table, and every other table in its place |
| CodexConfig.OwnedSeparatorIs | release_tools/installer.py:1073-1128 | the separator removed is at most the two line breaks the installer itself put before its table |
| CodexConfig.UninstallIff | release_tools/installer.py:4020-4077 | uninstall succeeds exactly on a file of user text, owned separator, owned table and user tables, and leaves the user's two texts; every other drift is refused |
| CodexLifecycle.InstallEditUninstall | release_tools/installer.py:1158-1187 | for every scannable config without a registration, install succeeds, and after any run of reinstalls and added tables uninstall gives the original followed by exactly what was added |
| CodexLifecycle.MigrateEditUninstall | release_tools/installer.py:999-1128 | a config owned under the former name is refused until a permitted migration has run, and then uninstalls the same way |
| CodexLifecycle.SeamKeepsTable | release_tools/installer.py:4053-4077 | after uninstall the following tables begin on a line of their own exactly when the text before is empty or ends its last line |
| CodexLifecycle.CommentSwallowsTable | release_tools/installer.py:4053-4077 | the config `#` shows the other case: its comment swallows the first table that followed |
| InstallFiles.RepairIsIdempotent | release_tools/installer.py:2378-2438 | a second repair of a pair writes nothing, under the old record or the new one |
| InstallFiles.DesiredIsOwed | release_tools/installer.py:2408-2416 | what a pair is repaired to: the recorded bytes if either copy still holds them, else the packaged ones |
| InstallFiles.RepairedStays | release_tools/installer.py:2440-2494 | repaired catalogs stay as they are under the record the repair leads to |
| InstallFiles.IdleStart | release_tools/installer.py:1866-2028 | when no sensitive change is needed, every step of an install finds its files already in place |
| InstallFiles.InstalledIff | release_tools/installer.py:2757-3055 | what success means, spelled out: every payload file, private secrets, the runtime configuration, all six launchers, the packaged manifest, catalogs under their contract and two equal plugin copies |
| InstallFiles.InstalledNeedsNothing | release_tools/installer.py:1866-2028 | after an install whose record fits what is there, the same package finds nothing left to change |
| InstallFiles.SensitiveIff | release_tools/installer.py:1866-2028 | a broker depends on every managed file but the plugin, the ownership record and the Codex config |
| InstallFiles.RecordedIff | release_tools/installer.py:3591-3620 | however many of its writes the record step completes, the record names the live catalogs exactly if it was written or named them before, and so do both mirrors exactly if each was written or held them before |
| InstallFiles.UnrecordedImport | release_tools/installer.py:3754-3759 | the failing input: from an installation whose record is right, an import whose record step does not complete leaves a record that matches only if the imported bytes are the ones that were there |
| InstallFiles.FencedIff | release_tools/installer.py:1792-1802 | a log is fenced exactly when some stop in it has no start after it |
| Installation.Installer.RestoreOwnedPair | release_tools/installer.py:2378-2438 | if the record names some bytes and either copy still holds them, both copies end as those bytes, else both end as the packaged default; every displaced byte string is kept; it fails exactly on unowned or irregular copies |
| Installation.Installer.ReadOrCreateSecrets | release_tools/installer.py:1332-1356 | existing secrets are kept exactly if they are valid and private and no rotation is asked for; new ones are written private after a backup |
| Installation.Installer.WriteRuntime | release_tools/installer.py:1372-1392 | the runtime configuration ends as expected, and is refused exactly if another one stands there that no record vouches for |
| Installation.Installer.InstallLauncher | release_tools/installer.py:2610-2636 | a launcher ends as expected, and is refused exactly if one stands there that is irregular, is not on record, or is the expected one under another recorded hash |
| Installation.Installer.RepairCatalogs | release_tools/installer.py:2440-2494 | the manifest ends as packaged, and each pair as the recorded bytes if either copy still held them, else as packaged; every displaced byte string is kept |
| Installation.Installer.ResetCatalogs | release_tools/installer.py:2297-2376 | succeeds exactly for a recorded release of another version whose five contract files are regular; then all five become the packaged ones with every displaced byte kept, and otherwise nothing is touched |
| Installation.Installer.InstallLaunchers | release_tools/installer.py:2575-2636 | all six launchers end as expected; none is written in a calm command |
| Installation.Installer.LifecycleSensitiveChangeNeeded | release_tools/installer.py:1866-2028 | false exactly when release, secrets and their mode, runtime config, catalogs, plugin and launchers all match |
| Installation.Installer.Install | release_tools/installer.py:2757-3055 | with an existing installation every write a broker depends on follows a stop; when nothing needs to change the broker is not stopped and none of those bytes is written; an unauthorised cross-version install changes nothing; success means every part is installed; a rotation leaves the new secrets, and config and record are the ones given; with a record that fits, a second install needs nothing; whatever comes of it, every managed file still stands or its bytes are put away, and a first install replaces nothing it did not write |
| Installation.Installer.UpdateCatalogState | release_tools/installer.py:3591-3620 | mirrors the live catalogs and records their digests without touching them; cut after any number of its writes, exactly those are made |
| Installation.Installer.StartAndVerifyCatalog | release_tools/installer.py:3622-3684 | a broker is only started on the bytes the record names |
| Installation.Installer.CatalogImport | release_tools/installer.py:3701-3789 | under every failure all catalog writes lie between a stop and the next start; done means live, mirrored, recorded and started; put back means the earlier live catalogs and record; left running means the new catalogs with the record step as far as it came, and the record matches them exactly if that step completed or the old record named them; undisturbed it is done or left running exactly as the record step and the second stop decide |
| Installation.Installer.CatalogRollback | release_tools/installer.py:3810-3942 | the same for rollback; put back means all five catalog files and the record are those before the command; left running means the restored catalogs with the record step as far as it came, or, if they were never put in place, the old record with live catalogs that are the old ones or half replaced |
| Json.AssignCanonical | studio_mcp_v2/catalog_review.py:201-207 | assigning a key in place changes the canonical form at that key only |
| Json.SameGet | studio_mcp_v2/catalog_review.py:201-207 | values with one canonical form hold the same keys with the same canonical values |
| Json.CanonicalIff | studio_mcp_v2/catalog_review.py:201-207 | two values have one canonical form exactly if they agree in kind and scalars, in every item of a list and in the value under every key of an object, whatever the order of the keys |
| Catalog.AcceptedCatalog | studio_mcp_v2/catalog_review.py:218-332 | every accepted catalog lists at most 512 tools, no two of one name, each with a name that begins with a letter and an object schema whose required names are properties, each once |
| Catalog.SameSchema | studio_mcp_v2/catalog_review.py:218-274 | whether a schema is valid depends only on its canonical form |
| Catalog.CompatibleIsExact | studio_mcp_v2/catalog_review.py:602-633 | a compatible candidate is mapped and has exactly its handler's canonical input and output contract |
| Names.SortedOrder | studio_mcp_v2/catalog_review.py:661-700 | the order names are reviewed in lists each name once, ascending |
| Names.BeforeIff | studio_mcp_v2/catalog_review.py:661-700 | one name is before another if it is a proper beginning of it or has the smaller code point where they first differ |
| CatalogReview.FirstClaimantHonoured | studio_mcp_v2/catalog_review.py:663-698 | among the tools claiming a removed one, the first by name is honoured |
| CatalogReview.HonouredIff | studio_mcp_v2/catalog_review.py:667-680 | a claim is refused exactly when its prior tool is still there or was taken by an earlier name |
| CatalogReview.ReviewClaims | studio_mcp_v2/catalog_review.py:661-698 | the loop over additions reports every claim with its verdict and collects exactly the prior names taken |
| CatalogReview.ReviewCommon | studio_mcp_v2/catalog_review.py:716-768 | each common tool is reported as changed in schema, output, metadata or not at all, in that order |
| CatalogReview.ReviewCatalogs | studio_mcp_v2/catalog_review.py:636-789 | malformed catalogs are refused, all others reviewed name by name; the review fails closed exactly when some verdict blocks |
| CatalogGate.OpenIff | studio_mcp_v2/catalog_review.py:602-633 | a review stays open exactly if every tool that is new, or whose canonical input or output contract changed, is mapped to a handler with exactly its contracts, and every claimed rename is of a tool that is gone and that no other tool claims |
| CatalogGate.CommonKindIs | studio_mcp_v2/catalog_review.py:716-768 | a common tool is reported by the first of its input contract, its output contract and the rest of its keys that canonically differ, and as unchanged if none does |
| CatalogReview.EveryNameOnce | studio_mcp_v2/catalog_review.py:654-771 | every name of either catalog is reported exactly once, except the prior names of honoured renames |
| CatalogReview.EachToolReportedOnce | studio_mcp_v2/catalog_review.py:654-771 | every added or common tool has exactly one change, and it is the one it deserves |
| CatalogReview.EachDroppedDisposedOnce | studio_mcp_v2/catalog_review.py:663-702 | every removed tool is reported once as removed or is the prior name of exactly one honoured rename |
| CatalogReview.RenamesAreInjective | studio_mcp_v2/catalog_review.py:663-698 | no two honoured renames take the same prior name |
| CatalogReview.CountOfChanges | studio_mcp_v2/catalog_review.py:654-789 | the number of changes is the size of the union of names less the number of honoured renames |
| CatalogReview.RenamesAreReported | studio_mcp_v2/catalog_review.py:663-698 | the honoured renames are exactly the ones the review reports |
| CatalogContract.ContractKept | studio_mcp_v2/catalog_review.py:792-930 | a catalog that differs canonically only in its provenance and generation record, with sound provenance, satisfies the contract as well |
| CatalogContract.ContractPins | studio_mcp_v2/catalog_review.py:792-930 | one manifest admits one contract: catalogs that satisfy it have exactly the same handlers with canonically the same closed input contracts and output contracts |
| CatalogRegenerate.CompatibleStands | studio_mcp_v2/catalog_review.py:944-972 | every compatible change of a review still has its mapping, its source and its handler, with equal input schemas |
| CatalogRegenerate.CompatibleIsRecorded | studio_mcp_v2/catalog_review.py:944-981 | every mapped compatible change is on record, each pair once |
| CatalogRegenerate.RecordIsCompatible | studio_mcp_v2/catalog_review.py:944-981 | nothing else is on record |
| CatalogRegenerate.SortSources | studio_mcp_v2/catalog_review.py:986-992 | the record is sorted by handler and then by upstream name, with nothing lost |
| CatalogRegenerate.SourceReads | studio_mcp_v2/catalog_review.py:974-981 | a line of the record says the tool, its handler, how it had changed and the policy |
| CatalogRegenerate.VersionIs | studio_mcp_v2/catalog_review.py:983-987 | the recorded version is the one the candidate declares, else the first twelve digits of its hash |
| CatalogRegenerate.RegenerateDurableCatalog | studio_mcp_v2/catalog_review.py:933-997 | from a catalog that satisfies the contract and any review of these catalogs, regeneration never fails, leaves every tool canonically equal, changes only provenance and record, and its result satisfies the contract; any result at all does |
| CatalogImport.WriteBackRestores | studio_mcp_v2/catalog_review.py:1203-1206 | however many targets were replaced, writing all priors back restores every file |
| CatalogImport.CatalogDirectory.Import | studio_mcp_v2/catalog_review.py:1090-1254 | done: backups, replacements and receipt exactly as specified; refused or undone: every catalog at its prior bytes; a candidate the review rejects changes no file; undisturbed, an import whose checks pass and whose replacements load is done |
| CatalogImport.CatalogDirectory.Rollback | studio_mcp_v2/catalog_review.py:1257-1341 | a receipt applies only while every target holds what it installed and every backup what it saved; otherwise no file changes; undisturbed it completes |
| CatalogStack.BackupSurvivesIff | studio_mcp_v2/catalog_review.py:1174-1183 | a backup outlives the backup of other bytes of the same catalog exactly when their tags differ |
| CatalogStack.ReceiptsAreTheirOwn | studio_mcp_v2/catalog_review.py:1208-1239 | two imports of bytes whose tags differ write one receipt name only if they write the same receipt |
| CatalogStack.RollbackReturns | studio_mcp_v2/catalog_review.py:1257-1341 | after an import and anything that kept its files, its receipt applies and every catalog returns to its bytes |
| CatalogStack.SessionsReturn | studio_mcp_v2/catalog_review.py:1168-1341 | any last-in-first-out sequence of imports, failed imports and rollbacks whose tags differ on the bytes it reaches returns every catalog to its bytes, refuses no rollback, and loses none of their backups or receipts |
| CatalogStack.TwelveDigitsSuffice | studio_mcp_v2/catalog_review.py:1174-1233 | tags of twelve hex digits meet that condition for a session of two nested imports, one of them regenerating |
| CatalogCollisions.NestedImports | studio_mcp_v2/catalog_review.py:1168-1341 | two imports of different candidates, one inside the other: the inner rollback is never refused, the outer one is accepted exactly when the tags keep its receipt and its backups apart from the inner import's, and then every catalog is back |
| CatalogCollisions.OneTagRefuses | studio_mcp_v2/catalog_review.py:1223-1239 | the failing input: where all bytes share one tag, the outer rollback is refused |
| CatalogCollisions.OwnBaselineRefuses | studio_mcp_v2/catalog_review.py:1208-1222 | an import that regenerates the very file it replaces writes a receipt that does not apply unless the regenerated catalog is the candidate itself, so the results above ask for two different targets |
| LongBracket.LuauLongString | scripts/render_studio_plugin.py:138-147 | the literal uses the lowest level below 32 whose closer the value does not contain, and fails only when there is none |
| LongBracket.LiteralReads | scripts/render_studio_plugin.py:138-147 | the first matching closer is the final one: reading the literal gives the value and one line break, with nothing left over |
| LongBracket.LiteralReadsNormalised | scripts/render_studio_plugin.py:138-147 | with line breaks normalised on reading, the value survives exactly when it holds no carriage return |
| LongBracket.UnquotableIsLong | scripts/render_studio_plugin.py:138-147 | the search can fail only on values of at least 529 characters |
| LongBracket.ShortestUnquotable | scripts/render_studio_plugin.py:138-147 | a value of exactly 529 characters makes it fail |

## Left out
- Downloads, archives, subprocess calls, dynamic module loading and platform checks: each is a nondeterministic success or failure, or is not mentioned.
- File locks, fsync and permission probing: a step of the disk is atomic and durable, except for the removal of the pending marker, whose durability may fail.
- Symbolic links and other irregular entries: `Installation` has irregular paths as a set, the journal has the owned places at which one stands, and below those places there are regular files only.
- The directories that contain the owned places (the support root, the Codex home, the plugin folder): taken to exist as directories.
- Temporary files outside `bin` that an atomic write cut short leaves behind, and half-made copies beside the owned directories: the owned trees are replaced whole, and nothing reads the rest.
- The marker's process id and the clock: a marker is live exactly while its nonce is in memory.
- Empty directories outside the live `bin` and the sizes a manifest records: digests determine sizes, and only files are compared.
- Snapshots tampered with on disk: sealed snapshots change by no step of the model, so modes are those that were captured.
- The retained package of a release and its hash checks before stop, doctor and rollback: they are part of the calls that may fail.
- Writes to owned files outside any transaction: they may change anything but the installed version and its receipt, and after a crash anything at all.
- The steps of uninstall after the config is rewritten (plugin, launchers, directories): only the config step is modelled.
- The header's end offset reported by the scan: no caller reads it.
- Matches of the header pattern away from header starts: the source discards them, so only header starts are asked.
- Text that is not UTF-8: it is refused in headers, where the source decodes it, and is plain bytes elsewhere.
- Concurrent processes in the updater: one process runs at a time, as the exclusive lock of `release_tools/updater.py` ensures.
- Secrets, the rendered plugin, the Codex block and the ownership record in `Installation`: their bytes are parameters, and of the file modes only that of the secrets is kept, the only one an install asks for.
- Plugin files: they are not among the bytes fenced by a stop, since the source rewrites a plugin whose recorded digests differ without stopping the broker.
- The package tree and the configuration, run and log directories that an install also writes: no broker claim concerns them.
- Catalog validation by the publication boundary and the search of the handler source: two parameters of the contract, assumed to read the canonical form only.
- Bounds on nesting and non-finite numbers in JSON: every value of the model has a canonical form.
- Loading a catalog from bytes: a parameter that says which bytes load, with the parsed catalogs given separately.
- `audit_installed_v1_cache`, `prepare_catalog_import`, `doctor` and the argument parsers: reports and read-only wrappers of the operations above.
- `release_tools/audit.py`, `release_tools/proof.py`, `release_tools/bootstrap.py`, `release_tools/builder.py`, the native compile step and the live routing modules are not part of this model.
- Updater.ReleaseUpdater.TransactionalSwitch: assumes the double fault of the pending marker away, like every result about runs.
- CatalogStack.SessionsReturn: assumes that no two of the byte strings the session reaches, and no two lists of one or two of them, share a twelve-digit tag, which the source assumes as well.
- CatalogImport.CatalogDirectory.Import: when writing the priors back fails as well the outcome is `Stuck`, and nothing is said about the targets.
