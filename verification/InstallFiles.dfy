// What an installation keeps on disk, when a healthy broker may stay up, and the fence between broker
// runs and writes (release_tools/installer.py, 1332-1397, 1866-2028, 2256-2515, 2575-2636).
module InstallFiles {
  import opened Basics

  datatype LauncherId =
    Launcher | LauncherBootstrap | Manager | LegacyLauncher | LegacyLauncherBootstrap | LegacyManager

  datatype Path =
    | Secrets
    | Runtime
    | EffectiveCatalog
    | CatalogArtifact
    | UpstreamCatalog
    | UpstreamArtifact
    | Compatibility
    | LauncherFile(id: LauncherId)
    | PluginTarget
    | PluginArtifact
    | InstallState
    | CodexConfigFile

  // The bytes a running broker depends on, besides the release tree.
  predicate Sensitive(p: Path) {
    p.Secrets? || p.Runtime? || p.EffectiveCatalog? || p.CatalogArtifact? || p.UpstreamCatalog? || p.UpstreamArtifact?
    || p.Compatibility? || p.LauncherFile?
  }

  // That is all but the two copies of the plugin, the ownership record and the Codex config.
  lemma SensitiveIff(p: Path)
    ensures Sensitive(p) <==> p !in {PluginTarget, PluginArtifact, InstallState, CodexConfigFile}
  {
  }

  // Which step of an install a path belongs to.
  datatype Part = SecretsPart | RuntimePart | CatalogPart | LauncherPart | PluginPart | OtherPart

  function PartOf(p: Path): Part {
    match p
    case Secrets => SecretsPart
    case Runtime => RuntimePart
    case LauncherFile(_) => LauncherPart
    case PluginTarget => PluginPart
    case PluginArtifact => PluginPart
    case InstallState => OtherPart
    case CodexConfigFile => OtherPart
    case _ => CatalogPart
  }

  type Tree = map<string, Bytes>

  // Regular files, the release tree if there is one, the paths at which something irregular is, and
  // the mode of the secrets file, the only mode that is ever asked for.
  datatype Disk = Disk(files: map<Path, Bytes>, release: Option<Tree>, irregular: set<Path>, secretsMode: nat)

  // 0600
  const PRIVATE: nat := 0x180

  datatype CatalogState = CatalogState(
    sha: Option<Digest>, artifactSha: Option<Digest>, upstreamSha: Option<Digest>, compatibilitySha: Option<Digest>)

  datatype PluginState = PluginState(sha: Option<Digest>, artifactSha: Option<Digest>)

  // The ownership record; a field that is missing or malformed is None.
  datatype State = State(
    version: string,
    catalog: Option<CatalogState>,
    plugin: Option<PluginState>,
    launchers: Option<map<LauncherId, Digest>>,
    runtimeSha: Option<Digest>)

  // The package being installed, and the checks whose code is outside this model.
  datatype Package = Package(
    version: string,
    payload: Tree,
    runtime: Bytes,
    launchers: map<LauncherId, Bytes>,
    secretsOk: Bytes -> bool,               // valid credentials
    contractOk: (Bytes, Bytes) -> bool,     // durable catalog against compatibility manifest
    loads: Bytes -> bool)                   // loads as an upstream catalog

  const DURABLE := "config/durable-tool-catalog.json"
  const UPSTREAM := "config/tool-catalog.json"
  const COMPATIBILITY := "config/upstream-compatibility-map.json"

  predicate WholePackage(k: Package) {
    && DURABLE in k.payload && UPSTREAM in k.payload && COMPATIBILITY in k.payload
    && (forall id :: id in LAUNCHERS ==> id in k.launchers)
  }

  predicate Is(d: Disk, p: Path, digest: Option<Digest>) {
    p in d.files && digest.Some? && Sha256(d.files[p]) == digest.value
  }

  predicate TreeMatches(release: Option<Tree>, payload: Tree) {
    release.Some? && forall rel :: rel in payload ==> rel in release.value && release.value[rel] == payload[rel]
  }

  predicate BothAre(d: Disk, a: Path, b: Path, bytes: Bytes) {
    a in d.files && b in d.files && d.files[a] == bytes && d.files[b] == bytes
  }

  // ---------------------------------------------------------------- two copies of one catalog

  // What a pair is repaired to: the owned bytes if either copy still has them, else the default.
  function Desired(d: Disk, owned: bool, target: Path, artifact: Path, source: Bytes, prior: Option<Digest>): Bytes {
    if !owned then source
    else if Is(d, target, prior) then d.files[target]
    else if Is(d, artifact, prior) then d.files[artifact]
    else source
  }

  // A first install refuses copies that are not already the packaged bytes.
  predicate Unowned(d: Disk, owned: bool, target: Path, artifact: Path, source: Bytes) {
    !owned && ((target in d.files && d.files[target] != source) || (artifact in d.files && d.files[artifact] != source))
  }

  // What a repair of a pair owes its owner: if the record names some bytes and either copy still
  // holds them, both copies hold them afterwards; otherwise both hold the packaged ones.
  ghost predicate OwnedOrPackaged(
    a: Disk, b: Disk, owned: bool, target: Path, artifact: Path, source: Bytes, prior: Option<Digest>)
  {
    && (forall x :: owned && prior == Some(Sha256(x)) && (Has(a, target, x) || Has(a, artifact, x)) ==>
          BothAre(b, target, artifact, x))
    && ((!owned || forall x :: prior == Some(Sha256(x)) ==> !Has(a, target, x) && !Has(a, artifact, x)) ==>
          BothAre(b, target, artifact, source))
  }

  lemma DesiredIsOwed(
    a: Disk, b: Disk, owned: bool, target: Path, artifact: Path, source: Bytes, prior: Option<Digest>)
    requires BothAre(b, target, artifact, Desired(a, owned, target, artifact, source, prior))
    ensures OwnedOrPackaged(a, b, owned, target, artifact, source, prior)
  {
    if Is(a, target, prior) {
      assert Has(a, target, a.files[target]);
    }
    if Is(a, artifact, prior) {
      assert Has(a, artifact, a.files[artifact]);
    }
  }

  // Copies that no record vouches for must be the packaged ones already.
  lemma UnownedIff(d: Disk, owned: bool, target: Path, artifact: Path, source: Bytes)
    ensures !Unowned(d, owned, target, artifact, source) <==>
      !owned ==> forall p :: p in {target, artifact} && p in d.files ==> Has(d, p, source)
  {
  }

  function WithFile(d: Disk, p: Path, bytes: Bytes): Disk {
    d.(files := d.files[p := bytes])
  }

  predicate Has(d: Disk, p: Path, bytes: Bytes) {
    p in d.files && d.files[p] == bytes
  }

  lemma WithFileHas(d: Disk, p: Path, bytes: Bytes, q: Path, other: Bytes)
    ensures Has(d, p, bytes) ==> WithFile(d, p, bytes) == d
    ensures p != q ==> (Has(WithFile(d, p, bytes), q, other) <==> Has(d, q, other))
    ensures p != q ==> (q in WithFile(d, p, bytes).files <==> q in d.files)
    ensures p != q && q in d.files ==> WithFile(d, p, bytes).files[q] == d.files[q]
    ensures WithFile(d, p, bytes).irregular == d.irregular
  {
    assert Has(d, p, bytes) ==> d.files[p := bytes] == d.files;
  }

  lemma RepairedIs(d: Disk, target: Path, artifact: Path, bytes: Bytes)
    ensures Repaired(d, target, artifact, bytes) == WithFile(WithFile(d, artifact, bytes), target, bytes)
    ensures BothAre(d, target, artifact, bytes) <==> Has(d, target, bytes) && Has(d, artifact, bytes)
  {
  }

  function Repaired(d: Disk, target: Path, artifact: Path, bytes: Bytes): Disk {
    d.(files := d.files[artifact := bytes][target := bytes])
  }

  // A pair a repair leaves alone.
  predicate PairIdle(d: Disk, owned: bool, target: Path, artifact: Path, source: Bytes, prior: Option<Digest>) {
    BothAre(d, target, artifact, Desired(d, owned, target, artifact, source, prior))
  }

  // A second repair writes nothing, whether its record still has the old digest or already the new one.
  lemma RepairIsIdempotent(d: Disk, owned: bool, target: Path, artifact: Path, source: Bytes, prior: Option<Digest>)
    ensures var bytes := Desired(d, owned, target, artifact, source, prior);
      && PairIdle(Repaired(d, target, artifact, bytes), owned, target, artifact, source, prior)
      && PairIdle(Repaired(d, target, artifact, bytes), true, target, artifact, source, Some(Sha256(bytes)))
  {
    var bytes := Desired(d, owned, target, artifact, source, prior);
    var after := Repaired(d, target, artifact, bytes);
    assert after.files[target] == bytes && after.files[artifact] == bytes;
  }

  function DurableOwned(s: Option<State>): Option<Digest> {
    if s.Some? && s.value.catalog.Some? then s.value.catalog.value.sha else None
  }

  function UpstreamOwned(s: Option<State>): Option<Digest> {
    if s.Some? && s.value.catalog.Some? then s.value.catalog.value.upstreamSha else None
  }

  // The manifest is the package's, and each pair is what its owner last had or the package's default.
  predicate RepairedCatalogs(k: Package, a: Disk, b: Disk, s: Option<State>)
    requires WholePackage(k)
  {
    var upstream := Desired(a, s.Some?, UpstreamCatalog, UpstreamArtifact, k.payload[UPSTREAM], UpstreamOwned(s));
    var durable := Desired(a, s.Some?, EffectiveCatalog, CatalogArtifact, k.payload[DURABLE], DurableOwned(s));
    && Compatibility in b.files && b.files[Compatibility] == k.payload[COMPATIBILITY]
    && BothAre(b, UpstreamCatalog, UpstreamArtifact, upstream)
    && BothAre(b, EffectiveCatalog, CatalogArtifact, durable)
  }

  lemma RepairsCompose(k: Package, a: Disk, s: Option<State>)
    requires WholePackage(k)
    ensures
      var d1 := a.(files := a.files[Compatibility := k.payload[COMPATIBILITY]]);
      var d2 := Repaired(d1, UpstreamCatalog, UpstreamArtifact,
                         Desired(d1, s.Some?, UpstreamCatalog, UpstreamArtifact, k.payload[UPSTREAM],
                                 UpstreamOwned(s)));
      var d3 := Repaired(d2, EffectiveCatalog, CatalogArtifact,
                         Desired(d2, s.Some?, EffectiveCatalog, CatalogArtifact, k.payload[DURABLE], DurableOwned(s)));
      RepairedCatalogs(k, a, d3, s)
  {
  }

  // Both pairs are what their owner is owed.
  ghost predicate CatalogsOwed(k: Package, a: Disk, b: Disk, s: Option<State>)
    requires WholePackage(k)
  {
    && Has(b, Compatibility, k.payload[COMPATIBILITY])
    && OwnedOrPackaged(a, b, s.Some?, UpstreamCatalog, UpstreamArtifact, k.payload[UPSTREAM], UpstreamOwned(s))
    && OwnedOrPackaged(a, b, s.Some?, EffectiveCatalog, CatalogArtifact, k.payload[DURABLE], DurableOwned(s))
  }

  lemma RepairedIsOwed(k: Package, a: Disk, b: Disk, s: Option<State>)
    requires WholePackage(k) && RepairedCatalogs(k, a, b, s)
    ensures CatalogsOwed(k, a, b, s)
  {
    DesiredIsOwed(a, b, s.Some?, UpstreamCatalog, UpstreamArtifact, k.payload[UPSTREAM], UpstreamOwned(s));
    DesiredIsOwed(a, b, s.Some?, EffectiveCatalog, CatalogArtifact, k.payload[DURABLE], DurableOwned(s));
    hide OwnedOrPackaged, Desired;
  }

  // Once repaired, the catalogs stay as they are, under the old record or the one now written.
  lemma RepairedStays(k: Package, a: Disk, b: Disk, s: Option<State>, c: CatalogState)
    requires WholePackage(k) && RepairedCatalogs(k, a, b, s)
    requires c.sha == Some(Sha256(b.files[EffectiveCatalog])) && c.upstreamSha == Some(Sha256(b.files[UpstreamCatalog]))
    ensures SeedIdle(k, b, c)
    ensures s.Some? && s.value.catalog.Some? ==> SeedIdle(k, b, s.value.catalog.value)
  {
  }

  const CONTRACT := [EffectiveCatalog, CatalogArtifact, UpstreamCatalog, UpstreamArtifact, Compatibility]

  // The packaged bytes of each contract file.
  function Packaged(k: Package, p: Path): Bytes
    requires WholePackage(k)
  {
    if p == EffectiveCatalog || p == CatalogArtifact then k.payload[DURABLE]
    else if p == UpstreamCatalog || p == UpstreamArtifact then k.payload[UPSTREAM]
    else k.payload[COMPATIBILITY]
  }

  predicate IsPackaged(k: Package, d: Disk, p: Path)
    requires WholePackage(k)
  {
    p in d.files && d.files[p] == Packaged(k, p)
  }

  lemma PackagedManifest(k: Package, d: Disk)
    requires WholePackage(k) && forall p :: p in CONTRACT ==> IsPackaged(k, d, p)
    ensures ManifestPackaged(k, d)
  {
    assert CONTRACT[4] == Compatibility;
    assert IsPackaged(k, d, Compatibility);
  }

  predicate ContractHolds(k: Package, d: Disk) {
    && EffectiveCatalog in d.files && Compatibility in d.files && UpstreamCatalog in d.files
    && k.contractOk(d.files[EffectiveCatalog], d.files[Compatibility]) && k.loads(d.files[UpstreamCatalog])
  }

  // What the record says of these live catalogs.
  function CatalogRecord(d: Disk): CatalogState
    requires AllCatalogs(d)
  {
    CatalogState(Some(Sha256(d.files[EffectiveCatalog])), Some(Sha256(d.files[EffectiveCatalog])),
                 Some(Sha256(d.files[UpstreamCatalog])), Some(Sha256(d.files[Compatibility])))
  }

  // The record names the bytes of the live catalogs.
  predicate RecordMatches(d: Disk, s: Option<State>) {
    AllCatalogs(d) && s.Some? && s.value.catalog == Some(CatalogRecord(d))
  }

  predicate RecordedSha(d: Disk, s: Option<State>) {
    && s.Some? && s.value.catalog.Some? && EffectiveCatalog in d.files
    && s.value.catalog.value.sha == Some(Sha256(d.files[EffectiveCatalog]))
  }

  // And the mirrors hold them too.
  predicate CatalogsRecorded(d: Disk, s: Option<State>) {
    && RecordMatches(d, s)
    && BothAre(d, CatalogArtifact, EffectiveCatalog, d.files[EffectiveCatalog])
    && BothAre(d, UpstreamArtifact, UpstreamCatalog, d.files[UpstreamCatalog])
  }

  // The two live catalogs.
  predicate LiveAre(d: Disk, upstream: Bytes, effective: Bytes) {
    && UpstreamCatalog in d.files && d.files[UpstreamCatalog] == upstream
    && EffectiveCatalog in d.files && d.files[EffectiveCatalog] == effective
  }

  // The live catalogs and their mirrors.
  predicate AllCatalogs(d: Disk) {
    && EffectiveCatalog in d.files && UpstreamCatalog in d.files && CatalogArtifact in d.files
    && UpstreamArtifact in d.files
    && Compatibility in d.files
  }

  predicate SameCatalogFiles(a: Disk, b: Disk) {
    && AllCatalogs(a) && AllCatalogs(b)
    && a.files[EffectiveCatalog] == b.files[EffectiveCatalog] && a.files[UpstreamCatalog] == b.files[UpstreamCatalog]
    && a.files[CatalogArtifact] == b.files[CatalogArtifact] && a.files[UpstreamArtifact] == b.files[UpstreamArtifact]
    && a.files[Compatibility] == b.files[Compatibility]
  }

  // ---------------------------------------------------------------- replacing and recording the catalogs

  function ReplacedLive(d: Disk, upstream: Bytes, effective: Bytes): Disk {
    d.(files := d.files[UpstreamCatalog := upstream][EffectiveCatalog := effective])
  }

  // Nothing but the live catalogs has changed, and each is the old or the new one.
  predicate HalfReplaced(before: Disk, after: Disk, upstream: Bytes, effective: Bytes) {
    && AllCatalogs(before) && AllCatalogs(after)
    && after == ReplacedLive(before, after.files[UpstreamCatalog], after.files[EffectiveCatalog])
    && after.files[UpstreamCatalog] in {before.files[UpstreamCatalog], upstream}
    && after.files[EffectiveCatalog] in {before.files[EffectiveCatalog], effective}
  }

  lemma HalfIs(before: Disk, after: Disk, upstream: Bytes, effective: Bytes)
    requires AllCatalogs(before) && AllCatalogs(after)
    requires after.release == before.release && after.irregular == before.irregular
    requires after.secretsMode == before.secretsMode && after.files.Keys == before.files.Keys
    requires forall p :: p in before.files && p != UpstreamCatalog && p != EffectiveCatalog ==>
      after.files[p] == before.files[p]
    requires after.files[UpstreamCatalog] in {before.files[UpstreamCatalog], upstream}
    requires after.files[EffectiveCatalog] in {before.files[EffectiveCatalog], effective}
    ensures HalfReplaced(before, after, upstream, effective)
  {
    assert after.files
      == ReplacedLive(before, after.files[UpstreamCatalog], after.files[EffectiveCatalog]).files;
  }

  // The record step completes.
  predicate Recordable(k: Package, d: Disk, written: nat)
    requires AllCatalogs(d)
  {
    k.contractOk(d.files[EffectiveCatalog], d.files[Compatibility]) && written >= 3
  }

  // How many of its writes take place.
  function WritesOf(k: Package, d: Disk, written: nat): nat
    requires AllCatalogs(d)
  {
    if k.contractOk(d.files[EffectiveCatalog], d.files[Compatibility]) then written else 0
  }

  // The two mirrors, then the record.
  function RecordStep(d: Disk, n: nat, recordBytes: Bytes): Disk
    requires AllCatalogs(d)
  {
    var d1 := if n >= 1 then WithFile(d, CatalogArtifact, d.files[EffectiveCatalog]) else d;
    var d2 := if n >= 2 then WithFile(d1, UpstreamArtifact, d.files[UpstreamCatalog]) else d1;
    if n >= 3 then WithFile(d2, InstallState, recordBytes) else d2
  }

  function StateStep(s: Option<State>, d: Disk, n: nat): Option<State>
    requires AllCatalogs(d)
  {
    if n >= 3 && s.Some? then Some(s.value.(catalog := Some(CatalogRecord(d)))) else s
  }

  // The disk and the record when a command stops after its record step.
  predicate LeftAs(
      k: Package, live: Disk, s: Option<State>, written: nat, recordBytes: Bytes, d: Disk, t: Option<State>)
    requires AllCatalogs(live)
  {
    var n := WritesOf(k, live, written);
    d == RecordStep(live, n, recordBytes) && t == StateStep(s, live, n)
  }

  // After the record step, complete or not, the record names the live catalogs exactly if it was
  // written or named them before; and it does so with both mirrors exactly if each mirror was
  // written or held them before.
  lemma RecordedIff(k: Package, live: Disk, s: Option<State>, written: nat, recordBytes: Bytes)
    requires AllCatalogs(live) && s.Some?
    ensures var n := WritesOf(k, live, written);
      var d, t := RecordStep(live, n, recordBytes), StateStep(s, live, n);
      && AllCatalogs(d) && LiveAre(d, live.files[UpstreamCatalog], live.files[EffectiveCatalog])
      && (RecordMatches(d, t) <==> Recordable(k, live, written) || RecordMatches(live, s))
      && (CatalogsRecorded(d, t) <==>
            || Recordable(k, live, written)
            || (RecordMatches(live, s)
                && (n >= 1 || live.files[CatalogArtifact] == live.files[EffectiveCatalog])
                && (n >= 2 || live.files[UpstreamArtifact] == live.files[UpstreamCatalog])))
  {
  }

  // The failing input: an installation whose record is right, and a command that replaces its live
  // catalogs but whose record step does not complete.  Left like that, disk and record agree only if
  // the command put in place the very bytes it found.
  lemma UnrecordedImport(k: Package, before: Disk, s: Option<State>, upstream: Bytes, effective: Bytes, written: nat,
                         recordBytes: Bytes)
    requires CatalogsRecorded(before, s)
    requires !Recordable(k, ReplacedLive(before, upstream, effective), written)
    ensures var live := ReplacedLive(before, upstream, effective);
      var n := WritesOf(k, live, written);
      RecordMatches(RecordStep(live, n, recordBytes), StateStep(s, live, n)) <==> LiveAre(before, upstream, effective)
  {
    RecordedIff(k, ReplacedLive(before, upstream, effective), s, written, recordBytes);
  }

  // A reset is of a release of another version whose catalogs were recorded.
  predicate MayReset(k: Package, s: Option<State>) {
    s.Some? && s.value.catalog.Some? && s.value.version != k.version
  }

  // What an installation that reported success has on disk.
  predicate Installed(k: Package, d: Disk) {
    && ReleaseIdle(k, d) && RuntimeIdle(k, d) && LaunchersIdle(k, d) && ContractHolds(k, d) && PluginInstalled(d)
    && Secrets in d.files && d.secretsMode == PRIVATE && ManifestPackaged(k, d)
  }

  // The parts that come first are in place.
  predicate Prepared(k: Package, d: Disk) {
    ReleaseIdle(k, d) && RuntimeIdle(k, d) && Secrets in d.files && d.secretsMode == PRIVATE
  }

  // Spelled out: every payload file is in the release tree, the secrets are private, the runtime
  // configuration and each of the launchers are the expected ones, the catalogs satisfy the contract
  // under the packaged manifest, and both copies of the plugin are the same.
  lemma InstalledIff(k: Package, d: Disk)
    requires WholePackage(k)
    ensures Installed(k, d) <==>
      && d.release.Some?
      && (forall rel :: rel in k.payload ==> rel in d.release.value && d.release.value[rel] == k.payload[rel])
      && Secrets in d.files && d.secretsMode == 0x180
      && Has(d, Runtime, k.runtime)
      && (forall id :: id in k.launchers && Has(d, LauncherFile(id), k.launchers[id]))
      && Has(d, Compatibility, k.payload[COMPATIBILITY])
      && EffectiveCatalog in d.files && UpstreamCatalog in d.files && k.loads(d.files[UpstreamCatalog])
      && k.contractOk(d.files[EffectiveCatalog], d.files[Compatibility])
      && PluginArtifact in d.files && Has(d, PluginTarget, d.files[PluginArtifact])
  {
    forall id: LauncherId ensures id in LAUNCHERS {
      match id
      case LauncherBootstrap => assert LAUNCHERS[0] == id;
      case Launcher => assert LAUNCHERS[1] == id;
      case Manager => assert LAUNCHERS[2] == id;
      case LegacyLauncherBootstrap => assert LAUNCHERS[3] == id;
      case LegacyLauncher => assert LAUNCHERS[4] == id;
      case LegacyManager => assert LAUNCHERS[5] == id;
    }
  }

  // What a reset leaves.
  predicate ResetTo(k: Package, d: Disk)
    requires WholePackage(k)
  {
    && BothAre(d, EffectiveCatalog, CatalogArtifact, k.payload[DURABLE])
    && BothAre(d, UpstreamCatalog, UpstreamArtifact, k.payload[UPSTREAM])
    && Has(d, Compatibility, k.payload[COMPATIBILITY])
  }

  lemma PackagedIsReset(k: Package, d: Disk)
    requires WholePackage(k)
    ensures (forall p :: p in CONTRACT ==> IsPackaged(k, d, p)) <==> ResetTo(k, d)
  {
    assert CONTRACT[0] == EffectiveCatalog && CONTRACT[1] == CatalogArtifact && CONTRACT[2] == UpstreamCatalog;
    assert CONTRACT[3] == UpstreamArtifact && CONTRACT[4] == Compatibility;
    if forall p :: p in CONTRACT ==> IsPackaged(k, d, p) {
      assert IsPackaged(k, d, EffectiveCatalog) && IsPackaged(k, d, CatalogArtifact);
      assert IsPackaged(k, d, UpstreamCatalog) && IsPackaged(k, d, UpstreamArtifact) && IsPackaged(k, d, Compatibility);
    }
  }

  predicate ManifestPackaged(k: Package, d: Disk) {
    COMPATIBILITY in k.payload && Has(d, Compatibility, k.payload[COMPATIBILITY])
  }

  predicate SecretsValid(k: Package, d: Disk) {
    Secrets in d.files && k.secretsOk(d.files[Secrets])
  }

  // A record of what is there, written by this package.
  predicate RecordFits(k: Package, d: Disk, s: State) {
    && s.version == k.version && CatalogsRecorded(d, Some(s))
    && PluginTarget in d.files && PluginArtifact in d.files
    && s.plugin == Some(PluginState(Some(Sha256(d.files[PluginTarget])), Some(Sha256(d.files[PluginArtifact]))))
  }

  // After an install whose record fits, the same package has nothing left to change.
  lemma InstalledNeedsNothing(k: Package, d: Disk, s: State)
    requires Installed(k, d) && SecretsValid(k, d) && RecordFits(k, d, s)
    ensures NothingNeeded(k, d, s, false)
  {
    hide TreeMatches;
  }

  predicate PluginInstalled(d: Disk) {
    PluginArtifact in d.files && PluginTarget in d.files && d.files[PluginTarget] == d.files[PluginArtifact]
  }

  const LAUNCHERS := [LauncherBootstrap, Launcher, Manager, LegacyLauncherBootstrap, LegacyLauncher, LegacyManager]

  // ---------------------------------------------------------------- when nothing needs to change

  predicate ReleaseIdle(k: Package, d: Disk) {
    TreeMatches(d.release, k.payload)
  }

  predicate SecretsIdle(k: Package, d: Disk, rotate: bool) {
    !rotate && Secrets in d.files && k.secretsOk(d.files[Secrets]) && d.secretsMode == PRIVATE
  }

  predicate RuntimeIdle(k: Package, d: Disk) {
    Runtime in d.files && d.files[Runtime] == k.runtime
  }

  predicate CatalogIdle(k: Package, d: Disk, c: CatalogState) {
    && c.sha.Some? && c.artifactSha == c.sha && c.upstreamSha.Some? && c.compatibilitySha.Some?
    && Is(d, EffectiveCatalog, c.sha) && Is(d, CatalogArtifact, c.artifactSha)
    && Is(d, UpstreamCatalog, c.upstreamSha) && Is(d, UpstreamArtifact, c.upstreamSha)
    && COMPATIBILITY in k.payload && Compatibility in d.files && d.files[Compatibility] == k.payload[COMPATIBILITY]
    && Is(d, Compatibility, c.compatibilitySha)
    && k.contractOk(d.files[EffectiveCatalog], d.files[Compatibility])
  }

  predicate PluginIdle(d: Disk, s: PluginState) {
    Is(d, PluginTarget, s.sha) && Is(d, PluginArtifact, s.artifactSha)
  }

  predicate LaunchersIdle(k: Package, d: Disk) {
    forall id :: id in LAUNCHERS ==>
      id in k.launchers && LauncherFile(id) in d.files && d.files[LauncherFile(id)] == k.launchers[id]
  }

  // The negation of _lifecycle_sensitive_change_needed.
  predicate NothingNeeded(k: Package, d: Disk, s: State, rotate: bool) {
    && s.version == k.version
    && ReleaseIdle(k, d) && SecretsIdle(k, d, rotate) && RuntimeIdle(k, d)
    && s.catalog.Some? && CatalogIdle(k, d, s.catalog.value)
    && s.plugin.Some? && PluginIdle(d, s.plugin.value)
    && LaunchersIdle(k, d)
  }

  // ---------------------------------------------------------------- what a step did

  ghost predicate Undisturbed(a: Disk, b: Disk) {
    && a.release == b.release && a.irregular == b.irregular && a.secretsMode == b.secretsMode
    && forall p :: Sensitive(p) ==> (p in a.files <==> p in b.files) && (p in a.files ==> a.files[p] == b.files[p])
  }

  // Only the files of one part may differ.
  ghost predicate ChangesOnly(a: Disk, b: Disk, part: Part) {
    && a.release == b.release && a.irregular == b.irregular
    && (part != SecretsPart ==> a.secretsMode == b.secretsMode)
    && forall p :: PartOf(p) != part ==> (p in a.files <==> p in b.files) && (p in a.files ==> a.files[p] == b.files[p])
  }

  lemma RepairedChangesOnly(d: Disk, target: Path, artifact: Path, bytes: Bytes)
    requires PartOf(target) == CatalogPart && PartOf(artifact) == CatalogPart
    ensures ChangesOnly(d, Repaired(d, target, artifact, bytes), CatalogPart)
  {
  }

  // What an install puts away before it replaces it.
  predicate Managed(p: Path) {
    p !in {InstallState, CodexConfigFile}
  }

  // Every managed file still stands, with its bytes or with its bytes put away.
  ghost predicate AllKept(a: Disk, b: Disk, backups: set<Bytes>) {
    forall p :: Managed(p) && p in a.files ==>
      p in b.files && (b.files[p] == a.files[p] || a.files[p] in backups)
  }

  // What a first install may find there already and then refuses to replace.
  predicate Collides(p: Path) {
    p.Runtime? || p.LauncherFile? || PartOf(p) == CatalogPart || p == PluginTarget
  }

  // Nothing of the kind has been replaced.
  ghost predicate ForeignKept(a: Disk, b: Disk) {
    forall p :: Collides(p) && p in a.files ==> Has(b, p, a.files[p])
  }

  // What one step of an install does not lose: with `first` set, nothing of someone else's either.
  ghost predicate NothingLost(a: Disk, b: Disk, backups: set<Bytes>, more: set<Bytes>, first: bool) {
    backups <= more && AllKept(a, b, more) && (first ==> ForeignKept(a, b))
  }

  lemma NothingLostChain(
    a: Disk, b: Disk, c: Disk, few: set<Bytes>, more: set<Bytes>, most: set<Bytes>, first: bool)
    requires NothingLost(a, b, few, more, first) && NothingLost(b, c, more, most, first)
    ensures NothingLost(a, c, few, most, first)
  {
    AllKeptChain(a, b, c, more, most);
    hide AllKept;
    if first {
      forall p | Collides(p) && p in a.files ensures Has(c, p, a.files[p]) {
        assert Has(b, p, a.files[p]);
      }
    }
  }

  // Whatever copies are there hold these bytes already.
  predicate CopiesAre(d: Disk, target: Path, artifact: Path, bytes: Bytes) {
    (target in d.files ==> Has(d, target, bytes)) && (artifact in d.files ==> Has(d, artifact, bytes))
  }

  lemma CopiesStay(d: Disk, target: Path, artifact: Path, bytes: Bytes)
    requires target != artifact
    ensures CopiesAre(d, target, artifact, bytes) ==>
      (artifact in d.files ==> Has(d, artifact, bytes))
      && (target in WithFile(d, artifact, bytes).files ==> Has(WithFile(d, artifact, bytes), target, bytes))
  {
  }

  lemma SameFiles(a: Disk, b: Disk, backups: set<Bytes>, first: bool)
    requires a.files == b.files
    ensures NothingLost(a, b, backups, backups, first)
  {
  }

  lemma NothingHappened(d: Disk, backups: set<Bytes>, first: bool)
    ensures NothingLost(d, d, backups, backups, first)
  {
  }

  lemma IdlePairStays(a: Disk, b: Disk, owned: bool, target: Path, artifact: Path, source: Bytes, prior: Option<Digest>)
    requires Undisturbed(a, b) && Sensitive(target) && Sensitive(artifact)
    requires PairIdle(a, owned, target, artifact, source, prior)
    ensures PairIdle(b, owned, target, artifact, source, prior)
  {
  }

  lemma AllKeptChain(a: Disk, b: Disk, c: Disk, fewer: set<Bytes>, backups: set<Bytes>)
    requires AllKept(a, b, fewer) && AllKept(b, c, backups) && fewer <= backups
    ensures AllKept(a, c, backups)
  {
  }

  lemma ChangesOnlyChain(a: Disk, b: Disk, c: Disk, part: Part)
    requires ChangesOnly(a, b, part) && ChangesOnly(b, c, part)
    ensures ChangesOnly(a, c, part)
  {
  }

  // A step keeps what the other steps achieved.
  lemma OthersKept(k: Package, a: Disk, b: Disk, part: Part)
    requires ChangesOnly(a, b, part)
    ensures ReleaseIdle(k, a) == ReleaseIdle(k, b)
    ensures part != SecretsPart ==> (Secrets in a.files <==> Secrets in b.files) && a.secretsMode == b.secretsMode
    ensures part != RuntimePart ==> RuntimeIdle(k, a) == RuntimeIdle(k, b)
    ensures part != SecretsPart ==> SecretsValid(k, a) == SecretsValid(k, b)
    ensures part != SecretsPart ==> forall x :: Has(a, Secrets, x) <==> Has(b, Secrets, x)
    ensures part != CatalogPart ==> ContractHolds(k, a) == ContractHolds(k, b)
    ensures part != CatalogPart ==> ManifestPackaged(k, a) == ManifestPackaged(k, b)
    ensures part != PluginPart ==> PluginInstalled(a) == PluginInstalled(b)
    ensures part != LauncherPart ==> LaunchersIdle(k, a) == LaunchersIdle(k, b)
  {
    hide TreeMatches;
  }

  // What a repair of the catalogs leaves alone.
  predicate SeedIdle(k: Package, d: Disk, c: CatalogState)
    requires WholePackage(k)
  {
    && Compatibility in d.files && d.files[Compatibility] == k.payload[COMPATIBILITY]
    && PairIdle(d, true, UpstreamCatalog, UpstreamArtifact, k.payload[UPSTREAM], c.upstreamSha)
    && PairIdle(d, true, EffectiveCatalog, CatalogArtifact, k.payload[DURABLE], c.sha)
  }

  lemma IdleCatalogsStay(k: Package, d: Disk, c: CatalogState)
    requires WholePackage(k) && CatalogIdle(k, d, c)
    ensures SeedIdle(k, d, c)
  {
  }

  lemma IdleStart(k: Package, d: Disk, s: State, rotate: bool)
    requires WholePackage(k) && NothingNeeded(k, d, s, rotate)
    ensures s.catalog.Some? && SeedIdle(k, d, s.catalog.value)
    ensures ReleaseIdle(k, d) && SecretsIdle(k, d, rotate) && RuntimeIdle(k, d) && LaunchersIdle(k, d)
  {
    IdleCatalogsStay(k, d, s.catalog.value);
  }

  // ---------------------------------------------------------------- the fence

  datatype Event = Stop | Start | Write(path: Path) | WriteRelease

  // A successful stop with no start since.
  ghost predicate Fenced(log: seq<Event>) {
    log != [] && (log[|log| - 1].Stop? || (!log[|log| - 1].Start? && Fenced(log[..|log| - 1])))
  }

  predicate SensitiveEvent(e: Event) {
    e.WriteRelease? || (e.Write? && Sensitive(e.path))
  }

  // Every write a broker depends on falls between a successful stop and the next start.
  ghost predicate Clean(log: seq<Event>) {
    forall i :: 0 <= i < |log| && SensitiveEvent(log[i]) ==> Fenced(log[..i])
  }

  // Since then there have only been writes no broker depends on.
  ghost predicate Silent(log: seq<Event>, from: nat) {
    from <= |log| && forall i :: from <= i < |log| ==> log[i].Write? && !Sensitive(log[i].path)
  }

  ghost predicate StoppedSince(log: seq<Event>, j: nat) {
    j < |log| && log[j].Stop? && forall i :: j < i < |log| ==> !log[i].Start?
  }

  // Read back: before each such write there is a stop with no start in between.
  lemma {:induction false} FencedIff(log: seq<Event>)
    ensures Fenced(log) <==> exists j :: StoppedSince(log, j)
  {
    if log != [] {
      var n := |log| - 1;
      var front := log[..n];
      FencedIff(front);
      assert StoppedSince(log, n) <==> log[n].Stop?;
      if j: nat :| StoppedSince(front, j) && !log[n].Start? {
        assert StoppedSince(log, j);
      }
      if j: nat :| StoppedSince(log, j) && j < n {
        assert StoppedSince(front, j);
      }
    }
  }

  lemma Snoc(log: seq<Event>, e: Event)
    ensures Fenced(log + [e]) <==> e.Stop? || (!e.Start? && Fenced(log))
    ensures Clean(log) && (SensitiveEvent(e) ==> Fenced(log)) ==> Clean(log + [e])
  {
    assert (log + [e])[..|log|] == log;
    forall i | 0 <= i < |log| ensures (log + [e])[..i] == log[..i] {
    }
  }
}
