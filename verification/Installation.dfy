// Installing, repairing, and importing catalogs without disturbing a running broker
// (release_tools/installer.py, 1792-1802, 2029-2067, 2256-2636, 2826-3046, 3591-3942).
module Installation {
  import opened Basics
  import opened InstallFiles

  datatype ImportOutcome =
    | Imported     // the new catalogs are live, recorded, and proved by the broker
    | Untouched    // refused before the broker was stopped
    | PutBack      // failed, and the catalogs and the record are the ones before the command
    | LeftRunning  // failed, but the new broker would not stop, so its catalogs were left to it
    | Broken       // failed, and putting the catalogs back failed as well

  class Installer {
    const package: Package
    var disk: Disk
    var state: Option<State>
    var backups: set<Bytes>      // every byte string kept under backups/
    ghost var log: seq<Event>    // since the command began

    // An installation that exists has a broker; a first install has none to fence.
    ghost const existing: bool

    ghost predicate Valid()
      reads this
    {
      WholePackage(package) && disk.irregular !! disk.files.Keys && (existing ==> Clean(log))
    }

    ghost predicate MayWrite(p: Path)
      reads this
    {
      existing && Sensitive(p) ==> Fenced(log)
    }

    constructor (package: Package, disk: Disk, state: Option<State>)
      requires WholePackage(package) && disk.irregular !! disk.files.Keys
      ensures Valid() && this.package == package && this.disk == disk && this.state == state
      ensures log == [] && backups == {} && existing == state.Some?
    {
      this.package := package;
      this.disk := disk;
      this.state := state;
      backups := {};
      log := [];
      existing := state.Some?;
    }

    // ---------------------------------------------------------------- the only ways to change anything

    // The broker may refuse.
    method SafeStop(accepted: bool) returns (ok: bool)
      requires Valid()
      modifies this`log
      ensures Valid() && ok == accepted
      ensures if ok then log == old(log) + [Event.Stop] && Fenced(log) else log == old(log)
    {
      if !accepted {
        return false;
      }
      Snoc(log, Event.Stop);
      log := log + [Event.Stop];
      ok := true;
    }

    // Whether or not the broker proves itself, it may be running from here on.
    method StartBroker(reliable: bool) returns (ok: bool)
      requires Valid()
      modifies this`log
      ensures Valid() && log == old(log) + [Event.Start] && (reliable ==> ok)
    {
      Snoc(log, Event.Start);
      log := log + [Event.Start];
      var fault := Faulty(reliable);
      ok := !fault;
    }

    // Atomic replacement of one regular or missing file.
    method Put(p: Path, bytes: Bytes)
      requires Valid() && MayWrite(p) && p !in disk.irregular
      modifies this`disk, this`log
      ensures Valid() && disk == old(disk).(files := old(disk).files[p := bytes]) && log == old(log) + [Event.Write(p)]
      ensures Fenced(log) == Fenced(old(log))
    {
      Snoc(log, Event.Write(p));
      disk := disk.(files := disk.files[p := bytes]);
      log := log + [Event.Write(p)];
    }

    method BackUp(bytes: Bytes)
      modifies this`backups
      ensures backups == old(backups) + {bytes}
    {
      backups := backups + {bytes};
    }

    // Put the bytes of a file away before replacing it.
    method Displace(p: Path, bytes: Bytes)
      requires Valid() && MayWrite(p) && p !in disk.irregular
      modifies this`disk, this`log, this`backups
      ensures Valid() && disk == old(disk).(files := old(disk).files[p := bytes]) && log == old(log) + [Event.Write(p)]
      ensures Fenced(log) == Fenced(old(log))
      ensures old(backups) <= backups && (p in old(disk).files ==> old(disk).files[p] in backups)
    {
      if p in disk.files {
        BackUp(disk.files[p]);
      }
      Put(p, bytes);
    }

    // ---------------------------------------------------------------- two copies of one catalog

    method RepairCopy(p: Path, bytes: Bytes, ghost first: bool) returns (ok: bool)
      requires Valid() && (Has(disk, p, bytes) || MayWrite(p))
      requires first && p in disk.files ==> Has(disk, p, bytes)
      modifies this`disk, this`log, this`backups
      ensures Valid() && Fenced(log) == Fenced(old(log)) && old(backups) <= backups
      ensures ok <==> p !in old(disk).irregular
      ensures disk == if ok then WithFile(old(disk), p, bytes) else old(disk)
      ensures ok ==> Retained(old(disk), p, bytes)
      ensures !ok || Has(old(disk), p, bytes) ==> log == old(log) && backups == old(backups)
      ensures NothingLost(old(disk), disk, old(backups), backups, first)
    {
      if p in disk.irregular {
        return false;
      }
      WithFileHas(disk, p, bytes, p, bytes);
      if p in disk.files && disk.files[p] == bytes {
        return true;
      }
      Displace(p, bytes);
      ok := true;
    }

    // The mirrored copy first, then the live one.
    method RepairPair(target: Path, artifact: Path, bytes: Bytes, ghost first: bool) returns (ok: bool)
      requires Valid() && target != artifact && (first ==> CopiesAre(disk, target, artifact, bytes))
      requires BothAre(disk, target, artifact, bytes) || (MayWrite(target) && MayWrite(artifact))
      modifies this`disk, this`log, this`backups
      ensures Valid() && Fenced(log) == Fenced(old(log)) && old(backups) <= backups
      ensures ok <==> target !in old(disk).irregular && artifact !in old(disk).irregular
      ensures ok ==> disk == Repaired(old(disk), target, artifact, bytes)
      ensures ok ==> Retained(old(disk), target, bytes) && Retained(old(disk), artifact, bytes)
      ensures BothAre(old(disk), target, artifact, bytes) ==>
        disk == old(disk) && log == old(log) && backups == old(backups)
      ensures NothingLost(old(disk), disk, old(backups), backups, first)
    {
      hide Clean, Fenced, WholePackage, WithFile, Has, BothAre, Repaired, NothingLost, CopiesAre, Sensitive;
      RepairedIs(disk, target, artifact, bytes);
      WithFileHas(disk, artifact, bytes, target, bytes);
      CopiesStay(disk, target, artifact, bytes);
      ok := RepairCopy(artifact, bytes, first);
      if ok {
        WithFileHas(disk, target, bytes, artifact, bytes);
        ok := RepairOther(old(disk), old(backups), target, artifact, bytes, first);
      }
    }

    // The second copy, after the first.
    method RepairOther(ghost before: Disk, ghost kept: set<Bytes>, target: Path, artifact: Path, bytes: Bytes,
                       ghost first: bool)
      returns (ok: bool)
      requires Valid() && (Has(disk, target, bytes) || MayWrite(target))
      requires first && target in disk.files ==> Has(disk, target, bytes)
      requires NothingLost(before, disk, kept, backups, first)
      modifies this`disk, this`log, this`backups
      ensures Valid() && Fenced(log) == Fenced(old(log)) && old(backups) <= backups
      ensures ok <==> target !in old(disk).irregular
      ensures disk == if ok then WithFile(old(disk), target, bytes) else old(disk)
      ensures ok ==> Retained(old(disk), target, bytes)
      ensures !ok || Has(old(disk), target, bytes) ==> log == old(log) && backups == old(backups)
      ensures NothingLost(before, disk, kept, backups, first)
    {
      hide Clean, Fenced, WholePackage, WithFile, Has, NothingLost;
      ghost var d1, b1 := disk, backups;
      ok := RepairCopy(target, bytes, first);
      NothingLostChain(before, d1, disk, kept, b1, backups, first);
    }

    // Bytes that are displaced are kept.
    predicate Retained(before: Disk, p: Path, bytes: Bytes)
      reads this
    {
      p in before.files && before.files[p] != bytes ==> before.files[p] in backups
    }

    // Afterwards both copies hold the desired bytes and everything displaced is kept; a pair that is
    // already repaired is not written.
    method RestoreOwnedPair(target: Path, artifact: Path, source: Bytes, prior: Option<Digest>)
      returns (ok: bool, digest: Digest)
      requires Valid() && target != artifact
      requires PairIdle(disk, state.Some?, target, artifact, source, prior) || (MayWrite(target) && MayWrite(artifact))
      modifies this`disk, this`log, this`backups
      ensures Valid() && Fenced(log) == Fenced(old(log)) && old(backups) <= backups
      ensures ok <==> !Unowned(old(disk), old(state).Some?, target, artifact, source)
                      && target !in old(disk).irregular && artifact !in old(disk).irregular
      ensures ok ==>
        var bytes := Desired(old(disk), old(state).Some?, target, artifact, source, prior);
        && digest == Sha256(bytes) && disk == Repaired(old(disk), target, artifact, bytes)
        && Retained(old(disk), target, bytes) && Retained(old(disk), artifact, bytes)
      ensures ok ==> OwnedOrPackaged(old(disk), disk, old(state).Some?, target, artifact, source, prior)
      ensures NothingLost(old(disk), disk, old(backups), backups, state.None?)
      ensures PairIdle(old(disk), old(state).Some?, target, artifact, source, prior) ==>
        disk == old(disk) && log == old(log) && backups == old(backups)
    {
      hide Clean, Fenced, WholePackage, Retained, OwnedOrPackaged;
      ghost var was := disk;
      NothingHappened(disk, backups, state.None?);
      hide NothingLost;
      var bytes := Desired(disk, state.Some?, target, artifact, source, prior);
      digest := Sha256(bytes);
      if state.None? && (target in disk.irregular || artifact in disk.irregular) {
        return false, digest;
      }
      if Unowned(disk, state.Some?, target, artifact, source) {
        return false, digest;
      }
      ok := RepairPair(target, artifact, bytes, state.None?);
      if ok {
        DesiredIsOwed(was, disk, state.Some?, target, artifact, source, prior);
      }
    }

    // ---------------------------------------------------------------- the steps of an install

    // In a calm command nothing a broker depends on has been written since `before`.
    ghost predicate Calm(before: Disk, from: nat)
      reads this
    {
      Undisturbed(before, disk) && Silent(log, from)
    }

    // A step may write because the broker is stopped, because there is none yet, or it must stay calm.
    ghost predicate Ready(before: Disk, from: nat, calm: bool)
      reads this
    {
      Valid() && if calm then Calm(before, from) else existing ==> Fenced(log)
    }

    // Write a file no broker depends on.
    method PutHarmless(ghost before: Disk, ghost from: nat, ghost calm: bool, p: Path, bytes: Bytes)
      requires Ready(before, from, calm) && !Sensitive(p) && p !in disk.irregular
      modifies this`disk, this`log, this`backups
      ensures Ready(before, from, calm) && disk == old(disk).(files := old(disk).files[p := bytes])
      ensures NothingLost(old(disk), disk, old(backups), backups, Collides(p) ==> p !in old(disk).files)
    {
      Displace(p, bytes);
    }

    method PutRelease(release: Option<Tree>)
      requires Valid() && (existing ==> Fenced(log))
      modifies this`disk, this`log
      ensures Valid() && Fenced(log) == Fenced(old(log)) && disk == old(disk).(release := release)
    {
      Snoc(log, WriteRelease);
      disk := disk.(release := release);
      log := log + [WriteRelease];
    }

    // A tree that matches stays; any other is moved aside and replaced whole.
    method InstallRelease(ghost before: Disk, ghost from: nat, ghost calm: bool, reliable: bool) returns (ok: bool)
      requires Ready(before, from, calm) && (calm ==> ReleaseIdle(package, before))
      modifies this`disk, this`log
      ensures Ready(before, from, calm) && (reliable ==> ok)
      ensures ok ==> ReleaseIdle(package, disk)
      ensures ok && !TreeMatches(old(disk).release, package.payload) ==> disk.release == Some(package.payload)
      ensures TreeMatches(old(disk).release, package.payload) ==> disk == old(disk)
      ensures disk.files == old(disk).files && disk.irregular == old(disk).irregular
    {
      if TreeMatches(disk.release, package.payload) {
        return true;
      }
      if disk.release.Some? {
        PutRelease(None);
      }
      var fault := Faulty(reliable);
      if fault {
        return false;
      }
      PutRelease(Some(package.payload));
      ok := true;
    }

    method ReadOrCreateSecrets(ghost before: Disk, ghost from: nat, ghost calm: bool, rotate: bool, generated: Bytes)
      returns (ok: bool, changed: bool)
      requires Ready(before, from, calm) && (calm ==> SecretsIdle(package, before, rotate))
      modifies this`disk, this`log, this`backups
      ensures Ready(before, from, calm)
      ensures ok ==> Secrets in disk.files && disk.secretsMode == PRIVATE
      ensures ok ==> if changed then disk.files[Secrets] == generated else package.secretsOk(disk.files[Secrets])
      ensures ok && !changed ==> disk == old(disk) && !rotate
      ensures ok <==>
        && Secrets !in old(disk).irregular
        && (Secrets in old(disk).files && !rotate ==> SecretsIdle(package, old(disk), rotate))
      ensures ChangesOnly(old(disk), disk, SecretsPart)
      ensures NothingLost(old(disk), disk, old(backups), backups, state.None?)
    {
      changed := false;
      if Secrets in disk.irregular {
        return false, false;
      }
      if Secrets in disk.files && disk.secretsMode != PRIVATE && !rotate {
        return false, false;
      }
      if Secrets in disk.files && !rotate {
        return package.secretsOk(disk.files[Secrets]), false;
      }
      if Secrets in disk.files {
        BackUp(disk.files[Secrets]);
      }
      PutSecrets(generated);
      return true, true;
    }

    // The secrets are always written with their own mode.
    method PutSecrets(bytes: Bytes)
      requires Valid() && MayWrite(Secrets) && Secrets !in disk.irregular
      modifies this`disk, this`log
      ensures Valid() && log == old(log) + [Event.Write(Secrets)] && Fenced(log) == Fenced(old(log))
      ensures disk == old(disk).(files := old(disk).files[Secrets := bytes], secretsMode := PRIVATE)
    {
      Put(Secrets, bytes);
      disk := disk.(secretsMode := PRIVATE);
    }

    method WriteRuntime(ghost before: Disk, ghost from: nat, ghost calm: bool) returns (ok: bool)
      requires Ready(before, from, calm) && (calm ==> RuntimeIdle(package, before))
      modifies this`disk, this`log, this`backups
      ensures Ready(before, from, calm)
      ensures ok ==> RuntimeIdle(package, disk)
      ensures ok <==>
        && Runtime !in old(disk).irregular
        && (Runtime in old(disk).files && !RuntimeIdle(package, old(disk)) ==>
              state.Some? && state.value.runtimeSha.Some?)
      ensures ChangesOnly(old(disk), disk, RuntimePart)
      ensures NothingLost(old(disk), disk, old(backups), backups, state.None?)
    {
      if Runtime in disk.irregular {
        return false;
      }
      if Runtime in disk.files {
        if disk.files[Runtime] == package.runtime {
          return true;
        }
        if state.None? || state.value.runtimeSha.None? {
          return false;
        }
      }
      Displace(Runtime, package.runtime);
      ok := true;
    }

    method InstallPlugin(ghost before: Disk, ghost from: nat, ghost calm: bool, force: bool, rendered: Bytes)
      returns (ok: bool)
      requires Ready(before, from, calm)
      modifies this`disk, this`log, this`backups
      ensures Ready(before, from, calm)
      ensures ok ==> PluginInstalled(disk)
      ensures ok && force ==> disk.files[PluginArtifact] == rendered
      ensures (state.Some? && state.value.plugin.Some? && state.value.plugin.value.sha.Some?
               && PluginArtifact !in old(disk).irregular && PluginTarget !in old(disk).irregular) ==> ok
      ensures ChangesOnly(old(disk), disk, PluginPart)
      ensures NothingLost(old(disk), disk, old(backups), backups, state.None?)
    {
      var render := force || PluginArtifact !in disk.files;
      if !render && state.Some? && state.value.plugin.Some?
        && !Is(disk, PluginArtifact, state.value.plugin.value.artifactSha) {
        render := true;
      }
      if render {
        if PluginArtifact in disk.irregular {
          return false;
        }
        PutHarmless(before, from, calm, PluginArtifact, rendered);
      }
      if PluginTarget in disk.irregular {
        return false;
      }
      var bytes := disk.files[PluginArtifact];
      if PluginTarget in disk.files {
        if disk.files[PluginTarget] == bytes {
          return true;
        }
        if state.None? || state.value.plugin.None? || state.value.plugin.value.sha.None? {
          return false;
        }
      }
      PutHarmless(before, from, calm, PluginTarget, bytes);
      ok := true;
    }

    method InstallLauncher(ghost before: Disk, ghost from: nat, ghost calm: bool, id: LauncherId) returns (ok: bool)
      requires Ready(before, from, calm) && (calm ==> LaunchersIdle(package, before)) && id in LAUNCHERS
      modifies this`disk, this`log, this`backups
      ensures Ready(before, from, calm)
      ensures ok ==>
        && id in package.launchers
        && disk == old(disk).(files := old(disk).files[LauncherFile(id) := package.launchers[id]])
      ensures ok <==>
        && LauncherFile(id) !in old(disk).irregular
        && (LauncherFile(id) in old(disk).files ==>
              && state.Some? && state.value.launchers.Some? && id in state.value.launchers.value
              && (Has(old(disk), LauncherFile(id), package.launchers[id]) ==>
                    Sha256(package.launchers[id]) == state.value.launchers.value[id]))
      ensures ChangesOnly(old(disk), disk, LauncherPart)
      ensures NothingLost(old(disk), disk, old(backups), backups, state.None?)
    {
      var p := LauncherFile(id);
      if p in disk.irregular {
        return false;
      }
      if p in disk.files {
        if state.None? || state.value.launchers.None? || id !in state.value.launchers.value {
          return false;
        }
        if disk.files[p] == package.launchers[id] {
          assert disk.files[p := package.launchers[id]] == disk.files;
          return Sha256(disk.files[p]) == state.value.launchers.value[id];
        }
      }
      Displace(p, package.launchers[id]);
      ok := true;
    }

    method InstallLaunchers(ghost before: Disk, ghost from: nat, ghost calm: bool) returns (ok: bool)
      requires Ready(before, from, calm) && (calm ==> LaunchersIdle(package, before))
      modifies this`disk, this`log, this`backups
      ensures Ready(before, from, calm)
      ensures ok ==> LaunchersIdle(package, disk)
      ensures ChangesOnly(old(disk), disk, LauncherPart)
      ensures NothingLost(old(disk), disk, old(backups), backups, state.None?)
    {
      hide Calm, Valid, Clean, Fenced, Undisturbed, Silent, NothingLost;
      NothingHappened(disk, backups, state.None?);
      var i := 0;
      while i < |LAUNCHERS|
        invariant i <= |LAUNCHERS| && Ready(before, from, calm) && ChangesOnly(old(disk), disk, LauncherPart)
        invariant NothingLost(old(disk), disk, old(backups), backups, state.None?)
        invariant forall j :: 0 <= j < i ==>
          && LAUNCHERS[j] in package.launchers && LauncherFile(LAUNCHERS[j]) in disk.files
          && disk.files[LauncherFile(LAUNCHERS[j])] == package.launchers[LAUNCHERS[j]]
      {
        ghost var d, b := disk, backups;
        ok := InstallLauncher(before, from, calm, LAUNCHERS[i]);
        NothingLostChain(old(disk), d, disk, old(backups), b, backups, state.None?);
        if !ok {
          return;
        }
        i := i + 1;
      }
      ok := true;
    }

    // ---------------------------------------------------------------- the catalogs

    method RepairCompatibility(ghost before: Disk, ghost from: nat, ghost calm: bool) returns (ok: bool)
      requires Ready(before, from, calm)
      requires calm ==> Compatibility in before.files && before.files[Compatibility] == package.payload[COMPATIBILITY]
      modifies this`disk, this`log, this`backups
      ensures Ready(before, from, calm)
      ensures ok ==> disk == old(disk).(files := old(disk).files[Compatibility := package.payload[COMPATIBILITY]])
      ensures ok <==> Compatibility !in old(disk).irregular
                      && (state.None? && Compatibility in old(disk).files ==>
                            old(disk).files[Compatibility] == package.payload[COMPATIBILITY])
      ensures ok ==> ChangesOnly(old(disk), disk, CatalogPart)
      ensures NothingLost(old(disk), disk, old(backups), backups, state.None?)
    {
      var bytes := package.payload[COMPATIBILITY];
      if Compatibility in disk.irregular {
        return false;
      }
      if Compatibility in disk.files {
        if disk.files[Compatibility] == bytes {
          assert disk.files[Compatibility := bytes] == disk.files;
          return true;
        }
        if state.None? {
          return false;
        }
      }
      Displace(Compatibility, bytes);
      ok := true;
    }

    method RepairCatalogPair(ghost before: Disk, ghost from: nat, ghost calm: bool,
                             target: Path, artifact: Path, source: Bytes, prior: Option<Digest>) returns (ok: bool)
      requires Ready(before, from, calm) && target != artifact && Sensitive(target) && Sensitive(artifact)
      requires calm ==> PairIdle(before, state.Some?, target, artifact, source, prior)
      modifies this`disk, this`log, this`backups
      ensures Ready(before, from, calm)
      ensures ok ==>
        disk == Repaired(old(disk), target, artifact, Desired(old(disk), state.Some?, target, artifact, source, prior))
      ensures NothingLost(old(disk), disk, old(backups), backups, state.None?)
    {
      ghost var digest;
      hide Clean, Fenced, NothingLost, Desired, Repaired, Undisturbed, Silent, WholePackage, PairIdle, OwnedOrPackaged;
      if calm {
        IdlePairStays(before, disk, state.Some?, target, artifact, source, prior);
      }
      ok, digest := RestoreOwnedPair(target, artifact, source, prior);
    }

    // Within one version: the compatibility manifest, then the upstream pair, then the durable pair.
    method RepairCatalogs(ghost before: Disk, ghost from: nat, ghost calm: bool) returns (ok: bool)
      requires Ready(before, from, calm)
      requires calm ==> state.Some? && state.value.catalog.Some? && SeedIdle(package, before, state.value.catalog.value)
      modifies this`disk, this`log, this`backups
      ensures Ready(before, from, calm)
      ensures ok ==> RepairedCatalogs(package, old(disk), disk, state) && CatalogsOwed(package, old(disk), disk, state)
      ensures ok ==> ChangesOnly(old(disk), disk, CatalogPart)
      ensures NothingLost(old(disk), disk, old(backups), backups, state.None?)
    {
      hide Calm, Clean, Fenced, Undisturbed, Silent, Desired, Repaired, RepairedCatalogs, ChangesOnly, NothingLost;
      hide CatalogsOwed;
      RepairsCompose(package, disk, state);
      ghost var d0, b0 := disk, backups;
      ok := RepairCompatibility(before, from, calm);
      if !ok {
        return;
      }
      ghost var d1, b1 := disk, backups;
      ok := RepairCatalogPair(before, from, calm, UpstreamCatalog, UpstreamArtifact, package.payload[UPSTREAM],
                              UpstreamOwned(state));
      ghost var d2, b2 := disk, backups;
      NothingLostChain(d0, d1, d2, b0, b1, b2, state.None?);
      if !ok {
        return;
      }
      ok := RepairCatalogPair(before, from, calm, EffectiveCatalog, CatalogArtifact, package.payload[DURABLE],
                              DurableOwned(state));
      NothingLostChain(d0, d2, disk, b0, b2, backups, state.None?);
      RepairedChangesOnly(d1, UpstreamCatalog, UpstreamArtifact,
                          Desired(d1, state.Some?, UpstreamCatalog, UpstreamArtifact, package.payload[UPSTREAM],
                                  UpstreamOwned(state)));
      RepairedChangesOnly(d2, EffectiveCatalog, CatalogArtifact,
                          Desired(d2, state.Some?, EffectiveCatalog, CatalogArtifact, package.payload[DURABLE],
                                  DurableOwned(state)));
      ChangesOnlyChain(d0, d1, d2, CatalogPart);
      if ok {
        ChangesOnlyChain(d0, d2, disk, CatalogPart);
        RepairedIsOwed(package, d0, disk, state);
      }
    }

    // Across versions: check every contract file, keep every byte about to be displaced, then replace.
    method ResetCatalogs() returns (ok: bool)
      requires Valid() && (existing ==> Fenced(log))
      modifies this`disk, this`log, this`backups
      ensures Valid() && Fenced(log) == Fenced(old(log))
      ensures ok <==> MayReset(package, state) && forall p :: p in CONTRACT ==> p !in old(disk).irregular
      ensures ok ==> forall p :: p in CONTRACT ==>
        IsPackaged(package, disk, p) && Retained(old(disk), p, Packaged(package, p))
      ensures ok ==> ResetTo(package, disk)
      ensures !ok ==> disk == old(disk) && log == old(log)
      ensures ok ==> ChangesOnly(old(disk), disk, CatalogPart)
      ensures NothingLost(old(disk), disk, old(backups), backups, state.None?)
    {
      hide Clean, Fenced, Packaged, ResetTo;
      if state.None? || state.value.catalog.None? || state.value.version == package.version {
        return false;
      }
      var stale: seq<Path> := [];
      var i := 0;
      while i < |CONTRACT|
        invariant i <= |CONTRACT| && forall j :: 0 <= j < i ==> CONTRACT[j] !in disk.irregular
        invariant forall p :: p in stale ==> p in CONTRACT && p !in disk.irregular
        invariant forall j :: 0 <= j < i ==> CONTRACT[j] in stale || IsPackaged(package, disk, CONTRACT[j])
      {
        var p := CONTRACT[i];
        if p in disk.irregular {
          return false;
        }
        if !IsPackaged(package, disk, p) {
          stale := stale + [p];
        }
        i := i + 1;
      }
      BackUpAll(stale);
      ReplaceAll(stale);
      PackagedIsReset(package, disk);
      ok := true;
    }

    method BackUpAll(stale: seq<Path>)
      modifies this`backups
      ensures forall p :: p in stale && p in disk.files ==> disk.files[p] in backups
      ensures old(backups) <= backups
    {
      var i := 0;
      while i < |stale|
        invariant i <= |stale| && old(backups) <= backups
        invariant forall j :: 0 <= j < i && stale[j] in disk.files ==> disk.files[stale[j]] in backups
      {
        if stale[i] in disk.files {
          BackUp(disk.files[stale[i]]);
        }
        i := i + 1;
      }
    }

    method ReplaceAll(stale: seq<Path>)
      requires Valid() && (existing ==> Fenced(log))
      requires forall p :: p in stale ==> p !in disk.irregular && PartOf(p) == CatalogPart
      modifies this`disk, this`log
      ensures Valid() && Fenced(log) == Fenced(old(log)) && disk.irregular == old(disk).irregular
      ensures forall p :: p in stale || IsPackaged(package, old(disk), p) ==> IsPackaged(package, disk, p)
      ensures ChangesOnly(old(disk), disk, CatalogPart)
    {
      hide Clean, Fenced, Packaged;
      var i := 0;
      while i < |stale|
        invariant i <= |stale| && Valid() && Fenced(log) == Fenced(old(log)) && disk.irregular == old(disk).irregular
        invariant forall j :: 0 <= j < i ==> IsPackaged(package, disk, stale[j])
        invariant forall p :: IsPackaged(package, old(disk), p) ==> IsPackaged(package, disk, p)
        invariant ChangesOnly(old(disk), disk, CatalogPart)
      {
        assert stale[i] in stale;
        Put(stale[i], Packaged(package, stale[i]));
        i := i + 1;
      }
    }

    // Seed, repair or reset the catalogs, and accept them only if they satisfy the contract.
    method SeedOrRepairCatalog(ghost before: Disk, ghost from: nat, ghost calm: bool, reset: bool) returns (ok: bool)
      requires Ready(before, from, calm)
      requires calm ==>
        !reset && state.Some? && state.value.catalog.Some? && SeedIdle(package, before, state.value.catalog.value)
      modifies this`disk, this`log, this`backups
      ensures Ready(before, from, calm)
      ensures ok ==>
        && (if reset then forall p :: p in CONTRACT ==> IsPackaged(package, disk, p)
            else RepairedCatalogs(package, old(disk), disk, state))
        && ContractHolds(package, disk) && ManifestPackaged(package, disk)
      ensures ok ==> ChangesOnly(old(disk), disk, CatalogPart)
      ensures NothingLost(old(disk), disk, old(backups), backups, state.None?)
    {
      if !package.contractOk(package.payload[DURABLE], package.payload[COMPATIBILITY])
        || !package.loads(package.payload[UPSTREAM]) {
        return false;
      }
      hide Calm, Clean, Fenced, Undisturbed, Silent, Desired, Packaged;
      if reset {
        ok := ResetCatalogs();
        if ok {
          PackagedManifest(package, disk);
        }
      } else {
        ok := RepairCatalogs(before, from, calm);
      }
      if ok {
        ok := ContractHolds(package, disk);
      }
    }

    // ---------------------------------------------------------------- install and repair

    method LifecycleSensitiveChangeNeeded(s: State, rotate: bool) returns (needed: bool)
      requires Valid()
      ensures needed <==> !NothingNeeded(package, disk, s, rotate)
    {
      if rotate || s.version != package.version {
        return true;
      }
      if !TreeMatches(disk.release, package.payload) {
        return true;
      }
      if Secrets !in disk.files || !package.secretsOk(disk.files[Secrets]) || disk.secretsMode != PRIVATE {
        return true;
      }
      if Runtime !in disk.files || disk.files[Runtime] != package.runtime {
        return true;
      }
      if s.catalog.None? || !CatalogIdle(package, disk, s.catalog.value) {
        return true;
      }
      if s.plugin.None? || !PluginIdle(disk, s.plugin.value) {
        return true;
      }
      var i := 0;
      while i < |LAUNCHERS|
        invariant i <= |LAUNCHERS|
        invariant forall j :: 0 <= j < i ==>
          && LAUNCHERS[j] in package.launchers && LauncherFile(LAUNCHERS[j]) in disk.files
          && disk.files[LauncherFile(LAUNCHERS[j])] == package.launchers[LAUNCHERS[j]]
      {
        var id := LAUNCHERS[i];
        assert id in LAUNCHERS;
        if LauncherFile(id) !in disk.files || disk.files[LauncherFile(id)] != package.launchers[id] {
          return true;
        }
        i := i + 1;
      }
      needed := false;
    }

    // One install or repair.  When nothing a broker depends on needs to change, the broker is not
    // stopped and nothing it depends on is written; otherwise every such write follows a stop.
    method Install(rotate: bool, authorized: bool, interrupted: bool, generated: Bytes, rendered: Bytes, config: Bytes,
                   record: State, recordBytes: Bytes, reliable: bool) returns (ok: bool)
      requires Valid() && log == [] && existing == state.Some?
      modifies this`disk, this`log, this`backups, this`state
      ensures Valid()
      ensures old(state).Some? && NothingNeeded(package, old(disk), old(state).value, rotate) ==>
        Undisturbed(old(disk), disk) && (forall e :: e in log ==> !SensitiveEvent(e) && e != Event.Stop)
      ensures old(state).Some? && old(state).value.version != package.version && !authorized ==>
        !ok && disk == old(disk) && log == []
      ensures interrupted ==> !ok && disk == old(disk) && log == []
      ensures ok ==> Installed(package, disk) && state == Some(record)
      ensures ok && rotate ==> Has(disk, Secrets, generated)
      ensures ok ==> Has(disk, CodexConfigFile, config) && Has(disk, InstallState, recordBytes)
      ensures ok && package.secretsOk(generated) && RecordFits(package, disk, record) ==>
        NothingNeeded(package, disk, record, false)
      ensures NothingLost(old(disk), disk, old(backups), backups, old(state).None?)
    {
      if interrupted {
        return false;
      }
      var reset := state.Some? && state.value.version != package.version;
      if reset && !authorized {
        return false;
      }
      var needed := false;
      if state.Some? {
        needed := LifecycleSensitiveChangeNeeded(state.value, rotate);
      }
      ghost var calm := state.Some? && NothingNeeded(package, disk, state.value, rotate);
      if needed {
        var fault := Faulty(reliable);
        ok := SafeStop(!fault);
        if !ok {
          return;
        }
      }
      ok := InstallEverything(disk, |log|, calm, rotate, reset, generated, rendered, config, recordBytes, reliable);
      if ok {
        state := Some(record);
        if package.secretsOk(generated) && RecordFits(package, disk, record) {
          InstalledNeedsNothing(package, disk, record);
        }
      }
    }

    method InstallEverything(ghost before: Disk, ghost from: nat, ghost calm: bool, rotate: bool, reset: bool,
                             generated: Bytes, rendered: Bytes, config: Bytes, recordBytes: Bytes,
                             reliable: bool)
      returns (ok: bool)
      requires Ready(before, from, calm)
      requires calm ==> !reset && state.Some? && NothingNeeded(package, before, state.value, rotate)
      modifies this`disk, this`log, this`backups
      ensures Ready(before, from, calm)
      ensures ok ==> Installed(package, disk) && (package.secretsOk(generated) ==> SecretsValid(package, disk))
      ensures ok && rotate ==> Has(disk, Secrets, generated)
      ensures ok ==> Has(disk, CodexConfigFile, config) && Has(disk, InstallState, recordBytes)
      ensures NothingLost(old(disk), disk, old(backups), backups, state.None?)
    {
      hide Calm, Clean, Fenced, Undisturbed, Silent, Installed, Prepared, NothingLost, CatalogIdle;
      if calm {
        IdleStart(package, before, state.value, rotate);
      }
      hide NothingNeeded, SeedIdle, LaunchersIdle;
      ghost var d0, b0 := disk, backups;
      var changed;
      ok, changed := PrepareFiles(before, from, calm, rotate, generated, reliable);
      if !ok {
        return;
      }
      ghost var d1, b1 := disk, backups;
      ok := PlaceFiles(before, from, calm, rotate || changed || state.None? || reset, reset, rendered);
      NothingLostChain(d0, d1, disk, b0, b1, backups, state.None?);
      if !ok {
        return;
      }
      ghost var d2, b2 := disk, backups;
      ok := WriteRecords(before, from, calm, config, recordBytes, reliable);
      NothingLostChain(d0, d2, disk, b0, b2, backups, state.None?);
    }

    // The release tree, the secrets and the runtime configuration.
    method PrepareFiles(ghost before: Disk, ghost from: nat, ghost calm: bool, rotate: bool, generated: Bytes,
                        reliable: bool)
      returns (ok: bool, changed: bool)
      requires Ready(before, from, calm)
      requires calm ==> state.Some? && NothingNeeded(package, before, state.value, rotate)
      modifies this`disk, this`log, this`backups
      ensures Ready(before, from, calm)
      ensures ok ==> Prepared(package, disk) && (package.secretsOk(generated) ==> SecretsValid(package, disk))
      ensures ok && rotate ==> Has(disk, Secrets, generated)
      ensures NothingLost(old(disk), disk, old(backups), backups, state.None?)
    {
      hide Calm, Clean, Fenced, Undisturbed, Silent, CatalogIdle, ReleaseIdle, RuntimeIdle, LaunchersIdle;
      hide ChangesOnly, NothingLost;
      if calm {
        IdleStart(package, before, state.value, rotate);
      }
      changed := false;
      ghost var d0, b0 := disk, backups;
      ok := InstallRelease(before, from, calm, reliable);
      SameFiles(d0, disk, b0, state.None?);
      if !ok {
        return;
      }
      ghost var d1, b1 := disk, backups;
      ok, changed := ReadOrCreateSecrets(before, from, calm, rotate, generated);
      NothingLostChain(d0, d1, disk, b0, b1, backups, state.None?);
      if !ok {
        return;
      }
      OthersKept(package, d1, disk, SecretsPart);
      ghost var d2, b2 := disk, backups;
      ok := WriteRuntime(before, from, calm);
      NothingLostChain(d0, d2, disk, b0, b2, backups, state.None?);
      if ok {
        OthersKept(package, d2, disk, RuntimePart);
      }
    }

    // The catalogs, the plugin and the launchers.
    method PlaceFiles(ghost before: Disk, ghost from: nat, ghost calm: bool, force: bool, reset: bool, rendered: Bytes)
      returns (ok: bool)
      requires Ready(before, from, calm) && Prepared(package, disk)
      requires calm ==>
        && !reset && state.Some? && state.value.catalog.Some?
        && SeedIdle(package, before, state.value.catalog.value) && LaunchersIdle(package, before)
      modifies this`disk, this`log, this`backups
      ensures Ready(before, from, calm)
      ensures ok ==> Installed(package, disk)
      ensures ok ==> SecretsValid(package, disk) == SecretsValid(package, old(disk))
      ensures ok ==> forall x :: Has(old(disk), Secrets, x) ==> Has(disk, Secrets, x)
      ensures NothingLost(old(disk), disk, old(backups), backups, state.None?)
    {
      hide Calm, Clean, Fenced, Undisturbed, Silent, CatalogIdle, ReleaseIdle, RuntimeIdle, LaunchersIdle;
      hide RepairedCatalogs, ContractHolds, PluginInstalled, ChangesOnly, ManifestPackaged, SecretsValid, NothingLost;
      ghost var d0, b0 := disk, backups;
      ok := SeedOrRepairCatalog(before, from, calm, reset);
      if !ok {
        return;
      }
      OthersKept(package, d0, disk, CatalogPart);
      ghost var d1, b1 := disk, backups;
      ok := InstallPlugin(before, from, calm, force, rendered);
      NothingLostChain(d0, d1, disk, b0, b1, backups, state.None?);
      if !ok {
        return;
      }
      OthersKept(package, d1, disk, PluginPart);
      ghost var d2, b2 := disk, backups;
      ok := InstallLaunchers(before, from, calm);
      NothingLostChain(d0, d2, disk, b0, b2, backups, state.None?);
      if ok {
        OthersKept(package, d2, disk, LauncherPart);
      }
    }

    // The Codex configuration, then the ownership record.
    method WriteRecords(ghost before: Disk, ghost from: nat, ghost calm: bool, config: Bytes, recordBytes: Bytes,
                        reliable: bool)
      returns (ok: bool)
      requires Ready(before, from, calm)
      modifies this`disk, this`log, this`backups
      ensures Ready(before, from, calm)
      ensures ok && Installed(package, old(disk)) ==> Installed(package, disk)
      ensures ok && SecretsValid(package, old(disk)) ==> SecretsValid(package, disk)
      ensures ok ==> forall x :: Has(old(disk), Secrets, x) ==> Has(disk, Secrets, x)
      ensures ok ==> Has(disk, CodexConfigFile, config) && Has(disk, InstallState, recordBytes)
      ensures NothingLost(old(disk), disk, old(backups), backups, state.None?)
    {
      ghost var d := disk;
      if CodexConfigFile in disk.irregular || InstallState in disk.irregular {
        return false;
      }
      PutHarmless(before, from, calm, CodexConfigFile, config);
      var fault := Faulty(reliable);
      if fault {
        return false;
      }
      PutHarmless(before, from, calm, InstallState, recordBytes);
      OthersKept(package, d, disk, OtherPart);
      ok := true;
    }

    // ---------------------------------------------------------------- catalog import and rollback

    // Mirror the live catalogs and record their digests.  A fault may come after any number of the
    // three writes.
    method UpdateCatalogState(recordBytes: Bytes, written: nat) returns (ok: bool)
      requires Stopped()
      modifies this`disk, this`log, this`state
      ensures Stopped() && NoStartSince(old(log))
      ensures ok <==> Recordable(package, old(disk), written)
      ensures disk == RecordStep(old(disk), WritesOf(package, old(disk), written), recordBytes)
      ensures state == StateStep(old(state), old(disk), WritesOf(package, old(disk), written))
    {
      hide Clean, Fenced;
      if !package.contractOk(disk.files[EffectiveCatalog], disk.files[Compatibility]) {
        return false;
      }
      if written == 0 {
        return false;
      }
      Put(CatalogArtifact, disk.files[EffectiveCatalog]);
      if written == 1 {
        return false;
      }
      Put(UpstreamArtifact, disk.files[UpstreamCatalog]);
      if written == 2 {
        return false;
      }
      var digest := Some(Sha256(disk.files[EffectiveCatalog]));
      Put(InstallState, recordBytes);
      state := Some(state.value.(catalog := Some(
        CatalogState(digest, digest, Some(Sha256(disk.files[UpstreamCatalog])),
                     Some(Sha256(disk.files[Compatibility]))))));
      ok := true;
    }

    // All catalogs and the ownership record are regular files.
    ghost predicate Owned()
      reads this
    {
      Valid() && AllCatalogs(disk) && state.Some? && InstallState !in disk.irregular
    }

    // And the broker is stopped.
    ghost predicate Stopped()
      reads this
    {
      Owned() && Fenced(log)
    }

    ghost predicate NoStartSince(earlier: seq<Event>)
      reads this
    {
      Event.Start !in earlier ==> Event.Start !in log
    }

    // Start only on the recorded bytes; a broker that does not prove itself may still be running.
    method StartAndVerifyCatalog(reliable: bool) returns (ok: bool)
      requires Owned()
      modifies this`log
      ensures Owned()
      ensures log == old(log) || (log == old(log) + [Event.Start] && state.Some? && state.value.catalog.Some?
                                  && state.value.catalog.value.sha == Some(Sha256(disk.files[EffectiveCatalog])))
      ensures ok ==> log != old(log)
      ensures reliable && RecordedSha(disk, state) ==> ok
    {
      if state.None? || state.value.catalog.None?
        || state.value.catalog.value.sha != Some(Sha256(disk.files[EffectiveCatalog])) {
        return false;
      }
      // the digest the broker is to prove may not be derivable
      var fault := Faulty(reliable);
      if fault {
        return false;
      }
      ok := StartBroker(reliable);
    }

    // Replace the two live catalogs; when a write fails, write both priors back.
    method ReplaceLive(upstream: Bytes, effective: Bytes, reliable: bool, undoable: bool)
      returns (ok: bool, clean: bool)
      requires Stopped()
      modifies this`disk, this`log
      ensures Stopped() && NoStartSince(old(log)) && (reliable ==> ok) && (undoable ==> clean)
      ensures ok ==> clean && disk == ReplacedLive(old(disk), upstream, effective)
      ensures !ok && clean ==> disk == old(disk)
      ensures HalfReplaced(old(disk), disk, upstream, effective)
    {
      hide Clean, Fenced;
      ghost var before := disk;
      var priorUpstream, priorEffective := disk.files[UpstreamCatalog], disk.files[EffectiveCatalog];
      Put(UpstreamCatalog, upstream);
      var fault := Faulty(reliable);
      if !fault {
        Put(EffectiveCatalog, effective);
        fault := Faulty(reliable);
      }
      if !fault {
        return true, true;
      }
      HalfIs(before, disk, upstream, effective);
      clean := WriteLiveBack(before, upstream, effective, priorUpstream, priorEffective, undoable);
      ok := false;
    }

    method WriteLiveBack(ghost before: Disk, ghost upstream: Bytes, ghost effective: Bytes, priorUpstream: Bytes,
                         priorEffective: Bytes, undoable: bool)
      returns (clean: bool)
      requires Stopped() && HalfReplaced(before, disk, upstream, effective)
      requires LiveAre(before, priorUpstream, priorEffective)
      modifies this`disk, this`log
      ensures Stopped() && NoStartSince(old(log)) && (undoable ==> clean)
      ensures clean ==> disk == before
      ensures HalfReplaced(before, disk, upstream, effective)
    {
      hide Clean, Fenced;
      var fault := Faulty(undoable);
      if fault {
        return false;
      }
      Put(UpstreamCatalog, priorUpstream);
      HalfIs(before, disk, upstream, effective);
      fault := Faulty(undoable);
      if fault {
        return false;
      }
      Put(EffectiveCatalog, priorEffective);
      assert disk.files == before.files;
      clean := true;
    }

    // Put every mirrored and recorded byte back under the stopped broker.
    method PutMirrorsBack(earlier: Option<State>, artifact: Bytes, upstreamArtifact: Bytes, recordBytes: Bytes,
                          undoable: bool)
      returns (ok: bool)
      requires Stopped() && earlier.Some?
      modifies this`disk, this`log, this`state
      ensures Stopped() && NoStartSince(old(log)) && (undoable ==> ok)
      ensures LiveAre(disk, old(disk).files[UpstreamCatalog], old(disk).files[EffectiveCatalog])
      ensures disk.files[Compatibility] == old(disk).files[Compatibility]
      ensures ok ==>
        disk.files[CatalogArtifact] == artifact && disk.files[UpstreamArtifact] == upstreamArtifact && state == earlier
    {
      hide Clean, Fenced;
      Put(CatalogArtifact, artifact);
      var fault := Faulty(undoable);
      if fault {
        return false;
      }
      Put(UpstreamArtifact, upstreamArtifact);
      fault := Faulty(undoable);
      if fault {
        return false;
      }
      Put(InstallState, recordBytes);
      state := earlier;
      ok := true;
    }

    // Import a reviewed catalog.  A failed start leaves the new catalogs alone unless the broker it
    // may have left behind is stopped first.  `written` and `again` say how many writes of the record
    // step succeed, and whether the broker would stop a second time.
    method CatalogImport(candidate: Bytes, regenerated: Bytes, ready: bool, recordBytes: Bytes, earlierBytes: Bytes,
                         written: nat, again: bool, reliable: bool, undoable: bool)
      returns (outcome: ImportOutcome)
      requires Owned() && log == []
      modifies this`disk, this`log, this`state
      ensures Owned() && (undoable ==> outcome != Broken)
      ensures outcome == Untouched ==> disk == old(disk) && state == old(state) && log == []
      ensures outcome == ImportOutcome.Imported ==>
        LiveAre(disk, candidate, regenerated) && CatalogsRecorded(disk, state) && Event.Start in log
      ensures outcome == PutBack ==>
        LiveAre(disk, old(disk).files[UpstreamCatalog], old(disk).files[EffectiveCatalog]) && state == old(state)
      ensures var live := ReplacedLive(old(disk), candidate, regenerated);
        var recorded := Recordable(package, live, written);
        && (outcome == LeftRunning ==>
              && !again && LeftAs(package, live, old(state), written, recordBytes, disk, state)
              && LiveAre(disk, candidate, regenerated)
              && (RecordMatches(disk, state) <==> recorded || RecordMatches(live, old(state)))
              && (Event.Start in log ==> recorded))
        && (reliable && ready ==>
              (outcome == ImportOutcome.Imported <==> recorded) && (outcome == LeftRunning <==> !recorded && !again))
    {
      hide Clean, Fenced;
      if !ready {
        return Untouched;
      }
      var fault := Faulty(reliable);
      var stopped := SafeStop(!fault);
      if !stopped {
        return Untouched;
      }
      var earlier, upstream, effective := state, disk.files[UpstreamCatalog], disk.files[EffectiveCatalog];
      var imported, clean := ReplaceLive(candidate, regenerated, reliable, undoable);
      if imported {
        RecordedIff(package, disk, state, written, recordBytes);
        var ok := UpdateCatalogState(recordBytes, written);
        if ok {
          ok := StartAndVerifyCatalog(reliable);
          if ok {
            return ImportOutcome.Imported;
          }
        }
        outcome := TakeBack(earlier, upstream, effective, effective, upstream, earlierBytes, again, undoable);
        if outcome != PutBack {
          return;
        }
      }
      var restarted := StartAndVerifyCatalog(reliable);
      outcome := if clean then PutBack else Broken;
    }

    // A broker that may run must stop before its catalogs are taken from it.
    method TakeBack(earlier: Option<State>, upstream: Bytes, effective: Bytes, artifact: Bytes, upstreamArtifact: Bytes,
                    earlierBytes: Bytes, again: bool, undoable: bool)
      returns (outcome: ImportOutcome)
      requires Owned() && earlier.Some?
      modifies this`disk, this`log, this`state
      ensures Owned() && (undoable ==> outcome != Broken)
      ensures outcome == PutBack || outcome == LeftRunning || outcome == Broken
      ensures outcome == LeftRunning <==> !again
      ensures outcome == LeftRunning ==> disk == old(disk) && state == old(state) && log == old(log)
      ensures outcome == PutBack ==>
        && LiveAre(disk, upstream, effective) && state == earlier
        && disk.files[CatalogArtifact] == artifact && disk.files[UpstreamArtifact] == upstreamArtifact
        && disk.files[Compatibility] == old(disk).files[Compatibility]
    {
      hide Clean, Fenced;
      var stopped := SafeStop(again);
      if !stopped {
        return LeftRunning;
      }
      var ok, clean := ReplaceLive(upstream, effective, undoable, undoable);
      if ok {
        ok := PutMirrorsBack(earlier, artifact, upstreamArtifact, earlierBytes, undoable);
      }
      outcome := if ok then PutBack else Broken;
    }

    // Roll an import back, given what the receipt's backups hold.  When the restored catalogs cannot
    // be proved, every catalog and the record return to what they were before the command.
    method CatalogRollback(accepted: bool, applies: bool, upstreamBackup: Bytes, effectiveBackup: Bytes,
                           recordBytes: Bytes, earlierBytes: Bytes, written: nat, again: bool,
                           reliable: bool, undoable: bool)
      returns (outcome: ImportOutcome)
      requires Owned() && log == []
      modifies this`disk, this`log, this`state
      ensures Owned() && (undoable ==> outcome != Broken)
      ensures outcome == Untouched ==> disk == old(disk) && state == old(state) && log == []
      ensures outcome == ImportOutcome.Imported ==>
        LiveAre(disk, upstreamBackup, effectiveBackup) && CatalogsRecorded(disk, state) && Event.Start in log
      ensures outcome == PutBack ==> SameCatalogFiles(old(disk), disk) && state == old(state)
      ensures var live := ReplacedLive(old(disk), upstreamBackup, effectiveBackup);
        var recorded := Recordable(package, live, written);
        && (outcome == LeftRunning ==>
              && !again
              && (|| (applies && LeftAs(package, live, old(state), written, recordBytes, disk, state)
                      && LiveAre(disk, upstreamBackup, effectiveBackup)
                      && (RecordMatches(disk, state) <==> recorded || RecordMatches(live, old(state)))
                      && (Event.Start in log ==> recorded))
                  || (!(applies && reliable) && Event.Start !in log && state == old(state)
                      && HalfReplaced(old(disk), disk, upstreamBackup, effectiveBackup)
                      && (undoable || !applies ==> disk == old(disk)))))
        && (reliable && accepted ==>
              && (outcome == ImportOutcome.Imported <==> applies && recorded)
              && (outcome == LeftRunning <==> !(applies && recorded) && !again))
    {
      hide Clean, Fenced;
      if !accepted {
        return Untouched;
      }
      var fault := Faulty(reliable);
      var stopped := SafeStop(!fault);
      if !stopped {
        return Untouched;
      }
      var before, earlier := disk.files, state;
      var ok, clean := false, true;
      if applies {
        ok, clean := ReplaceLive(upstreamBackup, effectiveBackup, reliable, undoable);
      }
      if ok {
        RecordedIff(package, disk, state, written, recordBytes);
        ok := UpdateCatalogState(recordBytes, written);
      }
      if ok {
        ok := StartAndVerifyCatalog(reliable);
        if ok {
          return ImportOutcome.Imported;
        }
      }
      outcome := TakeBack(earlier, before[UpstreamCatalog], before[EffectiveCatalog], before[CatalogArtifact],
                          before[UpstreamArtifact], earlierBytes, again, undoable);
      if outcome == PutBack {
        var restarted := StartAndVerifyCatalog(reliable);
      }
    }
  }
}
