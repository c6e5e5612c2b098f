// Regenerating the durable catalog from a review (studio_mcp_v2/catalog_review.py, 933-997).
module CatalogRegenerate {
  import opened Basics
  import opened Json
  import opened Names
  import opened Catalog
  import opened CatalogReview
  import opened CatalogContract

  // One line of the generation record.
  datatype Source = Source(handler: string, upstream: string, kind: Kind)

  function KindText(kind: Kind): string {
    match kind
    case Renamed => "renamed"
    case Removed => "removed"
    case New => "new"
    case SchemaChanged => "schema_changed"
    case OutputSchemaChanged => "output_schema_changed"
    case MetadataChanged => "metadata_changed"
    case Unchanged => "unchanged"
  }

  function SourceJson(s: Source): Json {
    Object([Member("upstream_name", Text(s.upstream)), Member("durable_handler", Text(s.handler)),
            Member("change_kind", Text(KindText(s.kind))), Member("schema_policy", Text("exact_handler_contract"))])
  }

  // A line of the record says which tool was compatible, with which handler, and how it had changed.
  lemma SourceReads(s: Source)
    ensures Get(SourceJson(s), "upstream_name") == Some(Text(s.upstream))
    ensures Get(SourceJson(s), "durable_handler") == Some(Text(s.handler))
    ensures Get(SourceJson(s), "change_kind") == Some(Text(KindText(s.kind)))
    ensures Get(SourceJson(s), "schema_policy") == Some(Text("exact_handler_contract"))
  {
    var ms := SourceJson(s).members;
    assert Lookup(ms, "schema_policy") == Some(ms[3].value);
    assert Lookup(ms, "change_kind") == Lookup(ms[..3], "change_kind") == Some(ms[2].value);
    assert Lookup(ms, "durable_handler") == Lookup(ms[..3], "durable_handler");
    assert Lookup(ms[..3], "durable_handler") == Lookup(ms[..3][..2], "durable_handler") == Some(ms[1].value);
    assert Lookup(ms, "upstream_name") == Lookup(ms[..3], "upstream_name");
    assert Lookup(ms[..3], "upstream_name") == Lookup(ms[..3][..2], "upstream_name");
    assert Lookup(ms[..3][..2], "upstream_name") == Lookup(ms[..3][..2][..1], "upstream_name") == Some(ms[0].value);
  }

  // No two kinds of change are written alike, so no two lines that say something different are.
  lemma SourcesDiffer(a: Source, b: Source)
    requires SourceJson(a) == SourceJson(b)
    ensures a == b
  {
    SourceReads(a);
    SourceReads(b);
    hide SourceJson, Get;
    assert KindText(a.kind) == KindText(b.kind);
  }

  predicate SourceBefore(a: Source, b: Source) {
    Before(a.handler, b.handler) || (a.handler == b.handler && Before(a.upstream, b.upstream))
  }

  ghost predicate InOrder(q: seq<Source>) {
    forall i, j :: 0 <= i < j < |q| ==> !SourceBefore(q[j], q[i])
  }

  lemma SourceTransitive(a: Source, b: Source, c: Source)
    requires !SourceBefore(b, a) && !SourceBefore(c, b)
    ensures !SourceBefore(c, a)
  {
    Trichotomy(a.handler, b.handler);
    Trichotomy(b.handler, c.handler);
    Trichotomy(a.handler, c.handler);
    Trichotomy(a.upstream, b.upstream);
    Trichotomy(b.upstream, c.upstream);
    Trichotomy(a.upstream, c.upstream);
    if Before(a.handler, b.handler) && Before(b.handler, c.handler) {
      Transitive(a.handler, b.handler, c.handler);
    }
    if Before(a.upstream, b.upstream) && Before(b.upstream, c.upstream) {
      Transitive(a.upstream, b.upstream, c.upstream);
    }
  }

  // By handler, then by upstream name.
  method SortSources(q: seq<Source>) returns (r: seq<Source>)
    ensures multiset(r) == multiset(q) && InOrder(r)
  {
    r := [];
    var i := 0;
    while i < |q|
      invariant i <= |q| && multiset(r) == multiset(q[..i]) && InOrder(r)
    {
      assert q[..i + 1] == q[..i] + [q[i]];
      r := InsertSource(r, q[i]);
      i := i + 1;
    }
    assert q[..i] == q;
  }

  method InsertSource(q: seq<Source>, s: Source) returns (r: seq<Source>)
    requires InOrder(q)
    ensures multiset(r) == multiset(q) + multiset{s} && InOrder(r)
  {
    hide SourceBefore, InOrder;
    var k := |q|;
    while k > 0 && SourceBefore(s, q[k - 1])
      invariant 0 <= k <= |q| && forall j :: k <= j < |q| ==> !SourceBefore(q[j], s)
    {
      k := k - 1;
      SourceAsymmetric(s, q[k]);
    }
    InsertInOrder(q, s, k);
    assert q == q[..k] + q[k..];
    r := q[..k] + [s] + q[k..];
  }

  lemma InsertInOrder(q: seq<Source>, s: Source, k: nat)
    requires InOrder(q) && k <= |q|
    requires forall j :: k <= j < |q| ==> !SourceBefore(q[j], s)
    requires k > 0 ==> !SourceBefore(s, q[k - 1])
    ensures InOrder(q[..k] + [s] + q[k..])
  {
    forall i | 0 <= i < k ensures !SourceBefore(s, q[i]) {
      if i < k - 1 {
        SourceTransitive(q[i], q[k - 1], s);
      }
    }
    hide SourceBefore;
    var r := q[..k] + [s] + q[k..];
    forall i, j | 0 <= i < j < |r| ensures !SourceBefore(r[j], r[i]) {
      assert r[i] == if i < k then q[i] else if i == k then s else q[i - 1];
      assert r[j] == if j < k then q[j] else if j == k then s else q[j - 1];
    }
  }

  lemma SourceAsymmetric(a: Source, b: Source)
    requires SourceBefore(a, b)
    ensures !SourceBefore(b, a)
  {
    Trichotomy(a.handler, b.handler);
    Trichotomy(a.upstream, b.upstream);
  }

  // ---------------------------------------------------------------- the parts

  function UpstreamVersion(candidate: Json, candidateSha: string): string
    requires |candidateSha| >= 12
  {
    match Get(candidate, "catalog_version")
    case Some(Text(version)) => if version != "" then version else "sha256-" + candidateSha[..12]
    case _ => "sha256-" + candidateSha[..12]
  }

  function UpstreamJson(version: string, candidateSha: string): Json {
    Object([Member("version", Text(version)), Member("source_sha256", Text(candidateSha)),
            Member("compatibility", Text("reviewed-exact-handler-mapping"))])
  }

  lemma UpstreamIsProvenance(version: string, candidateSha: string)
    requires version != "" && IsHex(candidateSha)
    ensures Provenance(Some(UpstreamJson(version, candidateSha)))
  {
    var u := UpstreamJson(version, candidateSha);
    var ms := u.members;
    assert ms[..2] == [ms[0], ms[1]] && ms[..2][..1] == [ms[0]];
    assert Get(u, "compatibility") == Some(ms[2].value);
    assert Get(u, "source_sha256") == Lookup(ms[..2], "source_sha256") == Some(ms[1].value);
    assert Get(u, "version") == Lookup(ms[..2], "version") == Lookup(ms[..2][..1], "version") == Some(ms[0].value);
  }

  lemma PutGet(j: Json, key: string, value: Json)
    requires j.Object?
    ensures Put(j, key, value).Object? && Get(Put(j, key, value), key) == Some(value)
  {
    AssignLookup(j.members, key, value, key);
  }

  lemma PutOther(j: Json, key: string, value: Json, other: string)
    requires j.Object? && key != other
    ensures Get(Put(j, key, value), other) == Get(j, other)
  {
    AssignLookup(j.members, key, value, other);
  }

  lemma {:induction false} AssignLookup(members: seq<Member>, key: string, value: Json, other: string)
    ensures Lookup(Assign(members, key, value), other) == if key == other then Some(value) else Lookup(members, other)
  {
    if members == [] {
      assert [Member(key, value)][..0] == [];
    } else {
      var n := |members| - 1;
      var front, last := members[..n], members[n];
      AssignLookup(front, key, value, other);
      assert members == front + [last];
      AssignOfSnoc(front, last, key, value);
      assert (front + [Member(key, value)])[..n] == front;
      assert (members + [Member(key, value)])[..n + 1] == members;
      assert (Assign(front, key, value) + [last])[..|Assign(front, key, value)|] == Assign(front, key, value);
    }
  }

  // The catalog with its tools replaced and the two records written.
  function Finished(durable: Json, tools: seq<Json>, upstream: Json, record: Json): Json
    requires durable.Object?
  {
    Put(Put(Put(durable, "tools", List(tools)), "upstream", upstream), "compatibility_generation", record)
  }

  lemma FinishedKeeps(durable: Json, tools: seq<Json>, upstream: Json, record: Json)
    requires ValidCatalog(durable) && CanonItems(tools) == CanonItems(Tools(durable))
    ensures OnlyProvenance(durable, Finished(durable, tools, upstream, record))
    ensures Get(Finished(durable, tools, upstream, record), "upstream") == Some(upstream)
    ensures Get(Finished(durable, tools, upstream, record), "compatibility_generation") == Some(record)
  {
    var a := Put(durable, "tools", List(tools));
    var b := Put(a, "upstream", upstream);
    assert Canonical(Get(durable, "tools").value) == Canonical(List(tools));
    hide Canonical, CanonMembers, CanonItems, Get, Put, Assign, Lookup, ValidCatalog, Tools;
    PutSame(durable, "tools", List(tools));
    PutIsObject(durable, "tools", List(tools));
    PutIsObject(a, "upstream", upstream);
    PutProvenance(a, "upstream", upstream);
    PutProvenance(b, "compatibility_generation", record);
    CanonObjects(durable, a);
    PutGet(a, "upstream", upstream);
    PutOther(b, "compatibility_generation", record, "upstream");
    PutGet(b, "compatibility_generation", record);
  }

  lemma PutIsObject(j: Json, key: string, value: Json)
    requires j.Object?
    ensures Put(j, key, value).Object?
  {
  }

  lemma CanonObjects(a: Json, b: Json)
    requires a.Object? && b.Object? && Canonical(a) == Canonical(b)
    ensures CanonMembers(a.members) == CanonMembers(b.members)
  {
  }

  // Writing either of the two records changes nothing else.
  lemma PutProvenance(j: Json, key: string, value: Json)
    requires j.Object? && (key == "upstream" || key == "compatibility_generation")
    ensures OnlyProvenance(j, Put(j, key, value))
  {
    PutCanonical(j, key, value);
    hide CanonMembers, Canonical, Assign;
    var m, x := CanonMembers(j.members), Canonical(value);
    assert m[key := x] - {"upstream", "compatibility_generation"} == m - {"upstream", "compatibility_generation"};
  }

  // ---------------------------------------------------------------- compatible changes

  lemma CompatibleChange(c: Comparison, name: string)
    requires ChangeOf(c, name).verdict.compatibility == CompatibleCandidate
    ensures name in c.after && ChangeOf(c, name).verdict == VerdictOf(c, name)
  {
    hide FamilyCompatibility, Canonical, Claim, Honoured;
  }

  // Every compatible change of a review still has its mapping, its source and its handler, and the
  // source has the handler's own contract.
  lemma CompatibleStands(baseline: Json, candidate: Json, durable: Json, m: Manifest, review: Review, i: nat)
    requires ValidCatalog(baseline) && ValidCatalog(candidate) && ValidCatalog(durable)
    requires Reviewed(ComparisonOf(baseline, candidate, Some(m), Some(durable)), review)
    requires i < |review.changes| && review.changes[i].verdict.compatibility == CompatibleCandidate
    ensures var change := review.changes[i];
      && change.name in m.mappings && change.verdict.handler == Some(m.mappings[change.name].handler)
      && Find(Tools(candidate), change.name).Some?
      && Find(Tools(durable), m.mappings[change.name].handler).Some?
      && Canonical(InputSchema(Tools(candidate)[Find(Tools(candidate), change.name).value]))
         == Canonical(InputSchema(Tools(durable)[Find(Tools(durable), m.mappings[change.name].handler).value]))
  {
    var c := ComparisonOf(baseline, candidate, Some(m), Some(durable));
    ChangeAt(c, review, i);
    var name := review.changes[i].name;
    hide Reviewed, Order, Canonical, FamilyCompatibility, Honoured;
    CompatibleChange(c, name);
    ToolMapHas(Tools(candidate), name);
    CompatibleIsExact(c.after[name], Some(m), c.durable);
    ToolMapHas(Tools(durable), m.mappings[name].handler);
  }

  // ---------------------------------------------------------------- the record of the generation

  predicate Compatible(change: Change) {
    change.verdict.compatibility == CompatibleCandidate
  }

  function PairsOf(q: seq<Source>): set<(string, string)> {
    set s | s in q :: (s.upstream, s.handler)
  }

  // What the changes put on record: each mapped pair once, as it was first met.
  function GenerationOf(changes: seq<Change>, m: Manifest): seq<Source> {
    if changes == [] then []
    else
      var before, change := GenerationOf(changes[..|changes| - 1], m), changes[|changes| - 1];
      if Compatible(change) && change.name in m.mappings
        && (change.name, m.mappings[change.name].handler) !in PairsOf(before)
      then before + [Source(m.mappings[change.name].handler, change.name, change.kind)]
      else before
  }

  ghost predicate RecordedFrom(s: Source, changes: seq<Change>, i: nat, m: Manifest) {
    && i < |changes| && Compatible(changes[i]) && changes[i].name in m.mappings
    && s == Source(m.mappings[changes[i].name].handler, changes[i].name, changes[i].kind)
  }

  // Nothing is on record that was not a compatible change, and no compatible change is left out.
  lemma {:induction false} RecordIsCompatible(changes: seq<Change>, m: Manifest, s: Source)
    requires s in GenerationOf(changes, m)
    ensures exists i :: RecordedFrom(s, changes, i, m)
  {
    var n := |changes| - 1;
    var front := changes[..n];
    if s in GenerationOf(front, m) {
      RecordIsCompatible(front, m, s);
      var i :| RecordedFrom(s, front, i, m);
      assert RecordedFrom(s, changes, i, m);
    } else {
      assert RecordedFrom(s, changes, n, m);
    }
  }

  lemma {:induction false} CompatibleIsRecorded(changes: seq<Change>, m: Manifest, i: nat)
    requires i < |changes| && Compatible(changes[i]) && changes[i].name in m.mappings
    ensures (changes[i].name, m.mappings[changes[i].name].handler) in PairsOf(GenerationOf(changes, m))
    ensures |PairsOf(GenerationOf(changes, m))| == |GenerationOf(changes, m)|
  {
    PairsAreDistinct(changes, m);
    var n := |changes| - 1;
    if i < n {
      CompatibleIsRecorded(changes[..n], m, i);
      PairsGrow(changes, m);
    } else {
      PairsGrow(changes, m);
    }
  }

  lemma PairsGrow(changes: seq<Change>, m: Manifest)
    requires changes != []
    ensures var n := |changes| - 1;
      && PairsOf(GenerationOf(changes[..n], m)) <= PairsOf(GenerationOf(changes, m))
      && (Compatible(changes[n]) && changes[n].name in m.mappings ==>
            (changes[n].name, m.mappings[changes[n].name].handler) in PairsOf(GenerationOf(changes, m)))
  {
    var n := |changes| - 1;
    var before, after := GenerationOf(changes[..n], m), GenerationOf(changes, m);
    if after != before {
      PairsOfSnoc(before, after[|after| - 1]);
    }
  }

  lemma PairsOfSnoc(q: seq<Source>, s: Source)
    ensures PairsOf(q + [s]) == PairsOf(q) + {(s.upstream, s.handler)}
  {
    assert s in q + [s];
    assert forall x :: x in q ==> x in q + [s];
  }

  lemma {:induction false} PairsAreDistinct(changes: seq<Change>, m: Manifest)
    ensures |PairsOf(GenerationOf(changes, m))| == |GenerationOf(changes, m)|
  {
    if changes != [] {
      var n := |changes| - 1;
      PairsAreDistinct(changes[..n], m);
      var before, after := GenerationOf(changes[..n], m), GenerationOf(changes, m);
      if after != before {
        PairsOfSnoc(before, after[|after| - 1]);
      }
    }
  }

  function SourcesJson(q: seq<Source>): seq<Json> {
    seq(|q|, i requires 0 <= i < |q| => SourceJson(q[i]))
  }

  // What a review of these catalogs guarantees each compatible change.
  ghost predicate Stands(candidate: Json, durable: Json, m: Manifest, changes: seq<Change>)
    requires ValidCatalog(candidate) && ValidCatalog(durable)
  {
    forall i :: 0 <= i < |changes| && Compatible(changes[i]) ==> StandsAt(candidate, durable, m, changes[i])
  }

  ghost predicate StandsAt(candidate: Json, durable: Json, m: Manifest, change: Change)
    requires ValidCatalog(candidate) && ValidCatalog(durable)
  {
    && change.name in m.mappings && change.verdict.handler == Some(m.mappings[change.name].handler)
    && var from, to := Find(Tools(candidate), change.name), Find(Tools(durable), m.mappings[change.name].handler);
    && from.Some? && to.Some?
    && Canonical(InputSchema(Tools(candidate)[from.value])) == Canonical(InputSchema(Tools(durable)[to.value]))
  }

  // ---------------------------------------------------------------- the regeneration

  // Copy one compatible input schema over its handler's.
  lemma CopySame(tools: seq<Json>, original: seq<Json>, k: nat, schema: Json)
    requires CanonItems(tools) == CanonItems(original) && ValidTools(original) && k < |original|
    requires Canonical(InputSchema(original[k])) == Canonical(schema)
    ensures k < |tools| && tools[k].Object?
    ensures CanonItems(tools[k := Put(tools[k], "inputSchema", schema)]) == CanonItems(original)
  {
    SameTools(tools, original);
    SameValidTools(original, tools);
    SameContracts(tools[k], original[k]);
    PutSame(tools[k], "inputSchema", schema);
    ReplaceItemSame(tools, k, Put(tools[k], "inputSchema", schema));
  }

  method CopySchemas(durable: Json, candidate: Json, changes: seq<Change>, m: Manifest)
    returns (ok: bool, tools: seq<Json>, sources: seq<Source>)
    requires ValidCatalog(durable) && ValidCatalog(candidate)
    ensures Stands(candidate, durable, m, changes) ==> ok && CanonItems(tools) == CanonItems(Tools(durable))
    ensures ok ==> sources == GenerationOf(changes, m)
  {
    hide ValidCatalog, Canonical, CanonItems, Find, Tools, Put, InputSchema;
    hide PairsOf, GenerationOf, Stands, StandsAt, CopyOver;
    ghost var good := Stands(candidate, durable, m, changes);
    ValidIsTools(durable);
    tools, sources := Tools(durable), [];
    var pairs: set<(string, string)> := {};
    var i := 0;
    NothingRecorded(changes, m);
    while i < |changes|
      invariant i <= |changes| && |tools| == |Tools(durable)|
      invariant AllObjects(tools)
      invariant good ==> CanonItems(tools) == CanonItems(Tools(durable))
      invariant sources == GenerationOf(changes[..i], m) && pairs == PairsOf(sources)
    {
      var change := changes[i];
      RecordStep(changes, m, i);
      if good && Compatible(change) {
        StandsHere(candidate, durable, m, changes, i);
      }
      if Compatible(change) {
        if change.name !in m.mappings || change.verdict.handler != Some(m.mappings[change.name].handler) {
          return false, tools, sources;
        }
        var handler := m.mappings[change.name].handler;
        var from, to := Find(Tools(candidate), change.name), Find(Tools(durable), handler);
        if from.None? || to.None? {
          return false, tools, sources;
        }
        if (change.name, handler) !in pairs {
          var schema := InputSchema(Tools(candidate)[from.value]);
          if good {
            CopyOverSame(candidate, durable, m, change, tools);
          }
          tools := CopyOver(tools, to.value, schema);
          PairsOfSnoc(sources, Source(handler, change.name, change.kind));
          sources := sources + [Source(handler, change.name, change.kind)];
          pairs := pairs + {(change.name, handler)};
        }
      }
      i := i + 1;
    }
    assert changes[..i] == changes;
    ok := true;
  }

  predicate AllObjects(tools: seq<Json>) {
    forall k :: 0 <= k < |tools| ==> tools[k].Object?
  }

  function CopyOver(tools: seq<Json>, k: nat, schema: Json): (r: seq<Json>)
    requires k < |tools| && AllObjects(tools)
    ensures |r| == |tools| && AllObjects(r)
  {
    tools[k := Put(tools[k], "inputSchema", schema)]
  }

  lemma StandsHere(candidate: Json, durable: Json, m: Manifest, changes: seq<Change>, i: nat)
    requires ValidCatalog(candidate) && ValidCatalog(durable)
    requires Stands(candidate, durable, m, changes) && i < |changes| && Compatible(changes[i])
    ensures StandsAt(candidate, durable, m, changes[i])
    ensures var change := changes[i];
      && change.name in m.mappings && change.verdict.handler == Some(m.mappings[change.name].handler)
      && Find(Tools(candidate), change.name).Some? && Find(Tools(durable), m.mappings[change.name].handler).Some?
  {
  }

  lemma CopyOverSame(candidate: Json, durable: Json, m: Manifest, change: Change, tools: seq<Json>)
    requires ValidCatalog(candidate) && ValidCatalog(durable) && StandsAt(candidate, durable, m, change)
    requires AllObjects(tools) && CanonItems(tools) == CanonItems(Tools(durable))
    ensures var from, to := Find(Tools(candidate), change.name), Find(Tools(durable), m.mappings[change.name].handler);
      && to.value < |tools|
      && CanonItems(CopyOver(tools, to.value, InputSchema(Tools(candidate)[from.value]))) == CanonItems(Tools(durable))
  {
    var from, to := Find(Tools(candidate), change.name), Find(Tools(durable), m.mappings[change.name].handler);
    SameTools(tools, Tools(durable));
    CopySame(tools, Tools(durable), to.value, InputSchema(Tools(candidate)[from.value]));
  }

  lemma RecordStep(changes: seq<Change>, m: Manifest, i: nat)
    requires i < |changes|
    ensures var change, before := changes[i], GenerationOf(changes[..i], m);
      GenerationOf(changes[..i + 1], m) ==
      if Compatible(change) && change.name in m.mappings
        && (change.name, m.mappings[change.name].handler) !in PairsOf(before)
      then before + [Source(m.mappings[change.name].handler, change.name, change.kind)]
      else before
  {
    assert changes[..i + 1][..i] == changes[..i];
  }

  lemma NothingRecorded(changes: seq<Change>, m: Manifest)
    ensures GenerationOf(changes[..0], m) == [] && PairsOf([]) == {}
  {
  }

  lemma ValidIsTools(payload: Json)
    requires ValidCatalog(payload)
    ensures ValidTools(Tools(payload)) && AllObjects(Tools(payload))
  {
  }

  // The record of a generation, by handler and then by upstream name.
  ghost predicate Recorded(generated: Json, changes: seq<Change>, m: Manifest) {
    exists q ::
      && multiset(q) == multiset(GenerationOf(changes, m)) && InOrder(q)
      && Get(generated, "compatibility_generation") == Some(List(SourcesJson(q)))
  }

  // Regenerating from a review of these very catalogs never fails, whatever the review found: the
  // tools stay canonically what they were, and only the provenance and the record change.
  method RegenerateDurableCatalog(durable: Json, candidate: Json, candidateSha: string, review: Review, m: Manifest,
                                  env: Environment, ghost baseline: Json)
    returns (r: Option<Json>)
    requires IsHex(candidateSha)
    ensures r.Some? ==> DurableContract(r.value, m, env) && Recorded(r.value, review.changes, m)
    ensures DurableContract(durable, m, env) && ReviewOf(baseline, candidate, durable, m, review) ==>
      && r.Some? && OnlyProvenance(durable, r.value)
      && CanonItems(Tools(r.value)) == CanonItems(Tools(durable))
      && Get(r.value, "upstream") == Some(UpstreamJson(UpstreamVersion(candidate, candidateSha), candidateSha))
  {
    if !ValidCatalog(durable) || !ValidCatalog(candidate) {
      return None;
    }
    hide Canonical, CanonItems, CanonMembers, Finished, OnlyProvenance, Reviewed, GenerationOf;
    if ReviewOf(baseline, candidate, durable, m, review) {
      ReviewStands(baseline, candidate, durable, m, review);
    }
    var ok, tools, sources := CopySchemas(durable, candidate, review.changes, m);
    if !ok {
      return None;
    }
    var record := SortSources(sources);
    var version := UpstreamVersion(candidate, candidateSha);
    var upstream := UpstreamJson(version, candidateSha);
    var result := Finished(durable, tools, upstream, List(SourcesJson(record)));
    FinishedRecord(durable, tools, upstream, List(SourcesJson(record)));
    if DurableContract(durable, m, env) && ReviewOf(baseline, candidate, durable, m, review) {
      FinishedKeeps(durable, tools, upstream, List(SourcesJson(record)));
      VersionIsSome(candidate, candidateSha);
      UpstreamIsProvenance(version, candidateSha);
      ContractKept(durable, result, m, env);
    }
    if !DurableContract(result, m, env) {
      return None;
    }
    r := Some(result);
  }

  ghost predicate ReviewOf(baseline: Json, candidate: Json, durable: Json, m: Manifest, review: Review) {
    && ValidCatalog(baseline) && ValidCatalog(candidate) && ValidCatalog(durable)
    && Reviewed(ComparisonOf(baseline, candidate, Some(m), Some(durable)), review)
  }

  lemma ReviewStands(baseline: Json, candidate: Json, durable: Json, m: Manifest, review: Review)
    requires ReviewOf(baseline, candidate, durable, m, review)
    ensures Stands(candidate, durable, m, review.changes)
  {
    hide Reviewed, ValidCatalog, Find, Canonical, InputSchema;
    forall i | 0 <= i < |review.changes| && Compatible(review.changes[i])
      ensures StandsAt(candidate, durable, m, review.changes[i])
    {
      CompatibleStands(baseline, candidate, durable, m, review, i);
    }
  }

  // The candidate's own version if it declares one, else the first twelve digits of its hash.
  lemma VersionIs(candidate: Json, candidateSha: string, version: string)
    requires |candidateSha| >= 12
    ensures Get(candidate, "catalog_version") == Some(Text(version)) && version != "" ==>
      UpstreamVersion(candidate, candidateSha) == version
    ensures (forall v :: Get(candidate, "catalog_version") == Some(Text(v)) ==> v == "") ==>
      "sha256-" <= UpstreamVersion(candidate, candidateSha)
      && UpstreamVersion(candidate, candidateSha)[7..] <= candidateSha
      && |UpstreamVersion(candidate, candidateSha)| == 19
  {
    hide Get;
  }

  lemma VersionIsSome(candidate: Json, candidateSha: string)
    requires IsHex(candidateSha)
    ensures UpstreamVersion(candidate, candidateSha) != ""
  {
  }

  lemma FinishedRecord(durable: Json, tools: seq<Json>, upstream: Json, record: Json)
    requires durable.Object?
    ensures Get(Finished(durable, tools, upstream, record), "compatibility_generation") == Some(record)
  {
    PutGet(Put(Put(durable, "tools", List(tools)), "upstream", upstream), "compatibility_generation", record);
  }
}
