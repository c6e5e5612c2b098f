// The durable contract and its regeneration (studio_mcp_v2/catalog_review.py, 792-997).
module CatalogContract {
  import opened Basics
  import opened Json
  import opened Catalog

  // What the contract check finds outside the catalog: whether the handler source implements each
  // handler once, and whether the publication boundary accepts the tools with an explicit studio id.
  datatype Environment = Environment(implemented: bool, publishes: Canon -> bool)

  // ---------------------------------------------------------------- the contract

  predicate IsHex(s: string) {
    |s| == 64 && forall i :: 0 <= i < |s| ==> '0' <= s[i] <= '9' || 'a' <= s[i] <= 'f'
  }

  predicate ClosedSchema(schema: Json, arguments: set<string>) {
    && schema.Object?
    && Keys(schema.members) == {"type", "properties", "required", "additionalProperties"}
    && Get(schema, "type") == Some(Text("object"))
    && Get(schema, "properties").Some? && Get(schema, "properties").value.Object?
    && Keys(Get(schema, "properties").value.members) == arguments
    && Get(schema, "additionalProperties") == Some(Bool(false))
  }

  predicate Pinned(pins: map<string, Canon>, handler: string, contract: Json) {
    handler in pins && pins[handler] == Canonical(contract)
  }

  predicate HandlerContract(tool: Json, family: Family, m: Manifest) {
    && ClosedSchema(InputSchema(tool), family.arguments)
    && Pinned(m.schemaPins, family.handler, InputSchema(tool))
    && Pinned(m.outputPins, family.handler, OutputContract(tool))
  }

  function Handlers(): set<string> {
    set f | f in Families() :: f.handler
  }

  predicate HandlersContract(tools: seq<Json>, m: Manifest) {
    && ToolNames(tools) == Handlers()
    && forall f :: f in Families() ==> f.handler in ToolMap(tools) && HandlerContract(ToolMap(tools)[f.handler], f, m)
  }

  // No mapping exposes a raw upstream name as a handler.
  predicate NoAlias(m: Manifest) {
    forall name :: name in m.mappings && name in Handlers() ==> m.mappings[name].handler == name
  }

  predicate Provenance(upstream: Option<Json>) {
    && upstream.Some? && upstream.value.Object?
    && var version, source, compatibility :=
         Get(upstream.value, "version"), Get(upstream.value, "source_sha256"), Get(upstream.value, "compatibility");
    && version.Some? && version.value.Text? && version.value.text != ""
    && source.Some? && source.value.Text? && IsHex(source.value.text)
    && (compatibility == Some(Text("reviewed-local-subset-only"))
        || compatibility == Some(Text("reviewed-exact-handler-mapping")))
  }

  predicate DurableContract(payload: Json, m: Manifest, env: Environment) {
    && ValidCatalog(payload)
    && Get(payload, "format") == Some(Text("studio-mcp-v2-durable-catalog"))
    && Get(payload, "catalog_version") == Some(Text(m.durableVersion))
    && HandlersContract(Tools(payload), m)
    && env.implemented
    && env.publishes(CanonList(CanonItems(Tools(payload))))
    && NoAlias(m)
    && Provenance(Get(payload, "upstream"))
  }

  // One manifest admits one contract: any two catalogs that satisfy it have exactly the handlers, each
  // with canonically the same input and output contract, and the input closed over its arguments.
  lemma ContractPins(a: Json, b: Json, m: Manifest, e: Environment, f: Environment, handler: string)
    requires DurableContract(a, m, e) && DurableContract(b, m, f)
    ensures ToolNames(Tools(a)) == ToolNames(Tools(b)) == Handlers()
    ensures handler in Handlers() ==>
      && handler in ToolMap(Tools(a)) && handler in ToolMap(Tools(b))
      && var x, y := ToolMap(Tools(a))[handler], ToolMap(Tools(b))[handler];
      && Canonical(InputSchema(x)) == Canonical(InputSchema(y))
      && Canonical(OutputContract(x)) == Canonical(OutputContract(y))
      && exists family ::
           family in Families() && family.handler == handler && ClosedSchema(InputSchema(x), family.arguments)
  {
    hide Families, Canonical, ToolMap, ToolNames, ClosedSchema, ValidCatalog;
    if handler in Handlers() {
      var family :| family in Families() && family.handler == handler;
      assert HandlerContract(ToolMap(Tools(a))[handler], family, m);
      assert HandlerContract(ToolMap(Tools(b))[handler], family, m);
    }
  }

  // ---------------------------------------------------------------- canonical equality keeps it

  lemma SameName(a: Json, b: Json)
    requires Canonical(a) == Canonical(b)
    ensures Name(a) == Name(b)
  {
    SameGet(a, b, "name");
    if Get(a, "name").Some? {
      SameText(Get(a, "name").value, Get(b, "name").value);
    }
  }

  lemma SameExtension(a: Json, b: Json, key: string)
    requires Canonical(a) == Canonical(b)
    ensures NullOr(Get(a, key)) == NullOr(Get(b, key))
    ensures Get(a, key).Some? && Get(a, key).value.Text? ==> Get(b, key) == Get(a, key)
  {
    SameGet(a, b, key);
    if Get(a, key).Some? {
      SameText(Get(a, key).value, Get(b, key).value);
    }
  }

  lemma SameContracts(a: Json, b: Json)
    requires Canonical(a) == Canonical(b)
    ensures Canonical(InputSchema(a)) == Canonical(InputSchema(b))
    ensures Canonical(OutputContract(a)) == Canonical(OutputContract(b))
  {
    SameGet(a, b, "inputSchema");
    SameGet(a, b, "outputSchema");
  }

  lemma SameTool(a: Json, b: Json)
    requires Canonical(a) == Canonical(b) && ValidTool(a)
    ensures ValidTool(b)
  {
    SameText(a, b);
    SameExtension(a, b, "name");
    SameExtension(a, b, "x_studio_mcp_v2_family");
    SameExtension(a, b, "x_studio_mcp_v2_renamed_from");
    SameGet(a, b, "inputSchema");
    SameGet(a, b, "outputSchema");
    SameSchema(Get(a, "inputSchema").value, Get(b, "inputSchema").value);
    if Get(a, "outputSchema").Some? {
      SameSchema(Get(a, "outputSchema").value, Get(b, "outputSchema").value);
    }
    hide Canonical, ValidSchema, Get, ToolName;
  }

  lemma SameTools(a: seq<Json>, b: seq<Json>)
    requires CanonItems(a) == CanonItems(b)
    ensures |a| == |b| && forall i :: 0 <= i < |a| ==> Canonical(a[i]) == Canonical(b[i]) && Name(a[i]) == Name(b[i])
  {
    assert |a| == |CanonItems(a)| == |b|;
    forall i | 0 <= i < |a| ensures Canonical(a[i]) == Canonical(b[i]) && Name(a[i]) == Name(b[i]) {
      ItemsCanonical(a, i);
      ItemsCanonical(b, i);
      SameName(a[i], b[i]);
    }
  }

  lemma SameValidTools(a: seq<Json>, b: seq<Json>)
    requires CanonItems(a) == CanonItems(b) && ValidTools(a)
    ensures ValidTools(b)
  {
    SameTools(a, b);
    forall i | 0 <= i < |b| ensures ValidTool(b[i]) {
      SameTool(a[i], b[i]);
    }
    hide Canonical, CanonItems, ValidTool, Name;
  }

  lemma {:induction false} SameFind(a: seq<Json>, b: seq<Json>, name: string)
    requires |a| == |b| && forall i :: 0 <= i < |a| ==> Name(a[i]) == Name(b[i])
    ensures Find(a, name) == Find(b, name)
  {
    if a != [] {
      SameFind(a[..|a| - 1], b[..|b| - 1], name);
    }
  }

  lemma SameToolMap(a: seq<Json>, b: seq<Json>, name: string)
    requires CanonItems(a) == CanonItems(b)
    ensures name in ToolMap(a) <==> name in ToolMap(b)
    ensures name in ToolMap(a) ==> Canonical(ToolMap(a)[name]) == Canonical(ToolMap(b)[name])
  {
    SameTools(a, b);
    SameFind(a, b, name);
    ToolMapHas(a, name);
    ToolMapHas(b, name);
  }

  lemma SameToolNames(a: seq<Json>, b: seq<Json>)
    requires CanonItems(a) == CanonItems(b)
    ensures ToolNames(a) == ToolNames(b)
  {
    SameTools(a, b);
    hide Canonical, CanonItems, Name;
    forall name ensures name in ToolNames(a) <==> name in ToolNames(b) {
      if name in ToolNames(a) {
        var i :| 0 <= i < |a| && Name(a[i]) == name;
        assert b[i] in b;
      }
      if name in ToolNames(b) {
        var i :| 0 <= i < |b| && Name(b[i]) == name;
        assert a[i] in a;
      }
    }
  }

  lemma SameClosed(a: Json, b: Json, arguments: set<string>)
    requires Canonical(a) == Canonical(b) && ClosedSchema(a, arguments)
    ensures ClosedSchema(b, arguments)
  {
    SameText(a, b);
    SameExtension(a, b, "type");
    SameGet(a, b, "properties");
    SameText(Get(a, "properties").value, Get(b, "properties").value);
    SameGet(a, b, "additionalProperties");
    SameText(Get(a, "additionalProperties").value, Get(b, "additionalProperties").value);
    hide Canonical, Get, Keys;
  }

  lemma SameHandlers(a: seq<Json>, b: seq<Json>, m: Manifest)
    requires CanonItems(a) == CanonItems(b) && HandlersContract(a, m)
    ensures HandlersContract(b, m)
  {
    hide Families, Handlers, ToolMap, ToolNames, CanonItems, Canonical, ClosedSchema, InputSchema, OutputContract;
    SameToolNames(a, b);
    forall f | f in Families() ensures f.handler in ToolMap(b) && HandlerContract(ToolMap(b)[f.handler], f, m) {
      SameToolMap(a, b, f.handler);
      var x, y := ToolMap(a)[f.handler], ToolMap(b)[f.handler];
      assert HandlerContract(x, f, m);
      SameContracts(x, y);
      SameClosed(InputSchema(x), InputSchema(y), f.arguments);
    }
  }

  // Only the provenance and the record of the generation differ.
  ghost predicate OnlyProvenance(a: Json, b: Json) {
    && a.Object? && b.Object?
    && CanonMembers(b.members) - {"upstream", "compatibility_generation"}
       == CanonMembers(a.members) - {"upstream", "compatibility_generation"}
  }

  lemma OnlyProvenanceGet(a: Json, b: Json, key: string)
    requires OnlyProvenance(a, b) && key != "upstream" && key != "compatibility_generation"
    ensures Get(a, key).Some? <==> Get(b, key).Some?
    ensures Get(a, key).Some? ==> Canonical(Get(a, key).value) == Canonical(Get(b, key).value)
  {
    LookupCanonical(a.members, key);
    LookupCanonical(b.members, key);
    var rest := {"upstream", "compatibility_generation"};
    assert key in CanonMembers(a.members) <==> key in CanonMembers(a.members) - rest;
    assert key in CanonMembers(b.members) <==> key in CanonMembers(b.members) - rest;
  }

  lemma OnlyProvenanceText(a: Json, b: Json, key: string)
    requires OnlyProvenance(a, b) && key != "upstream" && key != "compatibility_generation"
    requires Get(a, key).Some? && Get(a, key).value.Text?
    ensures Get(b, key) == Get(a, key)
  {
    OnlyProvenanceGet(a, b, key);
    SameText(Get(a, key).value, Get(b, key).value);
  }

  // With sound provenance, nothing else a catalog could differ in matters to the contract.
  lemma ContractKept(a: Json, b: Json, m: Manifest, env: Environment)
    requires DurableContract(a, m, env) && OnlyProvenance(a, b) && Provenance(Get(b, "upstream"))
    ensures DurableContract(b, m, env)
    ensures CanonItems(Tools(b)) == CanonItems(Tools(a))
  {
    OnlyProvenanceText(a, b, "format");
    OnlyProvenanceText(a, b, "catalog_version");
    OnlyProvenanceGet(a, b, "tools");
    SameText(Get(a, "tools").value, Get(b, "tools").value);
    assert CanonItems(Get(b, "tools").value.items) == CanonItems(Tools(a));
    hide Canonical, Get, CanonItems, CanonMembers, HandlersContract, Provenance, NoAlias, ValidTools;
    SameValidTools(Tools(a), Get(b, "tools").value.items);
    SameHandlers(Tools(a), Tools(b), m);
  }
}
