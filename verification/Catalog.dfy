// Tool catalogs and the compatibility manifest (studio_mcp_v2/catalog_review.py, 46-199, 218-332, 592-633).
module Catalog {
  import opened Basics
  import opened Json

  // ---------------------------------------------------------------- valid catalogs

  predicate IsLetter(c: char) {
    'a' <= c <= 'z' || 'A' <= c <= 'Z'
  }

  predicate IsNameChar(c: char) {
    IsLetter(c) || '0' <= c <= '9' || c in "_.-"
  }

  predicate ToolName(s: string) {
    1 <= |s| <= 128 && IsLetter(s[0]) && forall i :: 0 < i < |s| ==> IsNameChar(s[i])
  }

  function OrElse(j: Option<Json>, otherwise: Json): Json {
    if j.Some? then j.value else otherwise
  }

  function Properties(schema: Json): Json {
    OrElse(Get(schema, "properties"), Object([]))
  }

  function RequiredNames(schema: Json): Json {
    OrElse(Get(schema, "required"), List([]))
  }

  predicate ValidProperties(properties: Json) {
    && properties.Object?
    && |Keys(properties.members)| <= 128
    && forall key :: key in Keys(properties.members) ==>
      Get(properties, key).Some? && Get(properties, key).value.Object?
  }

  predicate ValidRequired(required: Json, properties: Json)
    requires properties.Object?
  {
    && required.List? && |required.items| <= 128
    && (forall i :: 0 <= i < |required.items| ==>
      required.items[i].Text? && required.items[i].text in Keys(properties.members))
    && (forall i, j :: 0 <= i < j < |required.items| ==> required.items[i] != required.items[j])
  }

  predicate ValidSchema(schema: Json) {
    && schema.Object?
    && Get(schema, "type") == Some(Text("object"))
    && ValidProperties(Properties(schema))
    && ValidRequired(RequiredNames(schema), Properties(schema))
  }

  // Absent and null are the same to the review extensions.
  predicate NullOr(j: Option<Json>) {
    j.None? || j.value.Null?
  }

  predicate ValidTool(tool: Json) {
    && tool.Object?
    && Get(tool, "name").Some? && Get(tool, "name").value.Text? && ToolName(Get(tool, "name").value.text)
    && Get(tool, "inputSchema").Some? && ValidSchema(Get(tool, "inputSchema").value)
    && (Get(tool, "outputSchema").Some? ==> ValidSchema(Get(tool, "outputSchema").value))
    && var family, prior := Get(tool, "x_studio_mcp_v2_family"), Get(tool, "x_studio_mcp_v2_renamed_from");
    && (NullOr(family) || family.value.Text?)
    && (NullOr(prior) || (prior.value.Text? && ToolName(prior.value.text)))
  }

  function Name(tool: Json): string {
    match Get(tool, "name")
    case Some(Text(name)) => name
    case _ => ""
  }

  predicate ValidTools(tools: seq<Json>) {
    && |tools| <= 512
    && (forall i :: 0 <= i < |tools| ==> ValidTool(tools[i]))
    && (forall i, j :: 0 <= i < j < |tools| ==> Name(tools[i]) != Name(tools[j]))
  }

  predicate ValidCatalog(payload: Json) {
    && payload.Object?
    && Get(payload, "tools").Some? && Get(payload, "tools").value.List?
    && ValidTools(Get(payload, "tools").value.items)
  }

  function Tools(payload: Json): seq<Json>
    requires ValidCatalog(payload)
  {
    Get(payload, "tools").value.items
  }

  // What every accepted catalog has: a list of at most 512 tools, no two of one name, each with a name
  // that begins with a letter and an object schema whose required names are properties, each once.
  lemma AcceptedCatalog(payload: Json, i: int, j: int)
    requires ValidCatalog(payload)
    ensures payload.Object? && Get(payload, "tools").Some? && Get(payload, "tools").value.List?
    ensures var tools := Get(payload, "tools").value.items;
      && |tools| <= 512
      && (0 <= i < j < |tools| ==> Name(tools[i]) != Name(tools[j]))
      && (0 <= i < |tools| ==>
            && 1 <= |Name(tools[i])| <= 128 && IsLetter(Name(tools[i])[0])
            && Get(tools[i], "inputSchema").Some?
            && var schema := Get(tools[i], "inputSchema").value;
            && Get(schema, "type") == Some(Text("object"))
            && var properties, required := Properties(schema), RequiredNames(schema);
            && properties.Object? && |Keys(properties.members)| <= 128 && required.List? && |required.items| <= 128
            && (forall r :: r in required.items ==> r.Text? && r.text in Keys(properties.members))
            && (forall m, n :: 0 <= m < n < |required.items| ==> required.items[m] != required.items[n]))
  {
  }

  // ---------------------------------------------------------------- tools by name

  function Find(tools: seq<Json>, name: string): (at: Option<nat>)
    ensures at.Some? ==> at.value < |tools| && Name(tools[at.value]) == name
    ensures at.None? ==> forall i :: 0 <= i < |tools| ==> Name(tools[i]) != name
  {
    if tools == [] then None
    else if Name(tools[|tools| - 1]) == name then Some(|tools| - 1)
    else Find(tools[..|tools| - 1], name)
  }

  function ToolNames(tools: seq<Json>): set<string> {
    set t | t in tools :: Name(t)
  }

  function ToolMap(tools: seq<Json>): map<string, Json> {
    map name | name in ToolNames(tools) && Find(tools, name).Some? :: tools[Find(tools, name).value]
  }

  lemma ToolMapHas(tools: seq<Json>, name: string)
    ensures name in ToolMap(tools) <==> Find(tools, name).Some?
    ensures name in ToolMap(tools) ==> ToolMap(tools)[name] in tools && Name(ToolMap(tools)[name]) == name
  {
    if Find(tools, name).Some? {
      assert tools[Find(tools, name).value] in tools;
    }
  }

  function InputSchema(tool: Json): Json {
    OrElse(Get(tool, "inputSchema"), Null)
  }

  // An absent output schema counts as null.
  function OutputContract(tool: Json): Json {
    OrElse(Get(tool, "outputSchema"), Null)
  }

  // The prior name a tool claims.
  function Claim(tool: Json): Option<string> {
    match Get(tool, "x_studio_mcp_v2_renamed_from")
    case Some(Text(prior)) => Some(prior)
    case _ => None
  }

  // ---------------------------------------------------------------- families and the manifest

  datatype Family = Family(name: string, handler: string, arguments: set<string>)

  function Families(): seq<Family> {
    [
      Family("state_read", "studio_get_state", {}),
      Family("tree_read", "studio_list_tree",
             {"root_path", "max_depth", "max_results", "name_filter", "class_filter", "class_is_a", "scan_limit",
              "page_size", "continuation_cursor"}),
      Family("instance_inspection", "studio_inspect_instance",
             {"path", "child_limit", "descendant_max_depth", "descendant_scan_limit", "time_limit_ms"}),
      Family("script_name_search", "studio_search_scripts",
             {"keywords", "root_path", "max_depth", "scan_limit", "page_size", "time_limit_ms", "continuation_cursor"}),
      Family("script_content_search", "studio_grep_scripts",
             {"query", "root_path", "max_depth", "case_sensitive", "scan_limit", "source_byte_limit", "page_size",
              "time_limit_ms", "continuation_cursor"}),
      Family("script_read", "studio_read_script", {"path", "max_chars"}),
      Family("script_update", "studio_update_script", {"path", "expected_sha256", "new_source"}),
      Family("multi_edit", "studio_multi_edit", {"datamodel_type", "targets", "creates"}),
      Family("multi_edit_recovery", "studio_recover_multi_edit", {"transaction_id"}),
      Family("multi_edit_cleanup", "studio_cleanup_multi_edit",
             {"transaction_id", "apply_receipt_sha256", "cleanup_authorization_sha256"}),
      Family("attribute_update", "studio_set_attribute",
             {"path", "name", "expected_exists", "expected_value_type", "expected_value", "value_type", "value"}),
      Family("console_read", "studio_get_console", {"max_entries"}),
      Family("screenshot", "studio_capture_screenshot", {"max_width", "max_height"}),
      Family("scriptable_input", "studio_fire_input_binding", {"path", "state_type", "state"}),
      Family("play_lifecycle", "studio_start_stop_play", {"is_start"})
    ]
  }

  function FamilyNamed(families: seq<Family>, name: string): Option<Family> {
    if families == [] then None
    else if families[0].name == name then Some(families[0]) else FamilyNamed(families[1..], name)
  }

  datatype Mapping = Mapping(family: string, handler: string)

  // SHA-256 of a canonical text is injective, so a pin is kept as the canonical form it pins.
  datatype Manifest = Manifest(
    durableVersion: string,
    schemaPins: map<string, Canon>,
    outputPins: map<string, Canon>,
    mappings: map<string, Mapping>)

  // ---------------------------------------------------------------- compatibility

  datatype Compatibility =
    | UnknownFamily
    | IncompatibleSchema
    | IncompatibleOutputSchema
    | CompatibleCandidate
    | InvalidRenameClaim
    | SameTool
    | ReviewRequired

  datatype Verdict = Verdict(family: Option<string>, handler: Option<string>, compatibility: Compatibility)

  function FamilyCompatibility(tool: Json, manifest: Option<Manifest>, durable: map<string, Json>): Verdict {
    if manifest.None? || Name(tool) !in manifest.value.mappings then Verdict(None, None, UnknownFamily)
    else
      var mapping := manifest.value.mappings[Name(tool)];
      var family := FamilyNamed(Families(), mapping.family);
      if family.None? || mapping.handler !in durable then Verdict(Some(mapping.family), None, UnknownFamily)
      else
        var handler := durable[mapping.handler];
        var properties := Properties(InputSchema(tool));
        var names := if properties.Object? then Keys(properties.members) else {};
        Verdict(
          Some(mapping.family), Some(mapping.handler),
          if !(names <= family.value.arguments) || "studio_id" in names then IncompatibleSchema
          else if Canonical(InputSchema(tool)) != Canonical(InputSchema(handler)) then IncompatibleSchema
          else if Canonical(OutputContract(tool)) != Canonical(OutputContract(handler)) then IncompatibleOutputSchema
          else CompatibleCandidate)
  }

  // A compatible candidate has exactly its handler's input and output contract.
  lemma CompatibleIsExact(tool: Json, manifest: Option<Manifest>, durable: map<string, Json>)
    requires FamilyCompatibility(tool, manifest, durable).compatibility == CompatibleCandidate
    ensures manifest.Some? && Name(tool) in manifest.value.mappings
    ensures var handler := manifest.value.mappings[Name(tool)].handler;
      && FamilyCompatibility(tool, manifest, durable).handler == Some(handler) && handler in durable
      && Canonical(InputSchema(tool)) == Canonical(InputSchema(durable[handler]))
      && Canonical(OutputContract(tool)) == Canonical(OutputContract(durable[handler]))
  {
    hide Canonical, Families, FamilyNamed;
  }

  // ---------------------------------------------------------------- the canonical form decides validity

  lemma SameSchemaParts(a: Json, b: Json)
    requires Canonical(a) == Canonical(b)
    ensures Canonical(Properties(a)) == Canonical(Properties(b))
      && Canonical(RequiredNames(a)) == Canonical(RequiredNames(b))
  {
    SameGet(a, b, "properties");
    SameGet(a, b, "required");
  }

  lemma SameProperties(a: Json, b: Json)
    requires Canonical(a) == Canonical(b) && ValidProperties(a)
    ensures ValidProperties(b) && Keys(a.members) == Keys(b.members)
  {
    SameText(a, b);
    hide Canonical, Get;
    forall key | key in Keys(b.members) ensures Get(b, key).Some? && Get(b, key).value.Object? {
      SameGet(a, b, key);
      SameText(Get(a, key).value, Get(b, key).value);
    }
  }

  lemma SameRequired(a: Json, b: Json, properties: Json, others: Json)
    requires Canonical(a) == Canonical(b) && properties.Object? && others.Object?
    requires Keys(properties.members) == Keys(others.members) && ValidRequired(a, properties)
    ensures ValidRequired(b, others)
  {
    SameText(a, b);
    hide Canonical;
    forall i | 0 <= i < |b.items| ensures a.items[i] == b.items[i] {
      SameItem(a, b, i);
      SameText(a.items[i], b.items[i]);
    }
    assert a.items == b.items;
  }

  lemma SameSchema(a: Json, b: Json)
    requires Canonical(a) == Canonical(b) && ValidSchema(a)
    ensures ValidSchema(b)
  {
    SameText(a, b);
    SameGet(a, b, "type");
    SameText(Get(a, "type").value, Get(b, "type").value);
    SameSchemaParts(a, b);
    SameProperties(Properties(a), Properties(b));
    SameRequired(RequiredNames(a), RequiredNames(b), Properties(a), Properties(b));
  }
}
