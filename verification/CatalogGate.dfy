// When a review lets a catalog through (studio_mcp_v2/catalog_review.py, 602-633, 654-789).
module CatalogGate {
  import opened Basics
  import opened Json
  import opened Names
  import opened Catalog
  import opened CatalogReview

  // The tool is mapped to a handler the durable catalog has, uses only arguments its family allows,
  // and has exactly its handler's input and output contract.
  ghost predicate ExactContract(c: Comparison, tool: Json) {
    && c.manifest.Some? && Name(tool) in c.manifest.value.mappings
    && var mapping := c.manifest.value.mappings[Name(tool)];
    && FamilyNamed(Families(), mapping.family).Some? && mapping.handler in c.durable
    && ArgumentsAllowed(Properties(InputSchema(tool)), FamilyNamed(Families(), mapping.family).value.arguments)
    && Canonical(InputSchema(tool)) == Canonical(InputSchema(c.durable[mapping.handler]))
    && Canonical(OutputContract(tool)) == Canonical(OutputContract(c.durable[mapping.handler]))
  }

  // Every argument is allowed, and none chooses the Studio.
  predicate ArgumentsAllowed(properties: Json, allowed: set<string>) {
    properties.Object? ==> forall key :: key in Keys(properties.members) ==> key in allowed && key != "studio_id"
  }

  lemma CompatibleIff(c: Comparison, tool: Json)
    ensures var v := FamilyCompatibility(tool, c.manifest, c.durable).compatibility;
      && (v == CompatibleCandidate <==> ExactContract(c, tool))
      && (Blocking(v) <==> !ExactContract(c, tool))
  {
    hide Families, FamilyNamed, Canonical, Properties, Keys;
  }

  // The tool is in both catalogs with another canonical input or output contract.
  ghost predicate ContractChanged(c: Comparison, name: string) {
    && name in c.before && name in c.after
    && (Canonical(InputSchema(c.before[name])) != Canonical(InputSchema(c.after[name]))
        || Canonical(OutputContract(c.before[name])) != Canonical(OutputContract(c.after[name])))
  }

  // Every claimed prior tool is gone, and no two tools claim the same one.
  ghost predicate ClaimsSettled(c: Comparison) {
    && (forall n, prior :: Claims(c, n, prior) ==> prior in c.Dropped())
    && (forall n, m, prior :: Claims(c, n, prior) && Claims(c, m, prior) ==> n == m)
  }

  ghost predicate Passable(c: Comparison) {
    && (forall n :: n in c.Added() || ContractChanged(c, n) ==> n in c.after && ExactContract(c, c.after[n]))
    && ClaimsSettled(c)
  }

  ghost predicate BlocksAt(c: Comparison, name: string) {
    Blocking(ChangeOf(c, name).verdict.compatibility)
  }

  lemma HonouredIsSettled(c: Comparison, n: string)
    requires ClaimsSettled(c) && ClaimsSome(c, n)
    ensures Honoured(c, n)
  {
    var prior := Claim(c.after[n]).value;
    assert Claims(c, n, prior);
    forall m | Claims(c, m, prior) ensures !Before(m, n) {
      assert m == n;
      Trichotomy(n, n);
    }
  }

  lemma AllHonoured(c: Comparison)
    requires forall n :: ClaimsSome(c, n) ==> Honoured(c, n)
    ensures ClaimsSettled(c)
  {
    forall n, prior | Claims(c, n, prior) ensures prior in c.Dropped() {
      assert ClaimsSome(c, n) && Honoured(c, n);
    }
    forall n, m, prior | Claims(c, n, prior) && Claims(c, m, prior) ensures n == m {
      assert ClaimsSome(c, n) && Honoured(c, n) && ClaimsSome(c, m) && Honoured(c, m);
      OneHonouredPerPrior(c, n, m);
    }
  }

  // What one name does to the review.
  lemma BlocksIff(c: Comparison, name: string)
    requires name in c.before || name in c.after
    ensures BlocksAt(c, name) <==>
      if name in c.Added() && ClaimsSome(c, name) && !Honoured(c, name) then true
      else (name in c.Added() || ContractChanged(c, name)) && !ExactContract(c, c.after[name])
  {
    if name in c.after {
      CompatibleIff(c, c.after[name]);
    }
    hide ExactContract, FamilyCompatibility, Canonical, Honoured, Metadata, Claim;
  }

  // A review stays open exactly if every tool that is new, or whose input or output contract changed,
  // has exactly its handler's contracts, and every claimed rename is of a tool that is gone and that
  // no other tool claims.  Removals and changes of metadata never close it.
  lemma OpenIff(c: Comparison, r: Review)
    requires Reviewed(c, r)
    ensures !r.failClosed <==> Passable(c)
  {
    hide Order, ChangeOf, ExactContract, ContractChanged, ClaimsSettled, Honoured;
    EveryNameOnce(c);
    ClosedIff(c, r);
    if Passable(c) {
      forall n | n in Order(c) ensures !BlocksAt(c, n) {
        BlocksIff(c, n);
        if ClaimsSome(c, n) {
          HonouredIsSettled(c, n);
        }
      }
    }
    if !r.failClosed {
      OpenIsPassable(c);
    }
  }

  lemma ClosedIff(c: Comparison, r: Review)
    requires Reviewed(c, r)
    ensures r.failClosed <==> exists n :: n in Order(c) && BlocksAt(c, n)
  {
    hide Order, ChangeOf;
    var q := Order(c);
    if r.failClosed {
      var i :| 0 <= i < |r.changes| && Blocking(r.changes[i].verdict.compatibility);
      assert q[i] in q && BlocksAt(c, q[i]);
    }
    if n :| n in q && BlocksAt(c, n) {
      var i :| 0 <= i < |q| && q[i] == n;
      assert Blocking(r.changes[i].verdict.compatibility);
    }
  }

  lemma OpenIsPassable(c: Comparison)
    requires forall n :: n in Order(c) ==> !BlocksAt(c, n)
    requires forall x :: x in Order(c) <==> (x in c.before || x in c.after) && x !in Priors(c)
    ensures Passable(c)
  {
    hide Order, ExactContract, BlocksAt, ChangeOf, Honoured;
    PriorsAreDropped(c);
    forall n | n in c.after ensures n in Order(c) {
    }
    forall n | ClaimsSome(c, n) ensures Honoured(c, n) {
      BlocksIff(c, n);
    }
    AllHonoured(c);
    forall n | n in c.Added() || ContractChanged(c, n) ensures n in c.after && ExactContract(c, c.after[n]) {
      BlocksIff(c, n);
    }
  }

  // What a tool of both catalogs is reported as: the input contract is looked at first, then the
  // output contract, then everything else it says.
  lemma CommonKindIs(c: Comparison, name: string)
    requires name in c.Common() && c.before[name].Object? && c.after[name].Object?
    ensures var a, b := c.before[name], c.after[name];
      var kind := CommonChange(c, name).kind;
      var input := Canonical(InputSchema(a)) == Canonical(InputSchema(b));
      var output := Canonical(OutputContract(a)) == Canonical(OutputContract(b));
      var rest := forall key :: key !in {"inputSchema", "outputSchema"} ==> SameAt(Get(a, key), Get(b, key));
      && (kind == SchemaChanged <==> !input)
      && (kind == OutputSchemaChanged <==> input && !output)
      && (kind == MetadataChanged <==> input && output && !rest)
      && (kind == Unchanged <==> input && output && rest)
  {
    MetadataIff(c.before[name], c.after[name]);
    hide Canonical, Metadata, FamilyCompatibility;
  }

  lemma MetadataIff(a: Json, b: Json)
    requires a.Object? && b.Object?
    ensures Metadata(a) == Metadata(b) <==>
      forall key :: key !in {"inputSchema", "outputSchema"} ==> SameAt(Get(a, key), Get(b, key))
  {
    var m, n := Metadata(a), Metadata(b);
    forall key | key !in {"inputSchema", "outputSchema"}
      ensures SameAt(Get(a, key), Get(b, key)) <==> (key in m <==> key in n) && (key in m ==> m[key] == n[key])
    {
      LookupCanonical(a.members, key);
      LookupCanonical(b.members, key);
    }
    assert forall key :: key in m || key in n ==> key !in {"inputSchema", "outputSchema"};
    hide Canonical, CanonMembers, Lookup, SameAt, Metadata;
    if forall key :: key !in {"inputSchema", "outputSchema"} ==> SameAt(Get(a, key), Get(b, key)) {
      forall key ensures key in m <==> key in n {
        if key !in {"inputSchema", "outputSchema"} {
          assert SameAt(Get(a, key), Get(b, key));
        }
      }
      forall key | key in m ensures m[key] == n[key] {
        assert SameAt(Get(a, key), Get(b, key));
      }
      assert m == n;
    }
  }
}
