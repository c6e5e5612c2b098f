// The review of an upstream catalog (studio_mcp_v2/catalog_review.py, 157-199, 636-789).
module CatalogReview {
  import opened Basics
  import opened Json
  import opened Names
  import opened Catalog

  datatype Kind = Renamed | Removed | New | SchemaChanged | OutputSchemaChanged | MetadataChanged | Unchanged

  datatype Change = Change(kind: Kind, name: string, prior: Option<string>, verdict: Verdict)

  datatype Review = Review(changes: seq<Change>, failClosed: bool)

  // Tools by name: the baseline, the candidate, and the durable catalog.
  datatype Comparison = Comparison(
    before: map<string, Json>, after: map<string, Json>, manifest: Option<Manifest>, durable: map<string, Json>)
  {
    function Added(): set<string> { after.Keys - before.Keys }
    function Dropped(): set<string> { before.Keys - after.Keys }
    function Common(): set<string> { before.Keys * after.Keys }
  }

  // ---------------------------------------------------------------- what each name deserves

  predicate Claims(c: Comparison, name: string, prior: string) {
    name in c.Added() && Claim(c.after[name]) == Some(prior)
  }

  predicate ClaimsSome(c: Comparison, name: string) {
    name in c.Added() && Claim(c.after[name]).Some?
  }

  // A rename is honoured when the prior tool is gone and no earlier name claims it.
  ghost predicate Honoured(c: Comparison, name: string) {
    && ClaimsSome(c, name)
    && Claim(c.after[name]).value in c.Dropped()
    && forall m :: Claims(c, m, Claim(c.after[name]).value) ==> !Before(m, name)
  }

  ghost function Priors(c: Comparison): set<string> {
    set n | n in c.Added() && Honoured(c, n) :: Claim(c.after[n]).value
  }

  const NO_VERDICT := Verdict(None, None, ReviewRequired)

  function VerdictOf(c: Comparison, name: string): Verdict
    requires name in c.after
  {
    FamilyCompatibility(c.after[name], c.manifest, c.durable)
  }

  function Metadata(tool: Json): map<string, Canon> {
    if tool.Object? then CanonMembers(tool.members) - {"inputSchema", "outputSchema"} else map[]
  }

  // What changed in a tool both catalogs have.
  function CommonChange(c: Comparison, name: string): Change
    requires name in c.Common()
  {
    var a, b := c.before[name], c.after[name];
    if Canonical(InputSchema(a)) != Canonical(InputSchema(b)) then Change(SchemaChanged, name, None, VerdictOf(c, name))
    else if Canonical(OutputContract(a)) != Canonical(OutputContract(b)) then
      Change(OutputSchemaChanged, name, None, VerdictOf(c, name))
    else if Metadata(a) != Metadata(b) then Change(MetadataChanged, name, None, NO_VERDICT)
    else Change(Unchanged, name, None, Verdict(None, None, SameTool))
  }

  ghost function ClaimChange(c: Comparison, name: string): Change
    requires ClaimsSome(c, name)
  {
    Change(Renamed, name, Claim(c.after[name]),
           if Honoured(c, name) then VerdictOf(c, name) else Verdict(None, None, InvalidRenameClaim))
  }

  ghost function ChangeOf(c: Comparison, name: string): Change {
    if name in c.Common() then CommonChange(c, name)
    else if name in c.Dropped() then Change(Removed, name, None, NO_VERDICT)
    else if ClaimsSome(c, name) then ClaimChange(c, name)
    else if name in c.after then Change(New, name, None, VerdictOf(c, name))
    else Change(Unchanged, name, None, NO_VERDICT)
  }

  ghost function ChangesOf(c: Comparison, names: seq<string>): (r: seq<Change>)
    ensures |r| == |names| && forall i :: 0 <= i < |r| ==> r[i] == ChangeOf(c, names[i])
  {
    seq(|names|, i requires 0 <= i < |names| => ChangeOf(c, names[i]))
  }

  function Claimants(c: Comparison, names: seq<string>): seq<string> {
    if names == [] then []
    else if ClaimsSome(c, names[|names| - 1]) then Claimants(c, names[..|names| - 1]) + [names[|names| - 1]]
    else Claimants(c, names[..|names| - 1])
  }

  function Unclaiming(c: Comparison): set<string> {
    set n | n in c.Added() && !ClaimsSome(c, n)
  }

  // The names in the order the review reports them: claims, removals, additions, then the rest.
  ghost function Order(c: Comparison): seq<string> {
    Claimants(c, Sorted(c.Added())) + Sorted(c.Dropped() - Priors(c)) + Sorted(Unclaiming(c)) + Sorted(c.Common())
  }

  predicate Blocking(v: Compatibility) {
    v.UnknownFamily? || v.IncompatibleSchema? || v.IncompatibleOutputSchema? || v.InvalidRenameClaim?
  }

  // ---------------------------------------------------------------- the first claimant wins

  // The smallest name claiming a removed tool is honoured.
  lemma FirstClaimantHonoured(c: Comparison, m: string, prior: string) returns (n: string)
    requires Claims(c, m, prior) && prior in c.Dropped()
    ensures Honoured(c, n) && Claims(c, n, prior) && !Before(m, n)
  {
    var all := set x | x in c.Added() && Claims(c, x, prior);
    assert m in all;
    LeastExists(all);
    n :| IsLeast(n, all);
  }

  lemma OneHonouredPerPrior(c: Comparison, a: string, b: string)
    requires Honoured(c, a) && Honoured(c, b) && Claim(c.after[a]) == Claim(c.after[b])
    ensures a == b
  {
    var prior := Claim(c.after[a]).value;
    assert Claims(c, a, prior) && Claims(c, b, prior);
    Trichotomy(a, b);
  }

  // The prior names taken by the first i names.
  ghost predicate Taken(c: Comparison, q: seq<string>, i: nat, taken: set<string>)
    requires i <= |q|
  {
    forall p :: p in taken <==> exists j :: 0 <= j < i && Honoured(c, q[j]) && Claims(c, q[j], p)
  }

  // While names are read in ascending order, a claim is refused exactly when its prior tool is
  // still there or has been taken by a claim already honoured.
  lemma HonouredIff(c: Comparison, q: seq<string>, i: nat, taken: set<string>)
    requires q == Sorted(c.Added()) && i < |q| && ClaimsSome(c, q[i])
    requires Taken(c, q, i, taken)
    ensures Honoured(c, q[i]) <==> Claim(c.after[q[i]]).value in c.Dropped() && Claim(c.after[q[i]]).value !in taken
  {
    SortedOrder(c.Added());
    var name := q[i];
    var prior := Claim(c.after[name]).value;
    assert Claims(c, name, prior);
    if prior in c.Dropped() {
      var n := FirstClaimantHonoured(c, name, prior);
      Trichotomy(n, name);
      assert n in q;
      var j :| 0 <= j < |q| && q[j] == n;
      SortedBefore(c.Added(), i, j);
      if prior in taken {
        var k :| 0 <= k < i && Honoured(c, q[k]) && Claims(c, q[k], prior);
        SortedBefore(c.Added(), k, i);
      }
    }
  }

  // ---------------------------------------------------------------- the review

  lemma ChangesOfSnoc(c: Comparison, names: seq<string>, name: string)
    ensures ChangesOf(c, names + [name]) == ChangesOf(c, names) + [ChangeOf(c, name)]
  {
    hide ChangeOf;
  }

  lemma ClaimantsSnoc(c: Comparison, q: seq<string>, i: nat)
    requires i < |q|
    ensures Claimants(c, q[..i + 1]) ==
      if ClaimsSome(c, q[i]) then Claimants(c, q[..i]) + [q[i]] else Claimants(c, q[..i])
  {
    assert q[..i + 1][..i] == q[..i];
  }

  lemma TakenSame(c: Comparison, q: seq<string>, i: nat, taken: set<string>)
    requires i < |q| && Taken(c, q, i, taken) && !Honoured(c, q[i])
    ensures Taken(c, q, i + 1, taken)
  {
  }

  lemma TakenMore(c: Comparison, q: seq<string>, i: nat, taken: set<string>, prior: string)
    requires i < |q| && Taken(c, q, i, taken) && Honoured(c, q[i]) && Claims(c, q[i], prior)
    ensures Taken(c, q, i + 1, taken + {prior})
  {
    forall p ensures p in taken + {prior} <==> exists j :: 0 <= j < i + 1 && Honoured(c, q[j]) && Claims(c, q[j], p) {
      if p in taken {
        var j :| 0 <= j < i && Honoured(c, q[j]) && Claims(c, q[j], p);
      }
    }
  }

  lemma TakenAll(c: Comparison, q: seq<string>, taken: set<string>)
    requires q == Sorted(c.Added()) && Taken(c, q, |q|, taken)
    ensures taken == Priors(c)
  {
    SortedOrder(c.Added());
    hide Sorted, Distinct, Ascending, Before, Taken, Priors;
    forall p ensures p in taken <==> p in Priors(c) {
      TakenIsPrior(c, q, taken, p);
      PriorIsTaken(c, q, taken, p);
    }
  }

  lemma TakenIsPrior(c: Comparison, q: seq<string>, taken: set<string>, p: string)
    requires Taken(c, q, |q|, taken)
    ensures p in taken ==> p in Priors(c)
  {
    hide Before, Claim;
    if p in taken {
      var j :| 0 <= j < |q| && Honoured(c, q[j]) && Claims(c, q[j], p);
    }
  }

  lemma PriorIsTaken(c: Comparison, q: seq<string>, taken: set<string>, p: string)
    requires Taken(c, q, |q|, taken) && forall x :: x in c.Added() ==> x in q
    ensures p in Priors(c) ==> p in taken
  {
    hide Before, Claim;
    if p in Priors(c) {
      var n :| n in c.Added() && Honoured(c, n) && Claim(c.after[n]).value == p;
      var j :| 0 <= j < |q| && q[j] == n;
      assert Claims(c, q[j], p);
    }
  }

  method ReviewClaim(c: Comparison, q: seq<string>, i: nat, taken: set<string>)
    returns (change: Change, more: set<string>)
    requires q == Sorted(c.Added()) && i < |q| && ClaimsSome(c, q[i]) && Taken(c, q, i, taken)
    ensures change == ChangeOf(c, q[i]) && Taken(c, q, i + 1, more)
  {
    var name := q[i];
    var prior := Claim(c.after[name]).value;
    HonouredIff(c, q, i, taken);
    if prior !in c.Dropped() || prior in taken {
      change := Change(Renamed, name, Some(prior), Verdict(None, None, InvalidRenameClaim));
      more := taken;
      TakenSame(c, q, i, taken);
    } else {
      change := Change(Renamed, name, Some(prior), VerdictOf(c, name));
      more := taken + {prior};
      TakenMore(c, q, i, taken, prior);
    }
  }

  method ReviewClaims(c: Comparison) returns (changes: seq<Change>, taken: set<string>)
    ensures changes == ChangesOf(c, Claimants(c, Sorted(c.Added())))
    ensures taken == Priors(c)
  {
    hide ChangesOf, ChangeOf, Claimants, Taken, Priors, Honoured, Sorted, Claim;
    var q := SortNames(c.Added());
    changes, taken := [], {};
    NoneYet(c, q);
    var i := 0;
    while i < |q|
      invariant i <= |q| && changes == ChangesOf(c, Claimants(c, q[..i])) && Taken(c, q, i, taken)
    {
      ClaimantsSnoc(c, q, i);
      SortedMember(c.Added(), i);
      if Claim(c.after[q[i]]).Some? {
        ghost var before := Claimants(c, q[..i]);
        var change, more := ReviewClaim(c, q, i, taken);
        ChangesOfSnoc(c, before, q[i]);
        changes := changes + [change];
        taken := more;
      } else {
        NotHonoured(c, q[i]);
        TakenSame(c, q, i, taken);
      }
      i := i + 1;
    }
    assert q[..i] == q;
    TakenAll(c, q, taken);
  }

  lemma SortedMember(s: set<string>, i: nat)
    requires i < |Sorted(s)|
    ensures Sorted(s)[i] in s
  {
    SortedOrder(s);
  }

  lemma NoneYet(c: Comparison, q: seq<string>)
    ensures ChangesOf(c, Claimants(c, q[..0])) == [] && Taken(c, q, 0, {})
  {
  }

  lemma NotHonoured(c: Comparison, name: string)
    requires !ClaimsSome(c, name)
    ensures !Honoured(c, name)
  {
  }

  method ReviewDropped(c: Comparison, names: set<string>) returns (changes: seq<Change>)
    requires names <= c.Dropped()
    ensures changes == ChangesOf(c, Sorted(names))
  {
    hide ChangesOf, Sorted;
    var q := SortNames(names);
    changes := [];
    NoChanges(c, q);
    var i := 0;
    while i < |q|
      invariant i <= |q| && changes == ChangesOf(c, q[..i])
    {
      SortedMember(names, i);
      ChangesOfSnoc(c, q[..i], q[i]);
      assert q[..i + 1] == q[..i] + [q[i]];
      changes := changes + [Change(Removed, q[i], None, NO_VERDICT)];
      i := i + 1;
    }
    assert q[..i] == q;
  }

  method ReviewNew(c: Comparison, names: set<string>) returns (changes: seq<Change>)
    requires names <= Unclaiming(c)
    ensures changes == ChangesOf(c, Sorted(names))
  {
    hide ChangesOf, Sorted, FamilyCompatibility;
    var q := SortNames(names);
    changes := [];
    NoChanges(c, q);
    var i := 0;
    while i < |q|
      invariant i <= |q| && changes == ChangesOf(c, q[..i])
    {
      SortedMember(names, i);
      ChangesOfSnoc(c, q[..i], q[i]);
      assert q[..i + 1] == q[..i] + [q[i]];
      changes := changes + [Change(New, q[i], None, VerdictOf(c, q[i]))];
      i := i + 1;
    }
    assert q[..i] == q;
  }

  method ReviewCommon(c: Comparison) returns (changes: seq<Change>)
    ensures changes == ChangesOf(c, Sorted(c.Common()))
  {
    hide ChangesOf, Sorted, FamilyCompatibility, Canonical;
    var q := SortNames(c.Common());
    changes := [];
    NoChanges(c, q);
    var i := 0;
    while i < |q|
      invariant i <= |q| && changes == ChangesOf(c, q[..i])
    {
      SortedMember(c.Common(), i);
      ChangesOfSnoc(c, q[..i], q[i]);
      assert q[..i + 1] == q[..i] + [q[i]];
      var a, b := c.before[q[i]], c.after[q[i]];
      var schemaChanged := Canonical(InputSchema(a)) != Canonical(InputSchema(b));
      var outputChanged := Canonical(OutputContract(a)) != Canonical(OutputContract(b));
      if schemaChanged {
        changes := changes + [Change(SchemaChanged, q[i], None, VerdictOf(c, q[i]))];
      } else if outputChanged {
        changes := changes + [Change(OutputSchemaChanged, q[i], None, VerdictOf(c, q[i]))];
      } else if Metadata(a) != Metadata(b) {
        changes := changes + [Change(MetadataChanged, q[i], None, NO_VERDICT)];
      } else {
        changes := changes + [Change(Unchanged, q[i], None, Verdict(None, None, SameTool))];
      }
      i := i + 1;
    }
    assert q[..i] == q;
  }

  lemma NoChanges(c: Comparison, q: seq<string>)
    ensures ChangesOf(c, q[..0]) == []
  {
  }

  lemma ChangesOfConcat(c: Comparison, a: seq<string>, b: seq<string>)
    ensures ChangesOf(c, a + b) == ChangesOf(c, a) + ChangesOf(c, b)
  {
    hide ChangeOf;
  }

  ghost predicate Reviewed(c: Comparison, r: Review) {
    && r.changes == ChangesOf(c, Order(c))
    && (r.failClosed <==> exists i :: 0 <= i < |r.changes| && Blocking(r.changes[i].verdict.compatibility))
  }

  method ReviewTools(c: Comparison) returns (r: Review)
    ensures Reviewed(c, r)
  {
    hide ChangesOf, Sorted, Claimants, Priors;
    var claims, taken := ReviewClaims(c);
    var dropped := ReviewDropped(c, c.Dropped() - taken);
    var added := ReviewNew(c, Unclaiming(c));
    var common := ReviewCommon(c);
    ChangesOfConcat(c, Claimants(c, Sorted(c.Added())), Sorted(c.Dropped() - taken));
    ChangesOfConcat(c, Claimants(c, Sorted(c.Added())) + Sorted(c.Dropped() - taken), Sorted(Unclaiming(c)));
    ChangesOfConcat(
      c, Claimants(c, Sorted(c.Added())) + Sorted(c.Dropped() - taken) + Sorted(Unclaiming(c)), Sorted(c.Common()));
    var changes := claims + dropped + added + common;
    var failClosed := exists i :: 0 <= i < |changes| && Blocking(changes[i].verdict.compatibility);
    r := Review(changes, failClosed);
  }

  function ComparisonOf(baseline: Json, candidate: Json, manifest: Option<Manifest>, durable: Option<Json>): Comparison
    requires ValidCatalog(baseline) && ValidCatalog(candidate) && (durable.Some? ==> ValidCatalog(durable.value))
  {
    Comparison(ToolMap(Tools(baseline)), ToolMap(Tools(candidate)), manifest,
               if durable.Some? then ToolMap(Tools(durable.value)) else map[])
  }

  // A malformed catalog is refused; anything else is reviewed.
  method ReviewCatalogs(baseline: Json, candidate: Json, manifest: Option<Manifest>, durable: Option<Json>)
    returns (r: Option<Review>)
    ensures r.Some? <==>
      && ValidCatalog(baseline) && ValidCatalog(candidate)
      && (durable.Some? ==> ValidCatalog(durable.value))
    ensures r.Some? ==> Reviewed(ComparisonOf(baseline, candidate, manifest, durable), r.value)
  {
    hide Reviewed, ValidCatalog;
    if !ValidCatalog(baseline) || !ValidCatalog(candidate) || (durable.Some? && !ValidCatalog(durable.value)) {
      return None;
    }
    var review := ReviewTools(ComparisonOf(baseline, candidate, manifest, durable));
    r := Some(review);
  }

  // ---------------------------------------------------------------- accounting

  lemma {:induction false} ClaimantsAre(c: Comparison, q: seq<string>)
    ensures forall x :: x in Claimants(c, q) <==> x in q && ClaimsSome(c, x)
    ensures Distinct(q) ==> Distinct(Claimants(c, q))
  {
    if q != [] {
      var n := |q| - 1;
      ClaimantsAre(c, q[..n]);
      assert q == q[..n] + [q[n]];
    }
  }

  lemma DistinctConcat(a: seq<string>, b: seq<string>)
    requires Distinct(a) && Distinct(b) && forall x :: x in a ==> x !in b
    ensures Distinct(a + b)
    ensures forall x :: x in a + b <==> x in a || x in b
  {
    forall i, j | 0 <= i < j < |a + b| ensures (a + b)[i] != (a + b)[j] {
      if i < |a| <= j {
        assert (a + b)[i] in a && (a + b)[j] == b[j - |a|];
      }
    }
  }

  lemma {:induction false} DistinctLength(q: seq<string>, s: set<string>)
    requires Distinct(q) && forall x :: x in q <==> x in s
    ensures |q| == |s|
  {
    if q == [] {
      assert s == {};
    } else {
      assert q[0] in s;
      forall x ensures x in q[1..] <==> x in s - {q[0]} {
      }
      DistinctLength(q[1..], s - {q[0]});
    }
  }

  // Every name of either catalog is reported exactly once, under its own change, except the prior
  // names of honoured renames, which their renames report.
  lemma EveryNameOnce(c: Comparison)
    ensures Distinct(Order(c))
    ensures forall x :: x in Order(c) <==> (x in c.before || x in c.after) && x !in Priors(c)
    ensures |Order(c)| == |(c.before.Keys + c.after.Keys) - Priors(c)|
  {
    var q1 := Claimants(c, Sorted(c.Added()));
    var q2 := Sorted(c.Dropped() - Priors(c));
    var q3 := Sorted(Unclaiming(c));
    var q4 := Sorted(c.Common());
    SortedOrder(c.Added());
    ClaimantsAre(c, Sorted(c.Added()));
    SortedOrder(c.Dropped() - Priors(c));
    SortedOrder(Unclaiming(c));
    SortedOrder(c.Common());
    PriorsAreDropped(c);
    FourSections(c, q1, q2, q3, q4);
    hide Sorted, Claimants, Priors;
    DistinctLength(Order(c), (c.before.Keys + c.after.Keys) - Priors(c));
  }

  lemma FourSections(c: Comparison, q1: seq<string>, q2: seq<string>, q3: seq<string>, q4: seq<string>)
    requires Distinct(q1) && (forall x :: x in q1 <==> x in c.Added() && ClaimsSome(c, x))
    requires Distinct(q2) && (forall x :: x in q2 <==> x in c.Dropped() - Priors(c))
    requires Distinct(q3) && (forall x :: x in q3 <==> x in Unclaiming(c))
    requires Distinct(q4) && (forall x :: x in q4 <==> x in c.Common())
    requires Priors(c) <= c.Dropped()
    ensures Distinct(q1 + q2 + q3 + q4)
    ensures forall x :: x in q1 + q2 + q3 + q4 <==> (x in c.before || x in c.after) && x !in Priors(c)
  {
    hide Priors, Claim;
    DistinctConcat(q1, q2);
    DistinctConcat(q1 + q2, q3);
    DistinctConcat(q1 + q2 + q3, q4);
  }

  lemma PriorsAreDropped(c: Comparison)
    ensures Priors(c) <= c.Dropped()
  {
  }

  ghost function Renames(c: Comparison): set<string> {
    set n | n in c.Added() && Honoured(c, n)
  }

  // Honoured renames are as many as the names they rename.
  lemma RenamesAreInjective(c: Comparison)
    ensures |Priors(c)| == |Renames(c)|
  {
    ImageSize(c, Renames(c));
    assert Priors(c) == PriorsOf(c, Renames(c));
  }

  ghost function PriorsOf(c: Comparison, names: set<string>): set<string>
  {
    set n | n in names && Honoured(c, n) :: Claim(c.after[n]).value
  }

  lemma {:induction false} ImageSize(c: Comparison, names: set<string>)
    requires forall n :: n in names ==> Honoured(c, n)
    ensures |PriorsOf(c, names)| == |names|
    decreases |names|
  {
    if names != {} {
      var a :| a in names;
      var rest := names - {a};
      ImageSize(c, rest);
      var prior := Claim(c.after[a]).value;
      forall b | b in rest ensures Claim(c.after[b]).value != prior {
        if Claim(c.after[b]).value == prior {
          OneHonouredPerPrior(c, a, b);
        }
      }
      assert PriorsOf(c, names) == PriorsOf(c, rest) + {prior};
    }
  }

  lemma ChangeNamesItself(c: Comparison, name: string)
    ensures ChangeOf(c, name).name == name
    ensures ChangeOf(c, name).kind == Removed <==> name in c.Dropped()
    ensures HonouredRename(ChangeOf(c, name)) <==> Honoured(c, name)
    ensures HonouredRename(ChangeOf(c, name)) ==> ChangeOf(c, name).prior == Claim(c.after[name])
  {
    if name in c.after {
      FamilyNeverInvalid(c.after[name], c.manifest, c.durable);
    }
    hide FamilyCompatibility, Canonical, Claim;
  }

  lemma FamilyNeverInvalid(tool: Json, manifest: Option<Manifest>, durable: map<string, Json>)
    ensures FamilyCompatibility(tool, manifest, durable).compatibility != InvalidRenameClaim
  {
    hide Families, Canonical;
  }

  predicate HonouredRename(change: Change) {
    change.kind == Renamed && change.verdict.compatibility != InvalidRenameClaim
  }

  // The i-th change is about this candidate tool.
  predicate Reports(changes: seq<Change>, i: nat, name: string) {
    i < |changes| && changes[i].name == name
  }

  // The i-th change accounts for a dropped tool: it removes it, or renames it.
  predicate Disposes(changes: seq<Change>, i: nat, name: string) {
    && i < |changes|
    && ((changes[i].kind == Removed && changes[i].name == name)
        || (HonouredRename(changes[i]) && changes[i].prior == Some(name)))
  }

  // The i-th change is the i-th name's own.
  lemma ChangeAt(c: Comparison, r: Review, i: nat)
    requires Reviewed(c, r) && i < |Order(c)|
    ensures i < |r.changes| && r.changes[i] == ChangeOf(c, Order(c)[i]) && r.changes[i].name == Order(c)[i]
    ensures r.changes[i].kind == Removed <==> Order(c)[i] in c.Dropped()
    ensures HonouredRename(r.changes[i]) <==> Honoured(c, Order(c)[i])
    ensures HonouredRename(r.changes[i]) ==> r.changes[i].prior == Claim(c.after[Order(c)[i]])
  {
    ChangeNamesItself(c, Order(c)[i]);
    hide Order, ChangeOf, Honoured;
  }

  lemma PlaceOf(c: Comparison, name: string) returns (i: nat)
    requires (name in c.before || name in c.after) && name !in Priors(c)
    ensures i < |Order(c)| && Order(c)[i] == name
    ensures forall j :: 0 <= j < |Order(c)| && Order(c)[j] == name ==> j == i
  {
    EveryNameOnce(c);
    hide Order, Priors;
    assert name in Order(c);
    i :| 0 <= i < |Order(c)| && Order(c)[i] == name;
  }

  lemma EachToolReportedOnce(c: Comparison, r: Review, name: string) returns (i: nat)
    requires Reviewed(c, r) && name in c.after
    ensures Reports(r.changes, i, name) && r.changes[i] == ChangeOf(c, name) && r.changes[i].kind != Removed
    ensures forall j :: Reports(r.changes, j, name) ==> j == i
  {
    PriorsAreDropped(c);
    i := PlaceOf(c, name);
    ChangeAt(c, r, i);
    hide Order, Priors, ChangeOf, Honoured;
    forall j: nat | Reports(r.changes, j, name) ensures j == i {
      ChangeAt(c, r, j);
    }
  }

  lemma EachDroppedDisposedOnce(c: Comparison, r: Review, name: string) returns (i: nat)
    requires Reviewed(c, r) && name in c.Dropped()
    ensures Disposes(r.changes, i, name)
    ensures forall j :: Disposes(r.changes, j, name) ==> j == i
  {
    if name in Priors(c) {
      i := RenamerOf(c, r, name);
    } else {
      i := PlaceOf(c, name);
      ChangeAt(c, r, i);
      hide Order, Priors, ChangeOf, Honoured, Claim;
      forall j: nat | Disposes(r.changes, j, name) ensures j == i {
        ChangeAt(c, r, j);
        RenameTakes(c, Order(c)[j], name);
      }
    }
  }

  lemma RenameTakes(c: Comparison, n: string, prior: string)
    ensures Honoured(c, n) && Claim(c.after[n]) == Some(prior) ==> prior in Priors(c)
  {
  }

  lemma RenamerOf(c: Comparison, r: Review, name: string) returns (i: nat)
    requires Reviewed(c, r) && name in Priors(c)
    ensures Disposes(r.changes, i, name)
    ensures forall j :: Disposes(r.changes, j, name) ==> j == i
  {
    PriorOfHonoured(c, name);
    var n := PriorOf(c, name);
    i := PlaceOf(c, n);
    ChangeAt(c, r, i);
    hide Order, Priors, ChangeOf, Honoured, Claim, PriorOf, Reviewed;
    forall j: nat | Disposes(r.changes, j, name) ensures j == i {
      OnlyRenamer(c, r, j, name);
    }
  }

  lemma OnlyRenamer(c: Comparison, r: Review, j: nat, name: string)
    requires Reviewed(c, r) && name in Priors(c) && Disposes(r.changes, j, name)
    ensures j < |Order(c)| && Order(c)[j] == PriorOf(c, name)
  {
    ChangeAt(c, r, j);
    EveryNameOnce(c);
    hide Order, Priors, ChangeOf, Honoured, Claim, PriorOf;
    assert Order(c)[j] in Order(c);
    if HonouredRename(r.changes[j]) {
      PriorIs(c, Order(c)[j], name);
    }
  }

  // The one rename that takes this prior name.
  ghost function PriorOf(c: Comparison, prior: string): string
    requires prior in Priors(c)
  {
    var n :| n in c.Added() && Honoured(c, n) && Claim(c.after[n]).value == prior;
    n
  }

  lemma PriorOfHonoured(c: Comparison, prior: string)
    requires prior in Priors(c)
    ensures var n := PriorOf(c, prior);
      Honoured(c, n) && Claim(c.after[n]) == Some(prior) && n in c.after && n !in Priors(c)
  {
  }

  lemma PriorIs(c: Comparison, n: string, prior: string)
    requires Honoured(c, n) && Claim(c.after[n]) == Some(prior)
    ensures prior in Priors(c) && n == PriorOf(c, prior)
  {
    OneHonouredPerPrior(c, n, PriorOf(c, prior));
  }

  // The review has one change for each name of either catalog, less one for each honoured rename.
  lemma CountOfChanges(c: Comparison, r: Review)
    requires Reviewed(c, r)
    ensures |r.changes| == |c.before.Keys + c.after.Keys| - |Renames(c)|
  {
    EveryNameOnce(c);
    PriorsAreDropped(c);
    RenamesAreInjective(c);
    hide Order, Priors, ChangeOf, Honoured, Claim, ChangesOf, FamilyCompatibility;
    var all := c.before.Keys + c.after.Keys;
    assert |all - Priors(c)| == |all| - |Priors(c)|;
  }

  // The honoured renames are the ones the review reports.
  lemma RenamesAreReported(c: Comparison, r: Review)
    requires Reviewed(c, r)
    ensures Renames(c) == set i | 0 <= i < |r.changes| && HonouredRename(r.changes[i]) :: r.changes[i].name
  {
    hide Order, Priors, ChangeOf, Honoured, Claim, ChangesOf, FamilyCompatibility, Reviewed;
    forall i | 0 <= i < |r.changes| ensures HonouredRename(r.changes[i]) ==> r.changes[i].name in Renames(c) {
      HonouredIsRename(c, r, i);
    }
    forall n | n in Renames(c)
      ensures exists i :: 0 <= i < |r.changes| && HonouredRename(r.changes[i]) && r.changes[i].name == n
    {
      var i := RenameIsReported(c, r, n);
    }
  }

  lemma RenameIsReported(c: Comparison, r: Review, n: string) returns (i: nat)
    requires Reviewed(c, r) && n in Renames(c)
    ensures i < |r.changes| && HonouredRename(r.changes[i]) && r.changes[i].name == n
  {
    ChangeNamesItself(c, n);
    i := EachToolReportedOnce(c, r, n);
    hide Order, Priors, Claim, ChangesOf, FamilyCompatibility, Reviewed;
  }

  lemma HonouredClaims(c: Comparison, n: string)
    requires Honoured(c, n)
    ensures n in Renames(c)
  {
  }

  lemma HonouredIsRename(c: Comparison, r: Review, i: nat)
    requires Reviewed(c, r) && i < |r.changes|
    ensures HonouredRename(r.changes[i]) ==> r.changes[i].name in Renames(c)
  {
    ChangeAt(c, r, i);
    if Honoured(c, Order(c)[i]) {
      HonouredClaims(c, Order(c)[i]);
    }
    hide Order, ChangeOf, Honoured, Claim;
  }
}
