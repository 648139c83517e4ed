/**
 Review decisions at four levels as values: what they mean for a row, when they
 are allowed, and the versions that bind a group or a row to the whole snapshot.
 */
module ReviewDecisions {
  import opened Outcomes

  datatype Mode = QuantityCost | CostOnly

  /** A controlled decision: accepting names a mode and a category, rejecting names neither. */
  datatype Choice = Accept(mode: Mode, category: string) | Reject

  datatype BatchDecision = BatchDecision(choice: Choice, version: Option<string>)

  /** A group or row decision is for exactly one of the two. */
  datatype Target = ToGroup(id: string) | ToRow(id: string)

  datatype ReviewDecision = ReviewDecision(choice: Choice, target: Target, version: Option<string>)

  // ----- The fixed surroundings of a review -----

  datatype Group = Group(version: string, members: seq<string>)

  /** `mode` is `None` when the package key names no review mode. */
  datatype Package = Package(version: string, members: seq<string>, safe: bool, category: string, mode: Option<Mode>)

  datatype Family = Family(version: string, members: seq<string>)

  /** Rows, groups, packages and families of one review, with the index of each partition. */
  datatype Context = Context(
    inputs: string,
    rows: set<string>,
    groups: map<string, Group>,
    packages: map<string, Package>,
    families: map<string, Family>,
    categories: set<string>,
    available: map<string, set<string>>,
    groupOf: map<string, string>,
    packageOf: map<string, string>,
    familyOf: map<string, string>)

  ghost predicate RowsPartitioned(ctx: Context) {
    && ctx.rows == ctx.groupOf.Keys
    && (forall r :: r in ctx.groupOf ==> ctx.groupOf[r] in ctx.groups && r in ctx.groups[ctx.groupOf[r]].members)
    && (forall g, r :: g in ctx.groups && r in ctx.groups[g].members ==> r in ctx.groupOf && ctx.groupOf[r] == g)
  }

  ghost predicate PackagesDisjoint(ctx: Context) {
    && (forall p, g :: p in ctx.packages && g in ctx.packages[p].members ==>
      g in ctx.packageOf && ctx.packageOf[g] == p)
    && (forall g :: g in ctx.packageOf ==>
          g in ctx.groups && ctx.packageOf[g] in ctx.packages && g in ctx.packages[ctx.packageOf[g]].members)
  }

  ghost predicate FamiliesDisjoint(ctx: Context) {
    && (forall f, g :: f in ctx.families && g in ctx.families[f].members ==> g in ctx.familyOf && ctx.familyOf[g] == f)
    && (forall g :: g in ctx.familyOf ==>
          g in ctx.groups && ctx.familyOf[g] in ctx.families && g in ctx.families[ctx.familyOf[g]].members)
  }

  ghost predicate IdsNamed(ctx: Context) {
    "" !in ctx.rows && "" !in ctx.groups && "" !in ctx.packages && "" !in ctx.families && "" !in ctx.categories
  }

  /** Groups partition the rows; packages and families are disjoint sets of groups; ids are not empty. */
  ghost predicate WellFormed(ctx: Context) {
    RowsPartitioned(ctx) && PackagesDisjoint(ctx) && FamiliesDisjoint(ctx) && IdsNamed(ctx)
  }

  function Members(ctx: Context, g: string): seq<string> {
    if g in ctx.groups then ctx.groups[g].members else []
  }

  // ----- Snapshots and what they say -----

  /** The four decision maps, with versions. */
  datatype Snapshot = Snapshot(
    packages: map<string, BatchDecision>,
    families: map<string, BatchDecision>,
    groups: map<string, ReviewDecision>,
    rows: map<string, ReviewDecision>)

  const EMPTY := Snapshot(map[], map[], map[], map[])

  /** The four maps without versions: what a version is computed from. */
  datatype Contents = Contents(
    packages: map<string, Choice>,
    families: map<string, Choice>,
    groups: map<string, Choice>,
    rows: map<string, Choice>)

  function BatchChoices(decisions: map<string, BatchDecision>): map<string, Choice> {
    map k | k in decisions :: decisions[k].choice
  }

  function Choices(decisions: map<string, ReviewDecision>): map<string, Choice> {
    map k | k in decisions :: decisions[k].choice
  }

  function ContentsOf(s: Snapshot): Contents {
    Contents(BatchChoices(s.packages), BatchChoices(s.families), Choices(s.groups), Choices(s.rows))
  }

  /** The decision in force for a group: its own, else its family's, else its package's. */
  function GroupChoice(ctx: Context, c: Contents, g: string): Option<Choice> {
    if g in c.groups then Some(c.groups[g])
    else if g in ctx.familyOf && ctx.familyOf[g] in c.families then Some(c.families[ctx.familyOf[g]])
    else if g in ctx.packageOf && ctx.packageOf[g] in c.packages then Some(c.packages[ctx.packageOf[g]])
    else None
  }

  /** The decision in force for a row: its own, else its group's. */
  function RowChoice(ctx: Context, c: Contents, r: string): Option<Choice> {
    if r in c.rows then Some(c.rows[r])
    else if r in ctx.groupOf then GroupChoice(ctx, c, ctx.groupOf[r])
    else None
  }

  // ----- Allowed decisions -----

  predicate RowAllowed(ctx: Context, choice: Choice, r: string) {
    choice.Accept? ==> choice.category in ctx.categories && (r in ctx.available ==> choice.category in ctx.available[r])
  }

  predicate GroupAllowed(ctx: Context, choice: Choice, g: string) {
    choice.Accept? ==>
      && choice.category in ctx.categories
      && forall r :: r in Members(ctx, g) ==> r in ctx.available ==> choice.category in ctx.available[r]
  }

  predicate BatchAllowed(ctx: Context, choice: Choice, groups: seq<string>) {
    choice.Accept? ==>
      && choice.category in ctx.categories
      && forall g :: g in groups ==> GroupAllowed(ctx, choice, g)
  }

  /** A row can be given this category. */
  ghost predicate Offers(ctx: Context, r: string, category: string) {
    category in ctx.categories && (r in ctx.available ==> category in ctx.available[r])
  }

  /** A category is known, and every row of these groups offers it. */
  ghost predicate OfferedBy(ctx: Context, groups: set<string>, category: string)
    requires RowsPartitioned(ctx)
  {
    && category in ctx.categories
    && forall r :: r in ctx.rows && ctx.groupOf[r] in groups ==> Offers(ctx, r, category)
  }

  lemma GroupAllowedMeans(ctx: Context, choice: Choice, g: string)
    requires RowsPartitioned(ctx)
    ensures GroupAllowed(ctx, choice, g) <==> choice.Reject? || OfferedBy(ctx, {g}, choice.category)
  {
    forall r ensures r in Members(ctx, g) <==> r in ctx.rows && ctx.groupOf[r] == g {
    }
  }

  /** A choice is allowed, at any level, exactly when every row it would reach offers its category. */
  lemma AllowedMeans(ctx: Context, choice: Choice, groups: seq<string>, r: string)
    requires RowsPartitioned(ctx)
    ensures RowAllowed(ctx, choice, r) <==> choice.Reject? || Offers(ctx, r, choice.category)
    ensures BatchAllowed(ctx, choice, groups) <==>
      choice.Reject? || OfferedBy(ctx, (set g | g in groups), choice.category)
  {
    forall g | g in groups
      ensures GroupAllowed(ctx, choice, g) <==> choice.Reject? || OfferedBy(ctx, {g}, choice.category)
    {
      GroupAllowedMeans(ctx, choice, g);
    }
  }

  /** Whatever valid decisions put in force, an accepted row gets a category that it offers. */
  lemma AcceptedCategoriesAreOffered(ctx: Context, s: Snapshot, r: string)
    requires WellFormed(ctx) && ValidSnapshot(ctx, s) && r in ctx.rows
    ensures var choice := RowChoice(ctx, ContentsOf(s), r);
      choice.Some? && choice.value.Accept? ==> Offers(ctx, r, choice.value.category)
  {
  }

  predicate PackageValid(ctx: Context, p: string, decision: BatchDecision) {
    && p in ctx.packages
    && decision.version == Some(ctx.packages[p].version)
    && BatchAllowed(ctx, decision.choice, ctx.packages[p].members)
  }

  predicate FamilyValid(ctx: Context, f: string, decision: BatchDecision) {
    && f in ctx.families
    && decision.version == Some(ctx.families[f].version)
    && BatchAllowed(ctx, decision.choice, ctx.families[f].members)
  }

  predicate BatchesValid(ctx: Context, s: Snapshot) {
    && (forall p :: p in s.packages ==> PackageValid(ctx, p, s.packages[p]))
    && (forall f :: f in s.families ==> FamilyValid(ctx, f, s.families[f]))
  }

  predicate DecisionsValid(ctx: Context, s: Snapshot) {
    && (forall g :: g in s.groups ==> g in ctx.groups && GroupAllowed(ctx, s.groups[g].choice, g))
    && (forall r :: r in s.rows ==> r in ctx.groupOf && RowAllowed(ctx, s.rows[r].choice, r))
  }

  /** Every decision is for the key it is stored under. */
  predicate Addressed(s: Snapshot) {
    && (forall g :: g in s.groups ==> s.groups[g].target == ToGroup(g))
    && (forall r :: r in s.rows ==> s.rows[r].target == ToRow(r))
  }

  predicate ValidSnapshot(ctx: Context, s: Snapshot) {
    BatchesValid(ctx, s) && DecisionsValid(ctx, s) && Addressed(s)
  }

  // ----- Versions -----

  datatype Payload =
    | Fingerprint(inputs: string, categories: set<string>, packages: map<string, string>,
                  families: map<string, string>, groups: map<string, string>)
    | GroupVersion(fingerprint: string, group: string, members: seq<string>, contents: Contents)

  type Digest = Payload -> string

  ghost predicate Injective(digest: Digest) {
    forall p, q :: digest(p) == digest(q) ==> p == q
  }

  function FingerprintOf(ctx: Context): Payload {
    Fingerprint(
      ctx.inputs,
      ctx.categories,
      map p | p in ctx.packages :: ctx.packages[p].version,
      map f | f in ctx.families :: ctx.families[f].version,
      map g | g in ctx.groups :: ctx.groups[g].version)
  }

  function VersionFingerprint(digest: Digest, ctx: Context): string {
    digest(FingerprintOf(ctx))
  }

  /** The version a client must send back to change this group or one of its rows. */
  function VersionOf(digest: Digest, ctx: Context, g: string, c: Contents): string {
    digest(GroupVersion(VersionFingerprint(digest, ctx), g, Members(ctx, g), c))
  }

  /** No lost update: one version belongs to one group and one state of all four maps. */
  lemma VersionsBind(digest: Digest, ctx: Context, g: string, c: Contents, h: string, d: Contents)
    requires Injective(digest)
    ensures VersionOf(digest, ctx, g, c) == VersionOf(digest, ctx, h, d) <==> g == h && c == d
  {
  }

  function RowVersion(digest: Digest, ctx: Context, r: string, c: Contents): string {
    VersionOf(digest, ctx, if r in ctx.groupOf then ctx.groupOf[r] else "", c)
  }

  /** Every stored group and row decision carries the version of the whole snapshot. */
  predicate Fresh(digest: Digest, ctx: Context, s: Snapshot) {
    && (forall g :: g in s.groups ==> s.groups[g].version == Some(VersionOf(digest, ctx, g, ContentsOf(s))))
    && (forall r :: r in s.rows ==> s.rows[r].version == Some(RowVersion(digest, ctx, r, ContentsOf(s))))
  }

  function Refreshed(digest: Digest, ctx: Context, s: Snapshot): Snapshot {
    var c := ContentsOf(s);
    s.(groups := map g | g in s.groups :: s.groups[g].(version := Some(VersionOf(digest, ctx, g, c))),
       rows := map r | r in s.rows :: s.rows[r].(version := Some(RowVersion(digest, ctx, r, c))))
  }

  lemma RefreshingKeepsContents(digest: Digest, ctx: Context, s: Snapshot)
    ensures ContentsOf(Refreshed(digest, ctx, s)) == ContentsOf(s)
  {
    var t := Refreshed(digest, ctx, s);
    assert Choices(t.groups) == Choices(s.groups);
    assert Choices(t.rows) == Choices(s.rows);
  }

  lemma RefreshingStaysValid(digest: Digest, ctx: Context, s: Snapshot)
    requires ValidSnapshot(ctx, s)
    ensures ValidSnapshot(ctx, Refreshed(digest, ctx, s))
  {
  }

  /** Refreshing changes versions only, makes them all current, and leaves a snapshot alone exactly when they were. */
  lemma RefreshingIsFresh(digest: Digest, ctx: Context, s: Snapshot)
    ensures ContentsOf(Refreshed(digest, ctx, s)) == ContentsOf(s)
    ensures Fresh(digest, ctx, Refreshed(digest, ctx, s))
    ensures Refreshed(digest, ctx, s) == s <==> Fresh(digest, ctx, s)
  {
    RefreshingKeepsContents(digest, ctx, s);
    var t := Refreshed(digest, ctx, s);
    if Fresh(digest, ctx, s) {
      assert t.groups == s.groups && t.rows == s.rows;
    }
  }

  /** A snapshot the state accepts back: everything allowed and every version current. */
  predicate Restorable(digest: Digest, ctx: Context, s: Snapshot) {
    BatchesValid(ctx, s) && DecisionsValid(ctx, s) && Fresh(digest, ctx, s)
  }

  // ----- Accepting safe packages -----

  predicate GroupTouched(ctx: Context, s: Snapshot, g: string) {
    g in s.groups || exists r :: r in Members(ctx, g) && r in s.rows
  }

  predicate Crosses(family: Family, package: Package) {
    exists g :: g in family.members && g in package.members
  }

  /** The package, something inside it, or a family crossing it is already decided. */
  predicate ManuallyDecided(ctx: Context, s: Snapshot, p: string)
    requires p in ctx.packages
  {
    || p in s.packages
    || (exists g :: g in ctx.packages[p].members && GroupTouched(ctx, s, g))
    || (exists f :: f in s.families && f in ctx.families && Crosses(ctx.families[f], ctx.packages[p]))
  }

  function SafeDecision(package: Package): BatchDecision
    requires package.mode.Some?
  {
    BatchDecision(Accept(package.mode.value, package.category), Some(package.version))
  }

  predicate SafelyAcceptable(ctx: Context, s: Snapshot, p: string, version: string) {
    && p in ctx.packages && version == ctx.packages[p].version
    && ctx.packages[p].safe
    && !ManuallyDecided(ctx, s, p)
    && ctx.packages[p].category != "" && ctx.packages[p].mode.Some?
    && BatchAllowed(ctx, SafeDecision(ctx.packages[p]).choice, ctx.packages[p].members)
  }

  /** No decision at any level reaches a row of the package, and none is recorded for it. */
  ghost predicate Untouched(ctx: Context, s: Snapshot, p: string)
    requires RowsPartitioned(ctx) && p in ctx.packages
  {
    && p !in s.packages
    && forall g :: g in ctx.packages[p].members ==>
         && g !in s.groups
         && (g in ctx.familyOf ==> ctx.familyOf[g] !in s.families)
         && forall r :: r in ctx.rows && ctx.groupOf[r] == g ==> r !in s.rows
  }

  /** A safe, untouched package in its current version, whose category every row of it offers. */
  ghost predicate AwaitsAcceptance(ctx: Context, s: Snapshot, p: string, version: string)
    requires RowsPartitioned(ctx)
  {
    && p in ctx.packages && version == ctx.packages[p].version
    && ctx.packages[p].safe && ctx.packages[p].mode.Some? && Untouched(ctx, s, p)
    && OfferedBy(ctx, (set g | g in ctx.packages[p].members), ctx.packages[p].category)
  }

  lemma UntouchedMeans(ctx: Context, s: Snapshot, p: string)
    requires WellFormed(ctx) && ValidSnapshot(ctx, s) && p in ctx.packages
    ensures ManuallyDecided(ctx, s, p) <==> !Untouched(ctx, s, p)
  {
    if ManuallyDecided(ctx, s, p) && p !in s.packages {
      if g :| g in ctx.packages[p].members && GroupTouched(ctx, s, g) {
        TouchedMeans(ctx, s, g);
      }
    }
    forall g | g in ctx.packages[p].members && g in ctx.familyOf && ctx.familyOf[g] in s.families
      ensures ManuallyDecided(ctx, s, p)
    {
      assert Crosses(ctx.families[ctx.familyOf[g]], ctx.packages[p]);
    }
    forall g | g in ctx.packages[p].members ensures GroupTouched(ctx, s, g) ==> ManuallyDecided(ctx, s, p) {
      TouchedMeans(ctx, s, g);
    }
  }

  lemma TouchedMeans(ctx: Context, s: Snapshot, g: string)
    requires RowsPartitioned(ctx)
    ensures GroupTouched(ctx, s, g) <==>
      g in s.groups || exists r :: r in ctx.rows && ctx.groupOf[r] == g && r in s.rows
  {
    if r :| r in ctx.rows && ctx.groupOf[r] == g && r in s.rows {
      assert r in Members(ctx, g);
    }
  }

  /** A package can be accepted with others exactly when it awaits that. */
  lemma AcceptableMeans(ctx: Context, s: Snapshot, p: string, version: string)
    requires WellFormed(ctx) && ValidSnapshot(ctx, s)
    ensures SafelyAcceptable(ctx, s, p, version) <==> AwaitsAcceptance(ctx, s, p, version)
  {
    if p in ctx.packages {
      UntouchedMeans(ctx, s, p);
      if ctx.packages[p].mode.Some? {
        AllowedMeans(ctx, SafeDecision(ctx.packages[p]).choice, ctx.packages[p].members, "");
      }
    }
  }

  predicate AllAcceptable(ctx: Context, s: Snapshot, wanted: seq<(string, string)>) {
    forall i :: 0 <= i < |wanted| ==> SafelyAcceptable(ctx, s, wanted[i].0, wanted[i].1)
  }

  /** The decisions for a list of packages, filled in one by one. */
  function SafeDecisions(ctx: Context, wanted: seq<(string, string)>): map<string, BatchDecision> {
    if wanted == [] then map[]
    else
      var p := wanted[|wanted| - 1].0;
      var before := SafeDecisions(ctx, wanted[..|wanted| - 1]);
      if p in ctx.packages && ctx.packages[p].mode.Some? then before[p := SafeDecision(ctx.packages[p])] else before
  }

  lemma {:induction false} SafeDecisionsOf(ctx: Context, wanted: seq<(string, string)>)
    requires forall i :: 0 <= i < |wanted| ==> wanted[i].0 in ctx.packages && ctx.packages[wanted[i].0].mode.Some?
    ensures forall p :: p in SafeDecisions(ctx, wanted) <==> exists i :: 0 <= i < |wanted| && wanted[i].0 == p
    ensures forall p :: p in SafeDecisions(ctx, wanted) ==>
      p in ctx.packages && ctx.packages[p].mode.Some? && SafeDecisions(ctx, wanted)[p] == SafeDecision(ctx.packages[p])
  {
    if wanted != [] {
      var front, last := wanted[..|wanted| - 1], wanted[|wanted| - 1];
      SafeDecisionsOf(ctx, front);
      assert forall i :: 0 <= i < |front| ==> front[i] == wanted[i];
      forall p | p in SafeDecisions(ctx, wanted) ensures exists i :: 0 <= i < |wanted| && wanted[i].0 == p {
        if p in SafeDecisions(ctx, front) {
          var i :| 0 <= i < |front| && front[i].0 == p;
          assert wanted[i].0 == p;
        } else {
          assert wanted[|wanted| - 1].0 == p;
        }
      }
    }
  }

  lemma UntouchedRowsAreUndecided(ctx: Context, s: Snapshot, p: string, r: string)
    requires WellFormed(ctx) && r in ctx.rows && p in ctx.packages && !ManuallyDecided(ctx, s, p)
    requires ctx.groupOf[r] in ctx.packages[p].members
    ensures r !in s.rows && ctx.groupOf[r] !in s.groups && p !in s.packages
    ensures ctx.groupOf[r] in ctx.familyOf ==> ctx.familyOf[ctx.groupOf[r]] !in s.families
    ensures ctx.groupOf[r] in ctx.packageOf && ctx.packageOf[ctx.groupOf[r]] == p
  {
  }

  function WithSafePackages(ctx: Context, s: Snapshot, wanted: seq<(string, string)>): Snapshot {
    s.(packages := s.packages + SafeDecisions(ctx, wanted))
  }

  lemma DecidedByPackage(ctx: Context, s: Snapshot, p: string, r: string)
    requires r in ctx.groupOf && r !in s.rows && ctx.groupOf[r] !in s.groups
    requires ctx.groupOf[r] in ctx.familyOf ==> ctx.familyOf[ctx.groupOf[r]] !in s.families
    requires ctx.groupOf[r] in ctx.packageOf && ctx.packageOf[ctx.groupOf[r]] == p
    ensures RowChoice(ctx, ContentsOf(s), r) == if p in s.packages then Some(s.packages[p].choice) else None
  {
  }

  /** Accepting safe packages decides all their rows, none of which was decided before. */
  lemma SafeAcceptanceDecides(ctx: Context, s: Snapshot, wanted: seq<(string, string)>, i: nat, r: string)
    requires WellFormed(ctx) && r in ctx.rows && i < |wanted|
    requires AllAcceptable(ctx, s, wanted)
    requires wanted[i].0 in ctx.packages && ctx.packages[wanted[i].0].mode.Some?
    requires ctx.groupOf[r] in ctx.packages[wanted[i].0].members
    ensures RowChoice(ctx, ContentsOf(s), r).None?
    ensures var package := ctx.packages[wanted[i].0];
      RowChoice(ctx, ContentsOf(WithSafePackages(ctx, s, wanted)), r) ==
      Some(Accept(package.mode.value, package.category))
  {
    assert SafelyAcceptable(ctx, s, wanted[i].0, wanted[i].1);
    SafeDecisionsOf(ctx, wanted);
    UntouchedRowsAreUndecided(ctx, s, wanted[i].0, r);
    DecidedByPackage(ctx, s, wanted[i].0, r);
    DecidedByPackage(ctx, WithSafePackages(ctx, s, wanted), wanted[i].0, r);
  }

  /** It changes the decision in force for no other row. */
  lemma SafeAcceptanceKeepsOthers(ctx: Context, s: Snapshot, wanted: seq<(string, string)>, r: string)
    requires WellFormed(ctx) && r in ctx.rows
    requires AllAcceptable(ctx, s, wanted)
    requires forall i :: 0 <= i < |wanted| && wanted[i].0 in ctx.packages ==>
      ctx.groupOf[r] !in ctx.packages[wanted[i].0].members
    ensures RowChoice(ctx, ContentsOf(WithSafePackages(ctx, s, wanted)), r) == RowChoice(ctx, ContentsOf(s), r)
  {
    SafeDecisionsOf(ctx, wanted);
  }
}
