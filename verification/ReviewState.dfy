/**
 The review state of one job: controlled decisions changed one at a time, with
 one level of undo, an autosave after every change, and restoring an autosave.
 */
module ReviewState {
  import opened Outcomes
  import opened ReviewDecisions
  import opened Sorting

  // ----- The autosave file -----

  datatype JsonRecord = JsonRecord(action: string, mode: Option<string>, category: Option<string>,
                                   version: Option<string>)

  datatype Autosave = Autosave(
    contract: string,
    fingerprint: string,
    packages: map<string, JsonRecord>,
    families: map<string, JsonRecord>,
    groups: map<string, JsonRecord>,
    rows: map<string, JsonRecord>)

  const AUTOSAVE_CONTRACT := "ReconciliationBatchAutosave-1.0"

  function ModeName(mode: Mode): string {
    match mode
    case QuantityCost => "quantity_cost"
    case CostOnly => "cost_only"
  }

  function DumpRecord(choice: Choice, version: Option<string>): JsonRecord {
    match choice
    case Accept(mode, category) => JsonRecord("accept", Some(ModeName(mode)), Some(category), version)
    case Reject => JsonRecord("reject", None, None, version)
  }

  /** A record as a decision, when it is a controlled one. */
  function LoadChoice(record: JsonRecord): Option<Choice> {
    if record.action == "accept" && record.category.Some? && record.category.value != "" then
      if record.mode == Some("quantity_cost") then Some(Accept(QuantityCost, record.category.value))
      else if record.mode == Some("cost_only") then Some(Accept(CostOnly, record.category.value))
      else None
    else if record.action == "reject" && record.mode.None? && record.category.None? then Some(Reject)
    else None
  }

  predicate NamesCategory(choice: Choice) {
    choice.Accept? ==> choice.category != ""
  }

  /** Ids and accepted categories are not empty, and every decision is for the key it is stored under. */
  ghost predicate Nameable(s: Snapshot) {
    && "" !in s.packages && "" !in s.families && "" !in s.groups && "" !in s.rows
    && (forall k :: k in s.packages ==> NamesCategory(s.packages[k].choice))
    && (forall k :: k in s.families ==> NamesCategory(s.families[k].choice))
    && (forall k :: k in s.groups ==> NamesCategory(s.groups[k].choice))
    && (forall k :: k in s.rows ==> NamesCategory(s.rows[k].choice))
    && Addressed(s)
  }

  lemma RecordRoundTrip(choice: Choice, version: Option<string>)
    requires NamesCategory(choice)
    ensures LoadChoice(DumpRecord(choice, version)) == Some(choice)
  {
  }

  function DumpBatch(decisions: map<string, BatchDecision>): map<string, JsonRecord> {
    map k | k in decisions :: DumpRecord(decisions[k].choice, decisions[k].version)
  }

  function DumpReview(decisions: map<string, ReviewDecision>): map<string, JsonRecord> {
    map k | k in decisions :: DumpRecord(decisions[k].choice, decisions[k].version)
  }

  predicate Loadable(records: map<string, JsonRecord>) {
    forall k :: k in records ==> k != "" && LoadChoice(records[k]).Some?
  }

  function LoadBatch(records: map<string, JsonRecord>): map<string, BatchDecision>
    requires Loadable(records)
  {
    map k | k in records :: BatchDecision(LoadChoice(records[k]).value, records[k].version)
  }

  function LoadReview(records: map<string, JsonRecord>, target: string -> Target): map<string, ReviewDecision>
    requires Loadable(records)
  {
    map k | k in records :: ReviewDecision(LoadChoice(records[k]).value, target(k), records[k].version)
  }

  function Dump(digest: Digest, ctx: Context, s: Snapshot): Autosave {
    Autosave(AUTOSAVE_CONTRACT, VersionFingerprint(digest, ctx),
             DumpBatch(s.packages), DumpBatch(s.families), DumpReview(s.groups), DumpReview(s.rows))
  }

  /** The snapshot an autosave holds, when it is one for this review and all its records are controlled. */
  function Load(digest: Digest, ctx: Context, file: Option<Autosave>): Option<Snapshot> {
    if file.None? || file.value.contract != AUTOSAVE_CONTRACT then None
    else if file.value.fingerprint != VersionFingerprint(digest, ctx) then None
    else if !Loadable(file.value.packages) || !Loadable(file.value.families) then None
    else if !Loadable(file.value.groups) || !Loadable(file.value.rows) then None
    else Some(Snapshot(
      LoadBatch(file.value.packages),
      LoadBatch(file.value.families),
      LoadReview(file.value.groups, k => ToGroup(k)),
      LoadReview(file.value.rows, k => ToRow(k))))
  }

  lemma BatchRoundTrip(decisions: map<string, BatchDecision>)
    requires "" !in decisions
    requires forall k :: k in decisions ==> NamesCategory(decisions[k].choice)
    ensures Loadable(DumpBatch(decisions)) && LoadBatch(DumpBatch(decisions)) == decisions
  {
    forall k | k in decisions ensures LoadChoice(DumpBatch(decisions)[k]) == Some(decisions[k].choice) {
      RecordRoundTrip(decisions[k].choice, decisions[k].version);
    }
  }

  lemma ReviewRoundTrip(decisions: map<string, ReviewDecision>, target: string -> Target)
    requires "" !in decisions && (forall k :: k in decisions ==> decisions[k].target == target(k))
    requires forall k :: k in decisions ==> NamesCategory(decisions[k].choice)
    ensures Loadable(DumpReview(decisions)) && LoadReview(DumpReview(decisions), target) == decisions
  {
    forall k | k in decisions ensures LoadChoice(DumpReview(decisions)[k]) == Some(decisions[k].choice) {
      RecordRoundTrip(decisions[k].choice, decisions[k].version);
    }
  }

  lemma ValidIsNameable(ctx: Context, s: Snapshot)
    requires WellFormed(ctx) && ValidSnapshot(ctx, s)
    ensures Nameable(s)
  {
  }

  lemma DumpLoads(digest: Digest, ctx: Context, s: Snapshot)
    requires Nameable(s)
    ensures Load(digest, ctx, Some(Dump(digest, ctx, s))) == Some(s)
  {
    BatchRoundTrip(s.packages);
    BatchRoundTrip(s.families);
    ReviewRoundTrip(s.groups, k => ToGroup(k));
    ReviewRoundTrip(s.rows, k => ToRow(k));
  }

  /** Every valid snapshot survives saving and loading, versions included. */
  lemma AutosaveRoundTrip(digest: Digest, ctx: Context, s: Snapshot)
    requires WellFormed(ctx) && ValidSnapshot(ctx, s)
    ensures Load(digest, ctx, Some(Dump(digest, ctx, s))) == Some(s)
  {
    ValidIsNameable(ctx, s);
    DumpLoads(digest, ctx, s);
  }

  // ----- Nothing but a dump of this review loads -----

  /** A record is read as a choice exactly when it is what the choice is written as. */
  lemma LoadsOnlyDumps(record: JsonRecord, choice: Choice)
    ensures LoadChoice(record) == Some(choice) <==>
      record == DumpRecord(choice, record.version) && NamesCategory(choice)
  {
    if record == DumpRecord(choice, record.version) && NamesCategory(choice) {
      RecordRoundTrip(choice, record.version);
    }
  }

  lemma BatchLoadsOnlyDumps(records: map<string, JsonRecord>)
    requires Loadable(records)
    ensures "" !in records && DumpBatch(LoadBatch(records)) == records
    ensures forall k :: k in records ==> NamesCategory(LoadBatch(records)[k].choice)
  {
    forall k | k in records ensures DumpBatch(LoadBatch(records))[k] == records[k] {
      LoadsOnlyDumps(records[k], LoadChoice(records[k]).value);
    }
  }

  lemma ReviewLoadsOnlyDumps(records: map<string, JsonRecord>, target: string -> Target)
    requires Loadable(records)
    ensures "" !in records && DumpReview(LoadReview(records, target)) == records
    ensures forall k :: k in records ==> NamesCategory(LoadReview(records, target)[k].choice)
  {
    forall k | k in records ensures DumpReview(LoadReview(records, target))[k] == records[k] {
      LoadsOnlyDumps(records[k], LoadChoice(records[k]).value);
    }
  }

  lemma LoadedWasDumped(digest: Digest, ctx: Context, file: Option<Autosave>)
    requires Load(digest, ctx, file).Some?
    ensures var s := Load(digest, ctx, file).value;
      file == Some(Dump(digest, ctx, s)) && Nameable(s)
  {
    BatchLoadsOnlyDumps(file.value.packages);
    BatchLoadsOnlyDumps(file.value.families);
    ReviewLoadsOnlyDumps(file.value.groups, k => ToGroup(k));
    ReviewLoadsOnlyDumps(file.value.rows, k => ToRow(k));
  }

  /** A file loads exactly when it is the dump, made for this review, of what it loads as. */
  lemma LoadInvertsDump(digest: Digest, ctx: Context, file: Option<Autosave>, s: Snapshot)
    ensures Load(digest, ctx, file) == Some(s) <==> file == Some(Dump(digest, ctx, s)) && Nameable(s)
  {
    if Load(digest, ctx, file).Some? {
      LoadedWasDumped(digest, ctx, file);
    }
    if Nameable(s) {
      DumpLoads(digest, ctx, s);
    }
  }

  /** With an injective digest, what another review saved loads only over the same inputs, categories and versions. */
  lemma OtherReviewsAreRefused(digest: Digest, ctx: Context, other: Context, s: Snapshot)
    requires Injective(digest) && Load(digest, ctx, Some(Dump(digest, other, s))).Some?
    ensures other.inputs == ctx.inputs && other.categories == ctx.categories
    ensures other.packages.Keys == ctx.packages.Keys
    ensures forall p :: p in ctx.packages ==> other.packages[p].version == ctx.packages[p].version
    ensures other.families.Keys == ctx.families.Keys
    ensures forall f :: f in ctx.families ==> other.families[f].version == ctx.families[f].version
    ensures other.groups.Keys == ctx.groups.Keys
    ensures forall g :: g in ctx.groups ==> other.groups[g].version == ctx.groups[g].version
  {
    assert FingerprintOf(other) == FingerprintOf(ctx);
    SamePackages(other.packages, ctx.packages);
    SameFamilies(other.families, ctx.families);
    SameGroups(other.groups, ctx.groups);
  }

  lemma SamePackages(a: map<string, Package>, b: map<string, Package>)
    requires (map k | k in a :: a[k].version) == (map k | k in b :: b[k].version)
    ensures a.Keys == b.Keys && forall k :: k in b ==> a[k].version == b[k].version
  {
    assert (map k | k in a :: a[k].version).Keys == a.Keys && (map k | k in b :: b[k].version).Keys == b.Keys;
  }

  lemma SameFamilies(a: map<string, Family>, b: map<string, Family>)
    requires (map k | k in a :: a[k].version) == (map k | k in b :: b[k].version)
    ensures a.Keys == b.Keys && forall k :: k in b ==> a[k].version == b[k].version
  {
    assert (map k | k in a :: a[k].version).Keys == a.Keys && (map k | k in b :: b[k].version).Keys == b.Keys;
  }

  lemma SameGroups(a: map<string, Group>, b: map<string, Group>)
    requires (map k | k in a :: a[k].version) == (map k | k in b :: b[k].version)
    ensures a.Keys == b.Keys && forall k :: k in b ==> a[k].version == b[k].version
  {
    assert (map k | k in a :: a[k].version).Keys == a.Keys && (map k | k in b :: b[k].version).Keys == b.Keys;
  }

  class ReconciliationBatchStore {
    var file: Option<Autosave>
    var writable: bool

    constructor ()
      ensures file == None
    {
      file, writable := None, true;
    }

    predicate IsDump(digest: Digest, ctx: Context, s: Snapshot)
      reads this
    {
      file == Some(Dump(digest, ctx, s))
    }

    /** Replaces the file atomically, or raises and leaves it. */
    method Save(digest: Digest, ctx: Context, s: Snapshot) returns (ok: bool)
      modifies this
      ensures ok == old(writable) && writable == old(writable)
      ensures file == if ok then Some(Dump(digest, ctx, s)) else old(file)
    {
      ok := writable;
      if ok {
        file := Some(Dump(digest, ctx, s));
      }
    }

    /** Restores exactly what the file holds, or changes nothing; a fresh valid snapshot always comes back. */
    method Restore(state: ReconciliationReviewState) returns (ok: bool)
      requires state.Valid()
      modifies state
      ensures state.Valid() && state.undo == old(state.undo)
      ensures ok <==>
        && Load(state.digest, state.ctx, file).Some?
        && Restorable(state.digest, state.ctx, Load(state.digest, state.ctx, file).value)
      ensures ok ==> Some(state.Decisions()) == Load(state.digest, state.ctx, file) && state.IsFresh()
      ensures !ok ==> state.Decisions() == old(state.Decisions())
      ensures forall s ::
        ValidSnapshot(state.ctx, s) && Fresh(state.digest, state.ctx, s) && IsDump(state.digest, state.ctx, s) ==>
        ok && state.Decisions() == s
    {
      var loaded := Load(state.digest, state.ctx, file);
      forall s | ValidSnapshot(state.ctx, s) && IsDump(state.digest, state.ctx, s) ensures loaded == Some(s) {
        AutosaveRoundTrip(state.digest, state.ctx, s);
      }
      if loaded.None? {
        return false;
      }
      ok := state.Restore(loaded.value);
    }
  }

  // ----- The review state -----

  /** A change is refused, made, or made but not saved because the autosave raised. */
  datatype Outcome = Refused | Made | SaveRaised

  lemma SafeBatchesValid(ctx: Context, s: Snapshot, wanted: seq<(string, string)>)
    requires ValidSnapshot(ctx, s)
    requires AllAcceptable(ctx, s, wanted)
    ensures ValidSnapshot(ctx, WithSafePackages(ctx, s, wanted))
  {
    SafeDecisionsOf(ctx, wanted);
  }

  class ReconciliationReviewState {
    const digest: Digest
    const ctx: Context
    const autosave: ReconciliationBatchStore?
    var packages: map<string, BatchDecision>
    var families: map<string, BatchDecision>
    var groups: map<string, ReviewDecision>
    var rows: map<string, ReviewDecision>
    var undo: Option<Snapshot>

    function Decisions(): Snapshot
      reads this
    {
      Snapshot(packages, families, groups, rows)
    }

    ghost predicate Valid()
      reads this
    {
      && WellFormed(ctx)
      && ValidSnapshot(ctx, Decisions())
      && (undo.Some? ==> ValidSnapshot(ctx, undo.value))
    }

    ghost predicate IsFresh()
      reads this
    {
      Fresh(digest, ctx, Decisions())
    }

    /** The decisions remembered from earlier reviews come with whatever versions they had. */
    constructor (digest: Digest, ctx: Context, autosave: ReconciliationBatchStore?, remembered: Snapshot)
      requires WellFormed(ctx) && ValidSnapshot(ctx, remembered)
      ensures Valid() && Decisions() == remembered && undo == None
      ensures this.digest == digest && this.ctx == ctx && this.autosave == autosave
    {
      this.digest, this.ctx, this.autosave := digest, ctx, autosave;
      packages, families, groups, rows := remembered.packages, remembered.families, remembered.groups, remembered.rows;
      undo := None;
    }

    /** The autosave holds the decisions as they are, and their versions are current. */
    ghost predicate Saved()
      reads this, autosave
    {
      IsFresh() && autosave != null && autosave.IsDump(digest, ctx, Decisions())
    }

    /** What every mutation ends with: the new decisions in place with current versions, and saved. */
    twostate predicate Changed(outcome: Outcome, next: Snapshot)
      reads this, autosave
    {
      && outcome != Refused
      && Decisions() == Refreshed(digest, ctx, next)
      && IsFresh()
      && (autosave != null ==>
            && autosave.writable == old(autosave.writable)
            && (outcome == Made <==> autosave.writable)
            && autosave.file == if outcome == Made then Some(Dump(digest, ctx, Decisions())) else old(autosave.file))
      && (autosave == null ==> outcome == Made)
      && (autosave != null && outcome == Made ==> Saved())
    }

    twostate predicate Unchanged(outcome: Outcome)
      reads this, autosave
    {
      && outcome == Refused
      && Decisions() == old(Decisions())
      && undo == old(undo)
      && (autosave != null ==> autosave.file == old(autosave.file) && autosave.writable == old(autosave.writable))
    }

    method Install(s: Snapshot)
      modifies this`packages, this`families, this`groups, this`rows
      ensures Decisions() == s
    {
      packages, families, groups, rows := s.packages, s.families, s.groups, s.rows;
    }

    /** Puts a snapshot in place, recomputes the versions of its group and row decisions, and saves. */
    method Replace(next: Snapshot) returns (outcome: Outcome)
      requires Valid() && ValidSnapshot(ctx, next)
      modifies this`packages, this`families, this`groups, this`rows, autosave
      ensures Valid() && Changed(outcome, next)
    {
      RefreshingIsFresh(digest, ctx, next);
      RefreshingStaysValid(digest, ctx, next);
      Install(Refreshed(digest, ctx, next));
      outcome := Made;
      if autosave != null {
        var saved := autosave.Save(digest, ctx, Decisions());
        outcome := if saved then Made else SaveRaised;
      }
    }

    method PutPackage(id: string, decision: BatchDecision) returns (outcome: Outcome)
      requires Valid()
      modifies this, autosave
      ensures Valid()
      ensures outcome != Refused <==> PackageValid(ctx, id, decision)
      ensures outcome == Refused ==> Unchanged(outcome)
      ensures outcome != Refused ==> undo == Some(old(Decisions()))
      ensures outcome != Refused ==> Changed(outcome, old(Decisions()).(packages := old(packages)[id := decision]))
    {
      if id !in ctx.packages || decision.version != Some(ctx.packages[id].version) {
        return Refused;
      }
      if !BatchAllowed(ctx, decision.choice, ctx.packages[id].members) {
        return Refused;
      }
      undo := Some(Decisions());
      outcome := Replace(Decisions().(packages := packages[id := decision]));
    }

    method PutFamily(id: string, decision: BatchDecision) returns (outcome: Outcome)
      requires Valid()
      modifies this, autosave
      ensures Valid()
      ensures outcome != Refused <==> FamilyValid(ctx, id, decision)
      ensures outcome == Refused ==> Unchanged(outcome)
      ensures outcome != Refused ==> undo == Some(old(Decisions()))
      ensures outcome != Refused ==> Changed(outcome, old(Decisions()).(families := old(families)[id := decision]))
    {
      if id !in ctx.families || decision.version != Some(ctx.families[id].version) {
        return Refused;
      }
      if !BatchAllowed(ctx, decision.choice, ctx.families[id].members) {
        return Refused;
      }
      undo := Some(Decisions());
      outcome := Replace(Decisions().(families := families[id := decision]));
    }

    /** Accepts several safe packages together, or none of them. */
    method AcceptSafePackages(wanted: seq<(string, string)>) returns (outcome: Outcome)
      requires Valid()
      modifies this, autosave
      ensures Valid()
      ensures outcome != Refused <==>
        && wanted != []
        && (forall i, j :: 0 <= i < j < |wanted| ==> wanted[i].0 != wanted[j].0)
        && (forall i :: 0 <= i < |wanted| ==> AwaitsAcceptance(ctx, old(Decisions()), wanted[i].0, wanted[i].1))
      ensures outcome == Refused ==> Unchanged(outcome)
      ensures outcome != Refused ==> undo == Some(old(Decisions()))
      ensures outcome != Refused ==> Changed(outcome, WithSafePackages(ctx, old(Decisions()), wanted))
    {
      forall i | 0 <= i < |wanted|
        ensures SafelyAcceptable(ctx, Decisions(), wanted[i].0, wanted[i].1)
           <==> AwaitsAcceptance(ctx, Decisions(), wanted[i].0, wanted[i].1)
      {
        AcceptableMeans(ctx, Decisions(), wanted[i].0, wanted[i].1);
      }
      if wanted == [] || !(forall i, j :: 0 <= i < j < |wanted| ==> wanted[i].0 != wanted[j].0) {
        return Refused;
      }
      if !AllAcceptable(ctx, Decisions(), wanted) {
        return Refused;
      }
      var accepted := Accepted(wanted);
      SafeBatchesValid(ctx, Decisions(), wanted);
      undo := Some(Decisions());
      outcome := Replace(Decisions().(packages := packages + accepted));
    }

    method Accepted(wanted: seq<(string, string)>) returns (accepted: map<string, BatchDecision>)
      requires forall i :: 0 <= i < |wanted| ==> wanted[i].0 in ctx.packages && ctx.packages[wanted[i].0].mode.Some?
      ensures accepted == SafeDecisions(ctx, wanted)
    {
      accepted := map[];
      var i := 0;
      while i < |wanted|
        invariant 0 <= i <= |wanted|
        invariant accepted == SafeDecisions(ctx, wanted[..i])
      {
        assert wanted[..i + 1][..i] == wanted[..i];
        accepted := accepted[wanted[i].0 := SafeDecision(ctx.packages[wanted[i].0])];
        i := i + 1;
      }
      assert wanted[..i] == wanted;
    }

    /** Accepted only with the version of the group in the current snapshot. */
    method PutGroup(id: string, decision: ReviewDecision) returns (outcome: Outcome)
      requires Valid()
      modifies this, autosave
      ensures Valid()
      ensures outcome != Refused <==>
        && id in ctx.groups
        && decision.version == Some(VersionOf(digest, ctx, id, ContentsOf(old(Decisions()))))
        && GroupAllowed(ctx, decision.choice, id)
        && (decision.target.ToGroup? ==> decision.target.id == id)
      ensures outcome == Refused ==> Unchanged(outcome)
      ensures outcome != Refused ==> undo == Some(old(Decisions()))
      ensures outcome != Refused ==>
        Changed(outcome, old(Decisions()).(groups := old(groups)[id := decision.(target := ToGroup(id))]))
      ensures outcome != Refused ==> NoneLost(decision.version, ContentsOf(old(Decisions())))
    {
      if id !in ctx.groups || decision.version != Some(VersionOf(digest, ctx, id, ContentsOf(Decisions()))) {
        return Refused;
      }
      if !GroupAllowed(ctx, decision.choice, id) || (decision.target.ToGroup? && decision.target.id != id) {
        return Refused;
      }
      CurrentVersionLosesNothing(id, ContentsOf(Decisions()));
      undo := Some(Decisions());
      outcome := Replace(Decisions().(groups := groups[id := decision.(target := ToGroup(id))]));
    }

    method PutRow(id: string, decision: ReviewDecision) returns (outcome: Outcome)
      requires Valid()
      modifies this, autosave
      ensures Valid()
      ensures outcome != Refused <==>
        && id in ctx.rows
        && decision.version == Some(RowVersion(digest, ctx, id, ContentsOf(old(Decisions()))))
        && RowAllowed(ctx, decision.choice, id)
        && (decision.target.ToRow? ==> decision.target.id == id)
      ensures outcome == Refused ==> Unchanged(outcome)
      ensures outcome != Refused ==> undo == Some(old(Decisions()))
      ensures outcome != Refused ==>
        Changed(outcome, old(Decisions()).(rows := old(rows)[id := decision.(target := ToRow(id))]))
      ensures outcome != Refused ==> NoneLost(decision.version, ContentsOf(old(Decisions())))
    {
      if id !in ctx.rows || decision.version != Some(RowVersion(digest, ctx, id, ContentsOf(Decisions()))) {
        return Refused;
      }
      if !RowAllowed(ctx, decision.choice, id) || (decision.target.ToRow? && decision.target.id != id) {
        return Refused;
      }
      CurrentVersionLosesNothing(ctx.groupOf[id], ContentsOf(Decisions()));
      undo := Some(Decisions());
      outcome := Replace(Decisions().(rows := rows[id := decision.(target := ToRow(id))]));
    }

    method DeleteRow(id: string, version: string) returns (outcome: Outcome)
      requires Valid()
      modifies this, autosave
      ensures Valid()
      ensures outcome != Refused <==>
        id in ctx.rows && version == RowVersion(digest, ctx, id, ContentsOf(old(Decisions())))
      ensures outcome == Refused ==> Unchanged(outcome)
      ensures outcome != Refused ==> undo == Some(old(Decisions()))
      ensures outcome != Refused ==> Changed(outcome, old(Decisions()).(rows := old(rows) - {id}))
      ensures outcome != Refused ==> NoneLost(Some(version), ContentsOf(old(Decisions())))
    {
      if id !in ctx.rows || version != RowVersion(digest, ctx, id, ContentsOf(Decisions())) {
        return Refused;
      }
      CurrentVersionLosesNothing(ctx.groupOf[id], ContentsOf(Decisions()));
      undo := Some(Decisions());
      outcome := Replace(Decisions().(rows := rows - {id}));
    }

    /** Whoever read this version, of whatever group, read the decisions as they are now. */
    ghost predicate NoneLost(version: Option<string>, now: Contents) {
      Injective(digest) ==> forall g, seen :: version == Some(VersionOf(digest, ctx, g, seen)) ==> seen == now
    }

    lemma CurrentVersionLosesNothing(id: string, now: Contents)
      ensures NoneLost(Some(VersionOf(digest, ctx, id, now)), now)
    {
    }

    /** Puts back what the last mutation replaced, once. */
    method Undo() returns (outcome: Outcome)
      requires Valid()
      modifies this, autosave
      ensures Valid() && undo == None
      ensures outcome == Refused <==> old(undo) == None
      ensures outcome == Refused ==> Unchanged(outcome)
      ensures outcome != Refused ==> Changed(outcome, old(undo).value)
      ensures outcome != Refused ==> ContentsOf(Decisions()) == ContentsOf(old(undo).value)
      ensures outcome != Refused ==> (Decisions() == old(undo).value <==> Fresh(digest, ctx, old(undo).value))
    {
      if undo.None? {
        return Refused;
      }
      var previous := undo.value;
      undo := None;
      RefreshingIsFresh(digest, ctx, previous);
      outcome := Replace(previous);
    }

    method PackagesPass(decisions: map<string, BatchDecision>) returns (ok: bool)
      ensures ok <==> forall p :: p in decisions ==> PackageValid(ctx, p, decisions[p])
    {
      var rest := decisions.Keys;
      while rest != {}
        invariant rest <= decisions.Keys
        invariant forall p :: p in decisions.Keys - rest ==> PackageValid(ctx, p, decisions[p])
        decreases |rest|
      {
        HasText(rest);
        var p :| p in rest;
        if p !in ctx.packages || decisions[p].version != Some(ctx.packages[p].version) {
          return false;
        }
        if !BatchAllowed(ctx, decisions[p].choice, ctx.packages[p].members) {
          return false;
        }
        rest := rest - {p};
      }
      ok := true;
    }

    method FamiliesPass(decisions: map<string, BatchDecision>) returns (ok: bool)
      ensures ok <==> forall f :: f in decisions ==> FamilyValid(ctx, f, decisions[f])
    {
      var rest := decisions.Keys;
      while rest != {}
        invariant rest <= decisions.Keys
        invariant forall f :: f in decisions.Keys - rest ==> FamilyValid(ctx, f, decisions[f])
        decreases |rest|
      {
        HasText(rest);
        var f :| f in rest;
        if f !in ctx.families || decisions[f].version != Some(ctx.families[f].version) {
          return false;
        }
        if !BatchAllowed(ctx, decisions[f].choice, ctx.families[f].members) {
          return false;
        }
        rest := rest - {f};
      }
      ok := true;
    }

    /** Versions are computed from the contents to be put in place, not from the present ones. */
    predicate GroupPasses(g: string, decision: ReviewDecision, prospective: Contents) {
      && g in ctx.groups
      && decision.version == Some(VersionOf(digest, ctx, g, prospective))
      && GroupAllowed(ctx, decision.choice, g)
    }

    method GroupsPass(decisions: map<string, ReviewDecision>, prospective: Contents) returns (ok: bool)
      ensures ok <==> forall g :: g in decisions ==> GroupPasses(g, decisions[g], prospective)
    {
      var rest := decisions.Keys;
      while rest != {}
        invariant rest <= decisions.Keys
        invariant forall g :: g in decisions.Keys - rest ==> GroupPasses(g, decisions[g], prospective)
        decreases |rest|
      {
        HasText(rest);
        var g :| g in rest;
        if g !in ctx.groups || decisions[g].version != Some(VersionOf(digest, ctx, g, prospective)) {
          return false;
        }
        if !GroupAllowed(ctx, decisions[g].choice, g) {
          return false;
        }
        rest := rest - {g};
      }
      ok := true;
    }

    predicate RowPasses(r: string, decision: ReviewDecision, prospective: Contents) {
      && r in ctx.rows && r in ctx.groupOf
      && decision.version == Some(RowVersion(digest, ctx, r, prospective))
      && RowAllowed(ctx, decision.choice, r)
    }

    method RowsPass(decisions: map<string, ReviewDecision>, prospective: Contents) returns (ok: bool)
      ensures ok <==> forall r :: r in decisions ==> RowPasses(r, decisions[r], prospective)
    {
      var rest := decisions.Keys;
      while rest != {}
        invariant rest <= decisions.Keys
        invariant forall r :: r in decisions.Keys - rest ==> RowPasses(r, decisions[r], prospective)
        decreases |rest|
      {
        HasText(rest);
        var r :| r in rest;
        if r !in ctx.rows || r !in ctx.groupOf {
          return false;
        }
        var current := decisions[r].version == Some(RowVersion(digest, ctx, r, prospective));
        if !current || !RowAllowed(ctx, decisions[r].choice, r) {
          return false;
        }
        rest := rest - {r};
      }
      ok := true;
    }

    /**
     Checks a whole snapshot level by level and puts it in place; the first failing decision
     leaves everything as it was.
     */
    method Restore(s: Snapshot) returns (ok: bool)
      requires Valid() && Addressed(s)
      modifies this
      ensures Valid() && undo == old(undo)
      ensures ok <==> Restorable(digest, ctx, s)
      ensures Decisions() == if ok then s else old(Decisions())
    {
      var prospective := ContentsOf(s);
      RestorableByLevel(s);
      ok := PackagesPass(s.packages);
      if !ok {
        return;
      }
      ok := FamiliesPass(s.families);
      if !ok {
        return;
      }
      ok := GroupsPass(s.groups, prospective);
      if !ok {
        return;
      }
      ok := RowsPass(s.rows, prospective);
      if !ok {
        return;
      }
      Install(s);
    }

    lemma RestorableByLevel(s: Snapshot)
      requires RowsPartitioned(ctx)
      ensures Restorable(digest, ctx, s) <==>
        && (forall p :: p in s.packages ==> PackageValid(ctx, p, s.packages[p]))
        && (forall f :: f in s.families ==> FamilyValid(ctx, f, s.families[f]))
        && (forall g :: g in s.groups ==> GroupPasses(g, s.groups[g], ContentsOf(s)))
        && (forall r :: r in s.rows ==> RowPasses(r, s.rows[r], ContentsOf(s)))
    {
    }

    // ----- What the decisions resolve to -----

    /** Writes one batch decision to all its groups. */
    static method Fanout(destination: map<string, ReviewDecision>, groups: seq<string>, choice: Choice)
      returns (after: map<string, ReviewDecision>)
      ensures after == destination + Fan(groups, choice)
    {
      after := destination;
      var i := 0;
      while i < |groups|
        invariant 0 <= i <= |groups|
        invariant after == destination + Fan(groups[..i], choice)
      {
        assert groups[..i + 1] == groups[..i] + [groups[i]];
        after := after[groups[i] := ReviewDecision(choice, ToGroup(groups[i]), None)];
        i := i + 1;
      }
      assert groups[..i] == groups;
    }

    method FanPackages() returns (result: map<string, ReviewDecision>)
      requires PackagesDisjoint(ctx)
      ensures Shows(ctx, ContentsOf(Decisions()), ctx.packages.Keys, {}, result)
    {
      ghost var c := ContentsOf(Decisions());
      result := map[];
      var rest := ctx.packages.Keys;
      while rest != {}
        invariant rest <= ctx.packages.Keys
        invariant Shows(ctx, c, ctx.packages.Keys - rest, {}, result)
        decreases |rest|
      {
        HasText(rest);
        var p :| p in rest;
        PackageStep(ctx, c, ctx.packages.Keys - rest, p, result);
        if p in packages {
          result := Fanout(result, ctx.packages[p].members, packages[p].choice);
        }
        assert ctx.packages.Keys - (rest - {p}) == (ctx.packages.Keys - rest) + {p};
        rest := rest - {p};
      }
      assert ctx.packages.Keys - rest == ctx.packages.Keys;
    }

    method FanFamilies(packagesOnly: map<string, ReviewDecision>) returns (result: map<string, ReviewDecision>)
      requires FamiliesDisjoint(ctx) && families.Keys <= ctx.families.Keys
      requires Shows(ctx, ContentsOf(Decisions()), ctx.packages.Keys, {}, packagesOnly)
      ensures Shows(ctx, ContentsOf(Decisions()), ctx.packages.Keys, families.Keys, result)
    {
      ghost var c := ContentsOf(Decisions());
      result := packagesOnly;
      var rest := families.Keys;
      assert families.Keys - rest == {};
      while rest != {}
        invariant rest <= families.Keys
        invariant Shows(ctx, c, ctx.packages.Keys, families.Keys - rest, result)
        decreases |rest|
      {
        HasText(rest);
        var f :| f in rest;
        FamilyStep(ctx, c, ctx.packages.Keys, families.Keys - rest, f, result);
        result := Fanout(result, ctx.families[f].members, families[f].choice);
        assert families.Keys - (rest - {f}) == (families.Keys - rest) + {f};
        rest := rest - {f};
      }
      assert families.Keys - rest == families.Keys;
    }

    /**
     Fans packages out, then families over them, then the group decisions over both: row order
     aside, the priority rule.
     */
    method ResolvedGroupDecisions() returns (result: map<string, ReviewDecision>)
      requires Valid()
      ensures forall g :: g in result <==> GroupChoice(ctx, ContentsOf(Decisions()), g).Some?
      ensures forall g :: g in result ==>
        result[g].target == ToGroup(g) && GroupChoice(ctx, ContentsOf(Decisions()), g) == Some(result[g].choice)
    {
      result := FanPackages();
      result := FanFamilies(result);
      GroupsOverLayers(ctx, Decisions(), result);
      result := result + groups;
    }

    method MembersOf(these: set<string>) returns (members: set<string>)
      requires RowsPartitioned(ctx)
      ensures forall r :: r in members <==> r in ctx.groupOf && ctx.groupOf[r] in these && ctx.groupOf[r] in ctx.groups
    {
      members := {};
      var rest := these;
      while rest != {}
        invariant rest <= these
        invariant forall r :: r in members <==>
          r in ctx.groupOf && ctx.groupOf[r] in these - rest && ctx.groupOf[r] in ctx.groups
        decreases |rest|
      {
        HasText(rest);
        var g :| g in rest;
        members := members + set r | r in Members(ctx, g);
        rest := rest - {g};
      }
    }

    /** Exactly the rows with no decision at any level, in order. */
    method UnresolvedRowIds() returns (unresolved: seq<string>)
      requires Valid()
      ensures forall r :: r in unresolved <==> r in ctx.rows && RowChoice(ctx, ContentsOf(Decisions()), r).None?
      ensures Ascending(unresolved)
    {
      var resolvedGroups := ResolvedGroupDecisions();
      var members := MembersOf(resolvedGroups.Keys);
      unresolved := SortedTexts(ctx.rows - (rows.Keys + members));
    }

    /** The decision listed for a group or a row, with the current version of the group. */
    ghost function EffectiveOf(target: Target): Option<ReviewDecision>
      reads this
    {
      var c := ContentsOf(Decisions());
      match target
      case ToGroup(g) =>
        if GroupChoice(ctx, c, g).None? then None
        else Some(ReviewDecision(GroupChoice(ctx, c, g).value, target, Some(VersionOf(digest, ctx, g, c))))
      case ToRow(r) =>
        if r in rows then Some(ReviewDecision(rows[r].choice, target, Some(RowVersion(digest, ctx, r, c)))) else None
    }

    /** All group decisions in force, then all row decisions, each in the order of their ids. */
    method EffectiveDecisions() returns (decisions: seq<ReviewDecision>)
      requires Valid()
      ensures forall d :: d in decisions <==> EffectiveOf(d.target) == Some(d)
      ensures forall i, j :: 0 <= i < j < |decisions| ==> ListedBefore(decisions[i].target, decisions[j].target)
    {
      var resolved := ResolvedGroupDecisions();
      var forGroups := GroupsInOrder(resolved);
      var forRows := RowsInOrder();
      decisions := forGroups + forRows;
    }

    method GroupsInOrder(resolved: map<string, ReviewDecision>) returns (decisions: seq<ReviewDecision>)
      requires forall g :: g in resolved <==> GroupChoice(ctx, ContentsOf(Decisions()), g).Some?
      requires forall g :: g in resolved ==>
        resolved[g].target == ToGroup(g) && GroupChoice(ctx, ContentsOf(Decisions()), g) == Some(resolved[g].choice)
      ensures forall d :: d in decisions <==> d.target.ToGroup? && EffectiveOf(d.target) == Some(d)
      ensures forall i, j :: 0 <= i < j < |decisions| ==> ListedBefore(decisions[i].target, decisions[j].target)
    {
      var c := ContentsOf(Decisions());
      var ids := SortedTexts(resolved.Keys);
      decisions := [];
      for n := 0 to |ids|
        invariant |decisions| == n
        invariant forall i :: 0 <= i < n ==>
          decisions[i].target == ToGroup(ids[i]) && EffectiveOf(decisions[i].target) == Some(decisions[i])
      {
        assert ids[n] in ids;
        decisions := decisions + [resolved[ids[n]].(version := Some(VersionOf(digest, ctx, ids[n], c)))];
      }
      assert forall g :: EffectiveOf(ToGroup(g)).Some? <==> g in resolved;
      AllListed(ids, decisions, g => ToGroup(g));
    }

    /** A list with one effective decision for each id, in the order of the ids, has all of them. */
    lemma AllListed(ids: seq<string>, decisions: seq<ReviewDecision>, target: string -> Target)
      requires |decisions| == |ids|
      requires forall id :: EffectiveOf(target(id)).Some? <==> id in ids
      requires forall i :: 0 <= i < |ids| ==>
        decisions[i].target == target(ids[i]) && EffectiveOf(decisions[i].target) == Some(decisions[i])
      ensures forall id :: EffectiveOf(target(id)).Some? ==> EffectiveOf(target(id)).value in decisions
    {
      forall id | id in ids ensures EffectiveOf(target(id)).value in decisions {
        var i :| 0 <= i < |ids| && ids[i] == id;
        assert decisions[i] in decisions;
      }
    }

    method RowsInOrder() returns (decisions: seq<ReviewDecision>)
      requires Addressed(Decisions())
      ensures forall d :: d in decisions <==> d.target.ToRow? && EffectiveOf(d.target) == Some(d)
      ensures forall i, j :: 0 <= i < j < |decisions| ==> ListedBefore(decisions[i].target, decisions[j].target)
    {
      var c := ContentsOf(Decisions());
      var ids := SortedTexts(rows.Keys);
      decisions := [];
      for n := 0 to |ids|
        invariant |decisions| == n
        invariant forall i :: 0 <= i < n ==>
          decisions[i].target == ToRow(ids[i]) && EffectiveOf(decisions[i].target) == Some(decisions[i])
      {
        assert ids[n] in ids;
        decisions := decisions + [rows[ids[n]].(version := Some(RowVersion(digest, ctx, ids[n], c)))];
      }
      assert forall r :: EffectiveOf(ToRow(r)).Some? <==> r in rows;
      AllListed(ids, decisions, r => ToRow(r));
    }
  }

  /** Groups are listed before rows, and either kind by id. */
  ghost predicate ListedBefore(a: Target, b: Target) {
    match (a, b)
    case (ToGroup(g), ToGroup(h)) => TextLe(g, h) && g != h
    case (ToRow(r), ToRow(q)) => TextLe(r, q) && r != q
    case (ToGroup(_), ToRow(_)) => true
    case (ToRow(_), ToGroup(_)) => false
  }

  // ----- Over a restart, and where undo differs -----

  /** What the last saved mutation left, a fresh state over the same review gets back, versions included. */
  method ReloadSaved(saved: ReconciliationReviewState, reloaded: ReconciliationReviewState) returns (ok: bool)
    requires saved.Valid() && saved.Saved() && reloaded.Valid() && saved != reloaded
    requires reloaded.digest == saved.digest && reloaded.ctx == saved.ctx
    modifies reloaded
    ensures ok && reloaded.Valid() && reloaded.IsFresh()
    ensures reloaded.Decisions() == saved.Decisions() == old(saved.Decisions())
  {
    ok := saved.autosave.Restore(reloaded);
  }

  /** A review of one row in one group, with a row decision remembered from an earlier review: it has no version. */
  function SmallReview(): Context {
    Context("", {"r"}, map["g" := Group("1", ["r"])], map[], map[], {}, map[], map["r" := "g"], map[], map[])
  }

  function Remembered(): Snapshot {
    Snapshot(map[], map[], map[], map["r" := ReviewDecision(Reject, ToRow("r"), None)])
  }

  lemma SmallReviewIsWellFormed()
    ensures WellFormed(SmallReview()) && ValidSnapshot(SmallReview(), Remembered())
  {
  }

  /** Putting a decision and undoing it brings the contents back, but not the missing version. */
  method UndoChangesVersions(digest: Digest)
    returns (state: ReconciliationReviewState, before: Snapshot, put: Outcome, undone: Outcome)
    ensures fresh(state) && state.Valid() && state.digest == digest && state.ctx == SmallReview()
    ensures put != Refused && undone != Refused && before == Remembered()
    ensures ContentsOf(state.Decisions()) == ContentsOf(before) && state.Decisions() != before
    ensures "r" in before.rows && before.rows["r"].version == None
    ensures "r" in state.rows
    ensures state.rows["r"].version == Some(VersionOf(digest, SmallReview(), "g", ContentsOf(before)))
  {
    SmallReviewIsWellFormed();
    state := new ReconciliationReviewState(digest, SmallReview(), null, Remembered());
    before := state.Decisions();
    var version := VersionOf(digest, state.ctx, "g", ContentsOf(before));
    put := state.PutGroup("g", ReviewDecision(Reject, ToGroup("g"), Some(version)));
    undone := state.Undo();
  }

  function Fan(groups: seq<string>, choice: Choice): map<string, ReviewDecision> {
    map g | g in groups :: ReviewDecision(choice, ToGroup(g), None)
  }

  /** The decision in force for a group when only these packages and families have been fanned out. */
  ghost function Layered(ctx: Context, c: Contents, packages: set<string>, families: set<string>,
                         g: string): Option<Choice> {
    if g in ctx.familyOf && ctx.familyOf[g] in c.families && ctx.familyOf[g] in families
    then Some(c.families[ctx.familyOf[g]])
    else if g in ctx.packageOf && ctx.packageOf[g] in c.packages && ctx.packageOf[g] in packages
    then Some(c.packages[ctx.packageOf[g]])
    else None
  }

  ghost predicate Shows(ctx: Context, c: Contents, packages: set<string>, families: set<string>,
                        result: map<string, ReviewDecision>) {
    && (forall g :: g in result <==> Layered(ctx, c, packages, families, g).Some?)
    && (forall g :: g in result ==>
      Layered(ctx, c, packages, families, g) == Some(result[g].choice) && result[g].target == ToGroup(g))
  }

  lemma LayeredByPackage(ctx: Context, c: Contents, done: set<string>, p: string, g: string)
    requires PackagesDisjoint(ctx) && p in ctx.packages
    ensures Layered(ctx, c, done + {p}, {}, g) ==
      if p in c.packages && g in ctx.packages[p].members then Some(c.packages[p]) else Layered(ctx, c, done, {}, g)
  {
  }

  lemma PackageStep(ctx: Context, c: Contents, done: set<string>, p: string, result: map<string, ReviewDecision>)
    requires PackagesDisjoint(ctx) && p in ctx.packages && Shows(ctx, c, done, {}, result)
    ensures p in c.packages ==> Shows(ctx, c, done + {p}, {}, result + Fan(ctx.packages[p].members, c.packages[p]))
    ensures p !in c.packages ==> Shows(ctx, c, done + {p}, {}, result)
  {
    forall g ensures Layered(ctx, c, done + {p}, {}, g) ==
      if p in c.packages && g in ctx.packages[p].members then Some(c.packages[p]) else Layered(ctx, c, done, {}, g)
    {
      LayeredByPackage(ctx, c, done, p, g);
    }
  }

  lemma FamilyStep(ctx: Context, c: Contents, packages: set<string>, done: set<string>, f: string,
                   result: map<string, ReviewDecision>)
    requires FamiliesDisjoint(ctx) && f in ctx.families && f in c.families && Shows(ctx, c, packages, done, result)
    ensures Shows(ctx, c, packages, done + {f}, result + Fan(ctx.families[f].members, c.families[f]))
  {
    forall g ensures Layered(ctx, c, packages, done + {f}, g) ==
      if g in ctx.families[f].members then Some(c.families[f]) else Layered(ctx, c, packages, done, g)
    {
    }
  }

  lemma GroupsOverLayers(ctx: Context, s: Snapshot, layers: map<string, ReviewDecision>)
    requires PackagesDisjoint(ctx) && BatchesValid(ctx, s) && Addressed(s)
    requires Shows(ctx, ContentsOf(s), ctx.packages.Keys, s.families.Keys, layers)
    ensures var result := layers + s.groups;
      && (forall g :: g in result <==> GroupChoice(ctx, ContentsOf(s), g).Some?)
      && (forall g :: g in result ==>
        result[g].target == ToGroup(g) && GroupChoice(ctx, ContentsOf(s), g) == Some(result[g].choice))
  {
    forall g ensures GroupChoice(ctx, ContentsOf(s), g) ==
      if g in s.groups then Some(s.groups[g].choice)
      else Layered(ctx, ContentsOf(s), ctx.packages.Keys, s.families.Keys, g)
    {
    }
  }
}
