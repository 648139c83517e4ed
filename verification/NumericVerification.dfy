/**
 Which rows a verification fails: explicit decisions first, safe packages only
 for rows without one, and every row of a calculation that misses its target.
 */
module NumericVerification {
  import opened Outcomes
  import opened ReviewDecisions
  import opened ReviewState
  import opened Sorting

  datatype Failure = CategoryAmbiguous | TargetValueUnavailable | SourceIdentityAmbiguous

  // ----- Authorizations -----

  /** A safe package speaks for its rows only when it names a category and a mode. */
  ghost predicate SafePackagesSpeak(ctx: Context) {
    forall p :: p in ctx.packages && ctx.packages[p].safe ==>
      ctx.packages[p].mode.Some? && ctx.packages[p].category != ""
  }

  ghost predicate SafeGroup(ctx: Context, p: set<string>, g: string) {
    && g in ctx.packageOf && ctx.packageOf[g] in p
    && ctx.packageOf[g] in ctx.packages && ctx.packages[ctx.packageOf[g]].safe
  }

  /** The decision a verification acts on: the one in force, else that of the row's safe package. */
  ghost function Authorized(ctx: Context, c: Contents, r: string): Option<Choice>
    requires RowsPartitioned(ctx) && PackagesDisjoint(ctx) && SafePackagesSpeak(ctx) && r in ctx.rows
  {
    var g := ctx.groupOf[r];
    if RowChoice(ctx, c, r).Some? then RowChoice(ctx, c, r)
    else if SafeGroup(ctx, ctx.packages.Keys, g) then Some(SafeDecision(ctx.packages[ctx.packageOf[g]]).choice)
    else None
  }

  /** What the loops over groups, rows and packages have filled in after some of the safe packages. */
  ghost predicate Filled(ctx: Context, c: Contents, done: set<string>, resolved: map<string, Choice>)
    requires RowsPartitioned(ctx) && PackagesDisjoint(ctx) && done <= ctx.packages.Keys
  {
    && (forall r :: r in resolved <==>
          r in ctx.rows && (RowChoice(ctx, c, r).Some? || SafeGroup(ctx, done, ctx.groupOf[r])))
    && (forall r :: r in resolved && RowChoice(ctx, c, r).Some? ==> RowChoice(ctx, c, r) == Some(resolved[r]))
    && (forall r :: r in resolved && RowChoice(ctx, c, r).None? ==>
          var package := ctx.packages[ctx.packageOf[ctx.groupOf[r]]];
          package.mode.Some? && resolved[r] == SafeDecision(package).choice)
  }

  /** Adds the safe default of one package to the rows that have none. */
  function WithDefaults(ctx: Context, resolved: map<string, Choice>, groups: seq<string>, choice: Choice): map<string,
                        Choice> {
    (map r | r in ctx.groupOf && ctx.groupOf[r] in groups :: choice) + resolved
  }

  lemma DefaultsFill(ctx: Context, c: Contents, done: set<string>, p: string, resolved: map<string, Choice>)
    requires RowsPartitioned(ctx) && PackagesDisjoint(ctx) && done <= ctx.packages.Keys && p in ctx.packages
    requires ctx.packages[p].safe && ctx.packages[p].mode.Some? && Filled(ctx, c, done, resolved)
    ensures Filled(ctx, c, done + {p},
                   WithDefaults(ctx, resolved, ctx.packages[p].members, SafeDecision(ctx.packages[p]).choice))
  {
    var after := WithDefaults(ctx, resolved, ctx.packages[p].members, SafeDecision(ctx.packages[p]).choice);
    forall r ensures r in after <==>
      r in ctx.rows && (RowChoice(ctx, c, r).Some? || SafeGroup(ctx, done + {p}, ctx.groupOf[r])) {
      if r in ctx.rows {
        assert SafeGroup(ctx, done + {p}, ctx.groupOf[r]) <==>
          SafeGroup(ctx, done, ctx.groupOf[r]) || ctx.groupOf[r] in ctx.packages[p].members;
      }
    }
  }

  /** What the listed decisions handled so far have filled in: rows of these groups, and these rows themselves. */
  ghost predicate Explicit(ctx: Context, c: Contents, groups: set<string>, rows: set<string>,
                           resolved: map<string, Choice>)
    requires RowsPartitioned(ctx)
  {
    && (forall r :: r in resolved <==> r in ctx.rows && (r in rows || ctx.groupOf[r] in groups))
    && (forall r :: r in rows ==> r in c.rows && r in resolved && resolved[r] == c.rows[r])
    && (forall r :: r in resolved && r !in rows ==> GroupChoice(ctx, c, ctx.groupOf[r]) == Some(resolved[r]))
  }

  lemma GroupHandled(ctx: Context, c: Contents, groups: set<string>, resolved: map<string, Choice>, g: string,
                     choice: Choice)
    requires RowsPartitioned(ctx) && Explicit(ctx, c, groups, {}, resolved) && GroupChoice(ctx, c, g) == Some(choice)
    ensures Explicit(ctx, c, groups + {g}, {}, resolved + map r | r in ctx.groupOf && ctx.groupOf[r] == g :: choice)
  {
  }

  lemma RowHandled(ctx: Context, c: Contents, groups: set<string>, rows: set<string>, resolved: map<string, Choice>,
                   r: string)
    requires RowsPartitioned(ctx) && Explicit(ctx, c, groups, rows, resolved) && r in c.rows && r in ctx.rows
    ensures Explicit(ctx, c, groups, rows + {r}, resolved[r := c.rows[r]])
  {
  }

  lemma ExplicitFills(ctx: Context, c: Contents, groups: set<string>, resolved: map<string, Choice>)
    requires RowsPartitioned(ctx) && PackagesDisjoint(ctx) && c.rows.Keys <= ctx.rows
    requires Explicit(ctx, c, groups, c.rows.Keys, resolved)
    requires forall g :: g in groups <==> GroupChoice(ctx, c, g).Some?
    ensures Filled(ctx, c, {}, resolved)
  {
  }

  /** The groups and rows of the first decisions. */
  ghost function Listed(decisions: seq<ReviewDecision>, n: nat): set<Target>
    requires n <= |decisions|
  {
    set i | 0 <= i < n :: decisions[i].target
  }

  lemma ListedNext(decisions: seq<ReviewDecision>, n: nat)
    requires n < |decisions|
    ensures Listed(decisions, n + 1) == Listed(decisions, n) + {decisions[n].target}
  {
  }

  lemma NoRowsBefore(decisions: seq<ReviewDecision>, n: nat)
    requires n < |decisions| && decisions[n].target.ToGroup?
    requires forall i, j :: 0 <= i < j < |decisions| ==> ListedBefore(decisions[i].target, decisions[j].target)
    ensures forall r :: ToRow(r) !in Listed(decisions, n)
  {
  }

  /** Goes through the listed decisions: a group's decision fills its rows, a row's own one overrides it. */
  method ExplicitDecisions(state: ReconciliationReviewState) returns (resolved: map<string, Choice>)
    requires state.Valid()
    ensures Filled(state.ctx, ContentsOf(state.Decisions()), {}, resolved)
  {
    var ctx := state.ctx;
    ghost var c := ContentsOf(state.Decisions());
    var decisions := state.EffectiveDecisions();
    resolved := map[];
    ghost var groups: set<string>, rows: set<string> := {}, {};
    for n := 0 to |decisions|
      invariant Explicit(ctx, c, groups, rows, resolved)
      invariant forall g :: g in groups <==> ToGroup(g) in Listed(decisions, n)
      invariant forall r :: r in rows <==> ToRow(r) in Listed(decisions, n)
    {
      var d := decisions[n];
      assert d in decisions;
      ListedNext(decisions, n);
      match d.target
      case ToGroup(g) =>
        NoRowsBefore(decisions, n);
        assert rows == {};
        GroupHandled(ctx, c, groups, resolved, g, d.choice);
        resolved := resolved + map r | r in ctx.groupOf && ctx.groupOf[r] == g :: d.choice;
        groups := groups + {g};
      case ToRow(r) =>
        RowHandled(ctx, c, groups, rows, resolved, r);
        resolved := resolved[r := d.choice];
        rows := rows + {r};
    }
    AllHandled(state, decisions, groups, rows);
    ExplicitFills(ctx, c, groups, resolved);
  }

  lemma AllHandled(state: ReconciliationReviewState, decisions: seq<ReviewDecision>, groups: set<string>,
                   rows: set<string>)
    requires forall d :: d in decisions <==> state.EffectiveOf(d.target) == Some(d)
    requires forall g :: g in groups <==> ToGroup(g) in Listed(decisions, |decisions|)
    requires forall r :: r in rows <==> ToRow(r) in Listed(decisions, |decisions|)
    ensures forall g :: g in groups <==> GroupChoice(state.ctx, ContentsOf(state.Decisions()), g).Some?
    ensures rows == state.rows.Keys
  {
    forall target | state.EffectiveOf(target).Some?
      ensures target in Listed(decisions, |decisions|)
    {
      var d := state.EffectiveOf(target).value;
      assert d in decisions;
    }
    forall i | 0 <= i < |decisions| ensures state.EffectiveOf(decisions[i].target) == Some(decisions[i]) {
      assert decisions[i] in decisions;
    }
    forall g ensures g in groups <==> GroupChoice(state.ctx, ContentsOf(state.Decisions()), g).Some? {
      assert state.EffectiveOf(ToGroup(g)).Some? <==> GroupChoice(state.ctx, ContentsOf(state.Decisions()), g).Some?;
    }
    forall r ensures r in rows <==> r in state.rows {
      assert state.EffectiveOf(ToRow(r)).Some? <==> r in state.rows;
    }
  }

  /** Every row gets the decision in force; safe packages fill the gaps and replace nothing. */
  method Authorizations(state: ReconciliationReviewState) returns (r: Result<map<string, Choice>, Failure>)
    requires state.Valid()
    ensures r.Ok? <==> SafePackagesSpeak(state.ctx)
    ensures r.Err? ==> r.error == CategoryAmbiguous
    ensures r.Ok? ==> forall row :: row in r.value <==>
      row in state.ctx.rows && Authorized(state.ctx, ContentsOf(state.Decisions()), row).Some?
    ensures r.Ok? ==> forall row :: row in r.value ==>
      Authorized(state.ctx, ContentsOf(state.Decisions()), row) == Some(r.value[row])
  {
    var ctx := state.ctx;
    ghost var c := ContentsOf(state.Decisions());
    var resolved := ExplicitDecisions(state);
    var rest := ctx.packages.Keys;
    assert ctx.packages.Keys - rest == {};
    while rest != {}
      invariant rest <= ctx.packages.Keys
      invariant Filled(ctx, c, ctx.packages.Keys - rest, resolved)
      invariant forall p :: p in ctx.packages.Keys - rest && ctx.packages[p].safe ==>
        ctx.packages[p].mode.Some? && ctx.packages[p].category != ""
      decreases |rest|
    {
      HasText(rest);
      var p :| p in rest;
      var package := ctx.packages[p];
      assert ctx.packages.Keys - (rest - {p}) == (ctx.packages.Keys - rest) + {p};
      if package.safe {
        if package.mode.None? || package.category == "" {
          return Err(CategoryAmbiguous);
        }
        DefaultsFill(ctx, c, ctx.packages.Keys - rest, p, resolved);
        resolved := WithDefaults(ctx, resolved, package.members, SafeDecision(package).choice);
      } else {
        UnsafeFillsNothing(ctx, c, ctx.packages.Keys - rest, p, resolved);
      }
      rest := rest - {p};
    }
    assert ctx.packages.Keys - rest == ctx.packages.Keys;
    FilledIsAuthorized(ctx, c, resolved);
    r := Ok(resolved);
  }

  lemma UnsafeFillsNothing(ctx: Context, c: Contents, done: set<string>, p: string, resolved: map<string, Choice>)
    requires RowsPartitioned(ctx) && PackagesDisjoint(ctx) && done <= ctx.packages.Keys && p in ctx.packages
    requires !ctx.packages[p].safe && Filled(ctx, c, done, resolved)
    ensures Filled(ctx, c, done + {p}, resolved)
  {
  }

  lemma FilledIsAuthorized(ctx: Context, c: Contents, resolved: map<string, Choice>)
    requires RowsPartitioned(ctx) && PackagesDisjoint(ctx) && SafePackagesSpeak(ctx)
    requires Filled(ctx, c, ctx.packages.Keys, resolved)
    ensures forall r :: r in resolved <==> r in ctx.rows && Authorized(ctx, c, r).Some?
    ensures forall r :: r in resolved ==> Authorized(ctx, c, r) == Some(resolved[r])
  {
  }

  // ----- Failing rows -----

  /**
   A written calculation: the rows it draws on, and whether cost and quantity meet the target
   (`None`: no target value).
   */
  datatype Calculation = Calculation(rows: set<string>, cost: Option<bool>, quantity: Option<bool>)

  function ModesOf(authorized: map<string, Choice>, rows: set<string>): set<Mode> {
    set r | r in rows && r in authorized && authorized[r].Accept? :: authorized[r].mode
  }

  function MatchesTarget(calculation: Calculation, mode: Mode): Result<bool, Failure> {
    if calculation.cost.None? then Err(TargetValueUnavailable)
    else if !calculation.cost.value || mode == CostOnly then Ok(calculation.cost.value)
    else if calculation.quantity.None? then Err(TargetValueUnavailable)
    else Ok(calculation.quantity.value)
  }

  /** One calculation's verdict: its rows must be accepted and share one mode. */
  function Verdict(authorized: map<string, Choice>, calculation: Calculation): Result<bool, Failure> {
    if exists row :: row in calculation.rows && !Accepted(authorized, row) then Err(SourceIdentityAmbiguous)
    else if ModesOf(authorized, calculation.rows) == {QuantityCost} then MatchesTarget(calculation, QuantityCost)
    else if ModesOf(authorized, calculation.rows) == {CostOnly} then MatchesTarget(calculation, CostOnly)
    else Err(CategoryAmbiguous)
  }

  predicate Accepted(authorized: map<string, Choice>, row: string) {
    row in authorized && authorized[row].Accept?
  }

  /** The rows of a calculation are all accepted, and all in one mode. */
  ghost predicate OneMode(authorized: map<string, Choice>, rows: set<string>, mode: Mode) {
    rows != {} && forall row :: row in rows ==> Accepted(authorized, row) && authorized[row].mode == mode
  }

  /** The values a calculation is held against are known as far as they are looked at. */
  ghost predicate ValuesKnown(calculation: Calculation, mode: Mode) {
    calculation.cost.Some? && (mode == QuantityCost && calculation.cost.value ==> calculation.quantity.Some?)
  }

  ghost predicate Decided(authorized: map<string, Choice>, calculation: Calculation) {
    exists mode :: OneMode(authorized, calculation.rows, mode) && ValuesKnown(calculation, mode)
  }

  ghost predicate IsMet(value: Option<bool>) {
    value.Some? && value.value
  }

  /** The cost meets its target and, where the quantity counts too, the quantity meets its own. */
  ghost predicate Meets(calculation: Calculation, mode: Mode) {
    IsMet(calculation.cost) && (mode == QuantityCost ==> IsMet(calculation.quantity))
  }

  lemma ModesAre(authorized: map<string, Choice>, rows: set<string>, mode: Mode)
    requires forall row :: row in rows ==> Accepted(authorized, row)
    ensures ModesOf(authorized, rows) == {mode} <==> OneMode(authorized, rows, mode)
  {
    if ModesOf(authorized, rows) == {mode} {
      assert mode in ModesOf(authorized, rows);
      forall row | row in rows ensures authorized[row].mode == mode {
        assert authorized[row].mode in ModesOf(authorized, rows);
      }
    }
    if OneMode(authorized, rows, mode) {
      HasText(rows);
      var row :| row in rows;
      assert authorized[row].mode in ModesOf(authorized, rows);
    }
  }

  /** Why a calculation has no verdict. */
  ghost predicate Undecided(authorized: map<string, Choice>, calculation: Calculation, failure: Failure) {
    match failure
    case SourceIdentityAmbiguous => exists row :: row in calculation.rows && !Accepted(authorized, row)
    case CategoryAmbiguous =>
      && (forall row :: row in calculation.rows ==> Accepted(authorized, row))
      && (forall mode :: !OneMode(authorized, calculation.rows, mode))
    case TargetValueUnavailable =>
      exists mode :: OneMode(authorized, calculation.rows, mode) && !ValuesKnown(calculation, mode)
  }

  lemma OnlyOneMode(authorized: map<string, Choice>, rows: set<string>, mode: Mode)
    requires OneMode(authorized, rows, mode)
    ensures forall other :: ModesOf(authorized, rows) == {other} <==> other == mode
  {
    ModesAre(authorized, rows, mode);
    assert mode in ModesOf(authorized, rows);
  }

  lemma MatchMeans(calculation: Calculation, mode: Mode)
    ensures MatchesTarget(calculation, mode) ==
      if ValuesKnown(calculation, mode) then Ok(Meets(calculation, mode)) else Err(TargetValueUnavailable)
  {
  }

  /** A verdict is reached exactly over one mode and known values, and tells whether the targets are met. */
  lemma VerdictMeans(authorized: map<string, Choice>, calculation: Calculation)
    ensures Verdict(authorized, calculation).Ok? <==> Decided(authorized, calculation)
    ensures forall mode :: OneMode(authorized, calculation.rows, mode) && ValuesKnown(calculation, mode) ==>
      Verdict(authorized, calculation) == Ok(Meets(calculation, mode))
    ensures forall failure :: Verdict(authorized, calculation) == Err(failure) <==>
      Undecided(authorized, calculation, failure)
  {
    if forall row :: row in calculation.rows ==> Accepted(authorized, row) {
      ModesAre(authorized, calculation.rows, QuantityCost);
      ModesAre(authorized, calculation.rows, CostOnly);
      forall mode | OneMode(authorized, calculation.rows, mode)
        ensures Verdict(authorized, calculation) == MatchesTarget(calculation, mode)
        ensures if ValuesKnown(calculation, mode) then Verdict(authorized, calculation) == Ok(Meets(calculation, mode))
                else Verdict(authorized, calculation) == Err(TargetValueUnavailable)
      {
        OnlyOneMode(authorized, calculation.rows, mode);
        MatchMeans(calculation, mode);
      }
    } else {
      assert forall mode :: !OneMode(authorized, calculation.rows, mode);
    }
  }

  ghost predicate Misses(authorized: map<string, Choice>, written: seq<Calculation>, n: nat, row: string)
    requires n <= |written|
  {
    exists i :: 0 <= i < n && row in written[i].rows && Verdict(authorized, written[i]) == Ok(false)
  }

  /** A row passes when it is accepted and every calculation that draws on it meets the targets of its mode. */
  ghost predicate Passes(authorized: map<string, Choice>, written: seq<Calculation>, row: string) {
    && Accepted(authorized, row)
    && forall i :: 0 <= i < |written| && row in written[i].rows ==> Meets(written[i], authorized[row].mode)
  }

  lemma PassesOrMisses(authorized: map<string, Choice>, written: seq<Calculation>, row: string)
    requires AllDecided(authorized, written, |written|) && Accepted(authorized, row)
    ensures Passes(authorized, written, row) <==> !Misses(authorized, written, |written|, row)
  {
    forall i | 0 <= i < |written| && row in written[i].rows
      ensures Verdict(authorized, written[i]) == Ok(Meets(written[i], authorized[row].mode))
    {
      VerdictMeans(authorized, written[i]);
    }
  }

  ghost predicate AllDecided(authorized: map<string, Choice>, written: seq<Calculation>, n: nat)
    requires n <= |written|
  {
    forall i :: 0 <= i < n ==> Decided(authorized, written[i])
  }

  ghost predicate FirstUndecided(authorized: map<string, Choice>, written: seq<Calculation>, i: nat, failure: Failure)
    requires i < |written|
  {
    AllDecided(authorized, written, i) && Undecided(authorized, written[i], failure)
  }

  /** What the loop has failed: rows that nothing accepts, and those of calculations that miss their target. */
  ghost predicate FailedBy(rows: set<string>, authorized: map<string, Choice>, written: seq<Calculation>, n: nat,
                           failed: set<string>)
    requires n <= |written|
  {
    && failed <= rows
    && forall row :: row in rows ==>
         (row in failed <==> !Accepted(authorized, row) || Misses(authorized, written, n, row))
  }

  lemma FailedIsNotPassed(rows: set<string>, authorized: map<string, Choice>, written: seq<Calculation>,
                          failed: set<string>)
    requires FailedBy(rows, authorized, written, |written|, failed) && AllDecided(authorized, written, |written|)
    ensures forall row :: row in rows ==> (row in failed <==> !Passes(authorized, written, row))
  {
    forall row | row in rows ensures row in failed <==> !Passes(authorized, written, row) {
      if Accepted(authorized, row) {
        PassesOrMisses(authorized, written, row);
      }
    }
  }

  /**
   Fails the rows that nothing accepts and those of a calculation that misses its target. The first
   calculation without a verdict ends it, unless no row is accepted at all.
   */
  method FailedRows(rows: set<string>, authorized: map<string, Choice>, written: seq<Calculation>)
    returns (r: Result<set<string>, Failure>)
    requires authorized.Keys <= rows
    ensures r.Ok? <==>
      || (forall row :: !Accepted(authorized, row))
      || AllDecided(authorized, written, |written|)
    ensures (forall row :: !Accepted(authorized, row)) ==> r == Ok(rows)
    ensures r.Ok? && (exists row :: Accepted(authorized, row)) ==>
      r.value <= rows && forall row :: row in rows ==> (row in r.value <==> !Passes(authorized, written, row))
    ensures r.Err? ==> exists i :: 0 <= i < |written| && FirstUndecided(authorized, written, i, r.error)
  {
    var accepted := set row | row in authorized && authorized[row].Accept?;
    var failed := (rows - authorized.Keys) + (authorized.Keys - accepted);
    NoneMissed(rows, authorized, written, accepted, failed);
    if accepted == {} {
      return Ok(failed);
    }
    var i := 0;
    while i < |written|
      invariant 0 <= i <= |written|
      invariant AllDecided(authorized, written, i)
      invariant FailedBy(rows, authorized, written, i, failed)
    {
      var verdict := Verdict(authorized, written[i]);
      VerdictDecides(authorized, written, i);
      if verdict.Err? {
        return Err(verdict.error);
      }
      FailedStep(rows, authorized, written, i, failed);
      if !verdict.value {
        failed := failed + written[i].rows;
      }
      i := i + 1;
    }
    FailedIsNotPassed(rows, authorized, written, failed);
    r := Ok(failed);
  }

  lemma FailedStep(rows: set<string>, authorized: map<string, Choice>, written: seq<Calculation>, i: nat,
                   failed: set<string>)
    requires authorized.Keys <= rows && i < |written| && FailedBy(rows, authorized, written, i, failed)
    requires Verdict(authorized, written[i]).Ok?
    ensures FailedBy(rows, authorized, written, i + 1,
                     if Verdict(authorized, written[i]).value then failed else failed + written[i].rows)
  {
    DrawsOnAccepted(authorized, written[i]);
    MissesStep(authorized, written, i);
  }

  lemma NoneMissed(rows: set<string>, authorized: map<string, Choice>, written: seq<Calculation>, accepted: set<string>,
                   failed: set<string>)
    requires authorized.Keys <= rows && failed == (rows - authorized.Keys) + (authorized.Keys - accepted)
    requires forall row :: row in accepted <==> Accepted(authorized, row)
    ensures FailedBy(rows, authorized, written, 0, failed)
    ensures if accepted == {} then failed == rows else exists row :: Accepted(authorized, row)
  {
    if accepted == {} {
      assert forall row :: row in authorized ==> row !in accepted;
    } else {
      HasText(accepted);
      assert forall row :: row in accepted ==> Accepted(authorized, row);
    }
  }

  lemma VerdictDecides(authorized: map<string, Choice>, written: seq<Calculation>, i: nat)
    requires i < |written| && AllDecided(authorized, written, i)
    ensures Verdict(authorized, written[i]).Ok? ==> AllDecided(authorized, written, i + 1)
    ensures Verdict(authorized, written[i]).Err? ==>
      !Decided(authorized, written[i]) && FirstUndecided(authorized, written, i, Verdict(authorized, written[i]).error)
  {
    VerdictMeans(authorized, written[i]);
  }

  lemma DrawsOnAccepted(authorized: map<string, Choice>, calculation: Calculation)
    requires Verdict(authorized, calculation).Ok?
    ensures calculation.rows <= authorized.Keys
  {
  }

  lemma MissesStep(authorized: map<string, Choice>, written: seq<Calculation>, i: nat)
    requires i < |written|
    ensures forall r :: Misses(authorized, written, i + 1, r) <==>
      Misses(authorized, written, i, r) || (r in written[i].rows && Verdict(authorized, written[i]) == Ok(false))
  {
  }
}
