/**
 Reviewing drawing-card rows one by one and in clusters: fanning one choice out
 to a cluster, taking it back, and carrying choices over a restart.
 */
module ClusterReview {
  import opened Outcomes

  datatype Action = Approve | Reject | ChangeCategory | QuantityOnly | CostOnly | Skip

  datatype Approval = Approval(rowId: string, action: Action, category: Option<string>)

  predicate NeedsCategory(action: Action)
    ensures NeedsCategory(action) <==> !action.Reject? && !action.Skip?
  {
    action in {Approve, ChangeCategory, QuantityOnly, CostOnly}
  }

  predicate Given(category: Option<string>) {
    category.Some? && category.value != ""
  }

  /**
   A checked approval; `action` is `None` for an unsupported one, and `targets` are the controlled
   categories. Only a rejection or a skip may go without a category.
   */
  function CheckedApproval(targets: set<string>, rowId: string, action: Option<Action>,
                           category: Option<string>): (r: Option<Approval>)
    ensures r.Some? <==>
      && action.Some?
      && if category.None? || category.value == ""
         then action.value.Reject? || action.value.Skip?
         else category.value in targets
    ensures r.Some? ==>
      r.value == Approval(rowId, action.value, if category.None? || category.value == "" then None else category)
  {
    if action.None? || (NeedsCategory(action.value) && !Given(category)) then None
    else if Given(category) && category.value !in targets then None
    else Some(Approval(rowId, action.value, if Given(category) then category else None))
  }

  /** A cluster's id is a digest over its members, so the id is also its version. */
  datatype Cluster = Cluster(members: set<string>, category: Option<string>)

  /** One generation of review items and the clusters that partition them. */
  datatype Page = Page(items: set<string>, clusters: map<string, Cluster>, clusterOf: map<string, string>,
                       targets: set<string>)

  ghost predicate WellFormed(page: Page) {
    && page.items == page.clusterOf.Keys
    && (forall r :: r in page.clusterOf ==>
          page.clusterOf[r] in page.clusters && r in page.clusters[page.clusterOf[r]].members)
    && (forall c, r :: c in page.clusters && r in page.clusters[c].members ==>
          r in page.clusterOf && page.clusterOf[r] == c)
  }

  type Approvals = map<string, Approval>

  type Actions = map<string, map<string, Approval>>

  /** One choice for every member, when it is allowed for all of them; the cluster's own category fills in. */
  function ClusterApprovals(page: Page, cluster: Cluster, action: Option<Action>,
                            category: Option<string>): (r: Option<Approvals>)
    ensures var chosen := if category.None? || category.value == "" then cluster.category else category;
      && (r.Some? <==> forall m :: m in cluster.members ==> CheckedApproval(page.targets, m, action, chosen).Some?)
      && (r.Some? ==> r.value.Keys == cluster.members)
      && (r.Some? ==> forall m :: m in cluster.members ==>
            Some(r.value[m]) == CheckedApproval(page.targets, m, action, chosen))
  {
    var selected := if Given(category) then category else cluster.category;
    if forall m :: m in cluster.members ==> CheckedApproval(page.targets, m, action, selected).Some?
    then Some(map m | m in cluster.members :: CheckedApproval(page.targets, m, action, selected).value)
    else None
  }

  /** A recorded action covers its whole cluster and is what every member says now. */
  predicate ActionHolds(page: Page, approvals: Approvals, id: string, recorded: Approvals) {
    && id in page.clusters
    && recorded.Keys == page.clusters[id].members
    && forall m :: m in recorded ==> m in approvals && approvals[m] == recorded[m]
  }

  ghost predicate Agrees(page: Page, approvals: Approvals, actions: Actions) {
    && approvals.Keys <= page.items
    && forall id :: id in actions ==> ActionHolds(page, approvals, id, actions[id])
  }

  /** What a restart keeps: approvals of current items, and the actions that still hold. */
  function KeptApprovals(page: Page, saved: Approvals): Approvals {
    map r | r in saved && r in page.items :: saved[r]
  }

  function KeptActions(page: Page, approvals: Approvals, saved: Actions): Actions {
    map id | id in saved && ActionHolds(page, approvals, id, saved[id]) :: saved[id]
  }

  /** Whatever was saved, what a restart keeps agrees; and when the page did not change, it keeps everything. */
  lemma RecoveryAgrees(page: Page, savedApprovals: Approvals, savedActions: Actions)
    ensures var kept := KeptApprovals(page, savedApprovals);
      Agrees(page, kept, KeptActions(page, kept, savedActions))
    ensures Agrees(page, savedApprovals, savedActions) ==>
      && KeptApprovals(page, savedApprovals) == savedApprovals
      && KeptActions(page, savedApprovals, savedActions) == savedActions
  {
  }

  datatype Outcome = Refused | Made | SaveFailed

  class DrawingCardReview {
    var page: Page
    var reviewRequired: bool
    var approvals: Approvals
    var actions: Actions

    ghost predicate Valid()
      reads this
    {
      WellFormed(page) && Agrees(page, approvals, actions)
    }

    constructor (page: Page)
      requires WellFormed(page)
      ensures Valid() && this.page == page && reviewRequired && approvals == map[] && actions == map[]
    {
      this.page := page;
      reviewRequired, approvals, actions := true, map[], map[];
    }

    twostate predicate Same()
      reads this
    {
      && approvals == old(approvals) && actions == old(actions)
      && page == old(page) && reviewRequired == old(reviewRequired)
    }

    /** Saves the job; a failed save puts both maps back. */
    method PersistMutation(saves: bool, before: Approvals, beforeActions: Actions) returns (outcome: Outcome)
      modifies this`approvals, this`actions
      ensures outcome == if saves then Made else SaveFailed
      ensures saves ==> approvals == old(approvals) && actions == old(actions)
      ensures !saves ==> approvals == before && actions == beforeActions
    {
      if saves {
        return Made;
      }
      approvals, actions := before, beforeActions;
      outcome := SaveFailed;
    }

    /** Fans one choice out to the exact current cluster. */
    method PutCluster(id: string, version: string, action: Option<Action>, category: Option<string>, saves: bool)
      returns (outcome: Outcome)
      requires Valid()
      modifies this`approvals, this`actions
      ensures Valid()
      ensures outcome != Refused <==>
        && id == version && id in page.clusters && reviewRequired
        && ClusterApprovals(page, page.clusters[id], action, category).Some?
      ensures outcome == Made ==> var fan := ClusterApprovals(page, page.clusters[id], action, category).value;
        approvals == old(approvals) + fan && actions == old(actions)[id := fan]
      ensures outcome != Refused ==> outcome == if saves then Made else SaveFailed
      ensures outcome != Made ==> Same()
    {
      if id != version || id !in page.clusters || !reviewRequired {
        return Refused;
      }
      var fan := ClusterApprovals(page, page.clusters[id], action, category);
      if fan.None? {
        return Refused;
      }
      FanningAgrees(page, approvals, actions, id, fan.value);
      var before, beforeActions := approvals, actions;
      approvals, actions := approvals + fan.value, actions[id := fan.value];
      outcome := PersistMutation(saves, before, beforeActions);
    }

    /**
     Takes a cluster's choice back: exactly its members lose their approvals. The
     members are compared with what was recorded, but as long as the action is
     recorded they always agree.
     */
    method UndoCluster(id: string, version: string, saves: bool) returns (outcome: Outcome)
      requires Valid()
      modifies this`approvals, this`actions
      ensures Valid()
      ensures outcome != Refused <==> id == version && id in page.clusters && id in old(actions)
      ensures outcome == Made ==>
        approvals == old(approvals) - page.clusters[id].members && actions == old(actions) - {id}
      ensures outcome != Refused ==> outcome == if saves then Made else SaveFailed
      ensures outcome != Made ==> Same()
    {
      if id != version || id !in page.clusters {
        return Refused;
      }
      if id !in actions || actions[id].Keys != page.clusters[id].members {
        return Refused;
      }
      if exists m :: m in actions[id] && (m !in approvals || approvals[m] != actions[id][m]) {
        return Refused;
      }
      UndoingAgrees(page, approvals, actions, id);
      var before, beforeActions := approvals, actions;
      approvals, actions := approvals - page.clusters[id].members, actions - {id};
      outcome := PersistMutation(saves, before, beforeActions);
    }

    /** Replaces one decision; every recorded action that covers the row is discarded. */
    method PutItem(id: string, action: Option<Action>, category: Option<string>, version: Option<string>, saves: bool)
      returns (outcome: Outcome)
      requires Valid()
      modifies this`approvals, this`actions
      ensures Valid()
      ensures outcome != Refused <==>
        && reviewRequired && id in page.items
        && (version.Some? ==> version.value == page.clusterOf[id])
        && CheckedApproval(page.targets, id, action, category).Some?
      ensures outcome == Made ==>
        approvals == old(approvals)[id := CheckedApproval(page.targets, id, action, category).value]
      ensures outcome == Made ==> actions == old(actions) - {page.clusterOf[id]}
      ensures outcome != Refused ==> outcome == if saves then Made else SaveFailed
      ensures outcome != Made ==> Same()
    {
      if !reviewRequired || id !in page.items || (version.Some? && version.value != page.clusterOf[id]) {
        return Refused;
      }
      var approval := CheckedApproval(page.targets, id, action, category);
      if approval.None? {
        return Refused;
      }
      var before, beforeActions := approvals, actions;
      DiscardIsOwnCluster(page, approvals, actions, id);
      EditingAgrees(page, approvals, actions, id, approvals[id := approval.value]);
      approvals, actions := approvals[id := approval.value], Discarded(actions, id);
      outcome := PersistMutation(saves, before, beforeActions);
    }

    method DeleteItem(id: string, saves: bool) returns (outcome: Outcome)
      requires Valid()
      modifies this`approvals, this`actions
      ensures Valid()
      ensures outcome != Refused <==> id in page.items
      ensures outcome == Made ==>
        approvals == old(approvals) - {id} && actions == old(actions) - {page.clusterOf[id]}
      ensures outcome != Refused ==> outcome == if saves then Made else SaveFailed
      ensures outcome != Made ==> Same()
    {
      if id !in page.items {
        return Refused;
      }
      var before, beforeActions := approvals, actions;
      DiscardIsOwnCluster(page, approvals, actions, id);
      EditingAgrees(page, approvals, actions, id, approvals - {id});
      approvals, actions := approvals - {id}, Discarded(actions, id);
      outcome := PersistMutation(saves, before, beforeActions);
    }

    /** A new generation of review items starts without approvals. */
    method Rerun(next: Page)
      requires WellFormed(next)
      modifies this
      ensures Valid() && page == next && reviewRequired && approvals == map[] && actions == map[]
    {
      page, approvals, actions, reviewRequired := next, map[], map[], true;
    }

    /** Publishes a rebuilt page with what still holds of the saved choices. */
    method Recover(next: Page, savedApprovals: Approvals, savedActions: Actions)
      requires WellFormed(next)
      modifies this
      ensures Valid() && page == next && reviewRequired
      ensures approvals == KeptApprovals(next, savedApprovals)
      ensures actions == KeptActions(next, approvals, savedActions)
      ensures Agrees(next, savedApprovals, savedActions) ==> approvals == savedApprovals && actions == savedActions
    {
      RecoveryAgrees(next, savedApprovals, savedActions);
      page, reviewRequired := next, true;
      approvals := KeptApprovals(next, savedApprovals);
      actions := KeptActions(next, approvals, savedActions);
    }
  }

  /** The actions left when every one that covers a row is dropped. */
  function Discarded(actions: Actions, row: string): Actions {
    map id | id in actions && row !in actions[id] :: actions[id]
  }

  /** An edited row is covered by the action of its own cluster and no other. */
  lemma DiscardIsOwnCluster(page: Page, approvals: Approvals, actions: Actions, row: string)
    requires WellFormed(page) && Agrees(page, approvals, actions) && row in page.items
    ensures Discarded(actions, row) == actions - {page.clusterOf[row]}
  {
  }

  lemma EditingAgrees(page: Page, approvals: Approvals, actions: Actions, row: string, after: Approvals)
    requires Agrees(page, approvals, actions) && row in page.items
    requires after.Keys <= approvals.Keys + {row} && forall r :: r in approvals && r != row ==>
      r in after && after[r] == approvals[r]
    ensures Agrees(page, after, Discarded(actions, row))
  {
  }

  lemma FanningAgrees(page: Page, approvals: Approvals, actions: Actions, id: string, fan: Approvals)
    requires WellFormed(page) && Agrees(page, approvals, actions)
    requires id in page.clusters && fan.Keys == page.clusters[id].members
    ensures Agrees(page, approvals + fan, actions[id := fan])
  {
  }

  lemma UndoingAgrees(page: Page, approvals: Approvals, actions: Actions, id: string)
    requires WellFormed(page) && Agrees(page, approvals, actions) && id in page.clusters
    ensures Agrees(page, approvals - page.clusters[id].members, actions - {id})
  {
  }
}
