/**
 The two service methods that apply a review and recover a job, written as they
 run, with a fault chosen for every operation that can fail. Whatever the faults,
 what they do is a run of the apply protocol, so its results hold of them.
 */
module AdminPanelService {
  import opened ApplyProtocol
  import opened FeedbackStore
  import opened Outcomes

  /** A write of a manifest works, or raises without or with the file replaced. */
  datatype Write = Written | RaisedBefore | RaisedAfter

  /**
   What the operations of one apply do: `admitted` when a ready result verifies or a
   review is complete, and `work` is `None` when something raises before there is a plan.
   */
  datatype ApplyFaults = ApplyFaults(
    admitted: bool, saveApplying: Write, work: Option<Work>, deleted: bool, savePlan: Write,
    artifactsOk: bool, commitRaises: bool, saveReady: Write)

  /** What the operations of one recovery do; `work` is the plan rebuilt from the uploads, if it can be rebuilt. */
  datatype RecoveryFaults = RecoveryFaults(verified: bool, work: Option<Work>, artifactsOk: bool, commitRaises: bool,
                                           save: Write)

  /** Nothing fails. */
  predicate Faultless(f: ApplyFaults) {
    && f.admitted && f.work.Some? && f.artifactsOk && !f.commitRaises
    && f.saveApplying == f.savePlan == f.saveReady == Written
  }

  /** The apply gets as far as its commit. */
  predicate Reaches(f: ApplyFaults) {
    f.saveApplying == Written && f.work.Some? && f.savePlan == Written
  }

  predicate Commits(planOf: Planner, store: Store, f: ApplyFaults) {
    && f.work.Some? && !f.commitRaises
    && OutcomeOf(planOf, store, f.work.value, f.artifactsOk) in {Committed, Replay}
  }

  /**
   Until there is a plan, an exception once the applying manifest is saved fails the job; with one
   it stays applying.
   */
  function LeftInMemory(planOf: Planner, f: ApplyFaults, ok: bool): Option<AdminJob> {
    if ok then Holding(Ready)
    else if f.saveApplying != Written then Holding(Applying)
    else if f.work.None? then Holding(Failed)
    else Some(AdminJob(Applying, Some(planOf(f.work.value))))
  }

  /** The last manifest that was written, even if its write raised; a failed job's is deleted when that works. */
  function LeftOnDisk(planOf: Planner, f: ApplyFaults, before: Manifest, committed: bool): Manifest {
    if f.saveApplying == RaisedBefore then before
    else if f.saveApplying == Written && f.work.None? && f.deleted then Absent
    else if f.saveApplying == RaisedAfter || f.work.None? || f.savePlan == RaisedBefore then Stored(Applying, None)
    else if f.savePlan == RaisedAfter || !committed || f.saveReady == RaisedBefore
    then Stored(Applying, Some(planOf(f.work.value)))
    else Stored(Ready, None)
  }

  predicate HoldsPlan(disk: Manifest) {
    disk.Stored? && disk.status == Applying && disk.plan.Some?
  }

  /** The recovery commits: the manifest holds a plan, and the rebuilt work has that plan. */
  predicate Replays(planOf: Planner, disk: Manifest, f: RecoveryFaults) {
    f.verified && HoldsPlan(disk) && f.work.Some? && planOf(f.work.value) == disk.plan.value
  }

  predicate Unhindered(f: RecoveryFaults) {
    f.artifactsOk && !f.commitRaises && f.save == Written
  }

  /** The job comes back: its manifest is not a failed one, and a plan it holds was committed. */
  predicate Registers(planOf: Planner, store: Store, disk: Manifest, f: RecoveryFaults) {
    && f.verified && disk.Stored? && disk.status != Failed
    && (HoldsPlan(disk) ==>
          && Replays(planOf, disk, f) && !f.commitRaises
          && OutcomeOf(planOf, store, f.work.value, f.artifactsOk) in {Committed, Replay})
  }

  lemma RunGrows(planOf: Planner, run: seq<Service>, actions: seq<Action>, action: Action, next: Service)
    requires IsRun(planOf, run, actions) && Next(planOf, run[|run| - 1], action, next)
    ensures IsRun(planOf, run + [next], actions + [action])
  {
  }

  class AdminPanelService {
    const planOf: Planner
    var state: Service
    ghost var run: seq<Service>
    ghost var actions: seq<Action>

    /** The state is the last one of a run of the protocol. */
    ghost predicate Valid()
      reads this
    {
      IsRun(planOf, run, actions) && run[|run| - 1] == state
    }

    constructor (planOf: Planner)
      ensures Valid() && this.planOf == planOf && state == START
    {
      this.planOf, state, run, actions := planOf, START, [START], [];
    }

    function JobOf(id: string): JobState
      reads this
    {
      StateOf(state, id)
    }

    /** Everything but one job stays as it was. */
    twostate predicate OnlyJob(id: string)
      reads this
    {
      && state.jobs.Keys == old(state.jobs.Keys) + {id}
      && forall other :: other in old(state.jobs) && other != id ==> state.jobs[other] == old(state.jobs)[other]
    }

    method Take(ghost action: Action, next: Service)
      requires Valid() && Next(planOf, state, action, next)
      modifies this
      ensures Valid() && state == next
    {
      RunGrows(planOf, run, actions, action, next);
      state := next;
      run, actions := run + [next], actions + [action];
    }

    method Move(id: string, to: JobState)
      requires Valid() && LocalStep(planOf, id, JobOf(id), to)
      modifies this
      ensures Valid() && JobOf(id) == to && OnlyJob(id)
      ensures state.store == old(state.store) && state.log == old(state.log)
    {
      Take(Local(id, to),
           state.(jobs := state.jobs[id := to], planned := state.planned + NewlyPlanned(planOf, JobOf(id), to)));
    }

    /** Writes the manifest the operation in flight is about to write. */
    method Persist(id: string, write: Write) returns (ok: bool)
      requires Valid() && Writing(planOf, JobOf(id).pc).Some?
      modifies this
      ensures Valid() && OnlyJob(id) && ok == (write == Written)
      ensures state.store == old(state.store) && state.log == old(state.log)
      ensures JobOf(id).memory == old(JobOf(id)).memory
      ensures JobOf(id).pc == if ok then AfterWriting(old(JobOf(id)).pc) else Idle
      ensures JobOf(id).disk ==
        if write == RaisedBefore then old(JobOf(id)).disk else Writing(planOf, old(JobOf(id)).pc).value
    {
      var j := JobOf(id);
      var manifest := Writing(planOf, j.pc).value;
      ok := write == Written;
      Move(id, JobState(if write == RaisedBefore then j.disk else manifest, j.memory,
                        if ok then AfterWriting(j.pc) else Idle));
    }

    /** Commits the work in flight; raising may come before or after the transaction took hold. */
    method CommitFeedback(id: string, artifactsOk: bool, raises: bool) returns (ok: bool)
      requires Valid() && id in state.jobs && AtCommit(JobOf(id).pc)
      modifies this
      ensures Valid() && OnlyJob(id)
      ensures JobOf(id).disk == old(JobOf(id)).disk && JobOf(id).memory == old(JobOf(id)).memory
      ensures JobOf(id).pc ==
        if !ok then Idle else if old(JobOf(id)).pc.Committing? then SaveReady else Registering(Ready)
      ensures state.store == CommitWork(planOf, old(state.store), old(JobOf(id)).pc.work, artifactsOk)
      ensures ok <==>
        !raises && OutcomeOf(planOf, old(state.store), old(JobOf(id)).pc.work, artifactsOk) in {Committed, Replay}
      ensures Binds(planOf) && artifactsOk && !raises ==> ok
      ensures Binds(planOf) && ok ==> CommitsOf(state.log, id) == [old(JobOf(id)).pc.work]
    {
      if Binds(planOf) {
        RunKeepsInvariant(planOf, run, actions, |run| - 1);
        CommitTakesHold(planOf, state, id, artifactsOk);
      }
      var j := JobOf(id);
      var work := j.pc.work;
      var outcome := OutcomeOf(planOf, state.store, work, artifactsOk);
      ok := !raises && outcome in {Committed, Replay};
      var to := j.(pc := if !ok then Idle else if j.pc.Committing? then SaveReady else Registering(Ready));
      Take(Commit(id, to, artifactsOk), state.(
        jobs := state.jobs[id := to],
        store := CommitWork(planOf, state.store, work, artifactsOk),
        log := if outcome == Committed then state.log + [work] else state.log));
    }

    /**
     Applies a completed review. Without a fault the job's work is committed, once, and the job is
     ready; it returns in no other case, and what it leaves behind is known for every fault.
     */
    method ApplyReconciliation(id: string, faults: ApplyFaults) returns (ok: bool)
      requires Valid() && id in state.jobs && JobOf(id).pc == Idle
      requires faults.work.Some? ==> faults.work.value.content.jobId == id
      modifies this
      ensures Valid() && OnlyJob(id) && JobOf(id).pc == Idle
      ensures ok ==> InMemory(JobOf(id), Ready)
      ensures ok && Binds(planOf) ==> |CommitsOf(state.log, id)| == 1
      ensures !faults.admitted || !old(InMemory(JobOf(id), ReviewRequired)) ==>
        state == old(state) && ok == (faults.admitted && old(InMemory(JobOf(id), Ready)))
      ensures faults.admitted && old(InMemory(JobOf(id), ReviewRequired)) ==>
        && ok == (Reaches(faults) && Commits(planOf, old(state.store), faults) && faults.saveReady == Written)
        && JobOf(id).memory == LeftInMemory(planOf, faults, ok)
        && JobOf(id).disk ==
           LeftOnDisk(planOf, faults, old(JobOf(id)).disk, Commits(planOf, old(state.store), faults))
        && state.store == if Reaches(faults)
           then CommitWork(planOf, old(state.store), faults.work.value, faults.artifactsOk) else old(state.store)
      ensures Binds(planOf) && Faultless(faults) && old(InMemory(JobOf(id), ReviewRequired)) ==>
        && ok && CommitsOf(state.log, id) == [faults.work.value]
        && JobOf(id) == JobState(Stored(Ready, None), Holding(Ready), Idle)
    {
      if !faults.admitted {
        return false;
      }
      if InMemory(JobOf(id), Ready) {
        ReadyIsAppliedOnce(id);
        return true;
      }
      if !InMemory(JobOf(id), ReviewRequired) {
        return false;
      }
      Move(id, JobOf(id).(memory := Holding(Applying), pc := SaveApplying));
      ok := Persist(id, faults.saveApplying);
      if !ok {
        return;
      }
      if faults.work.None? {
        Move(id, JobState(if faults.deleted then Absent else JobOf(id).disk, Holding(Failed), Idle));
        return false;
      }
      ok := ApplyPlanned(id, faults.work.value, faults);
      if ok {
        ReadyIsAppliedOnce(id);
      }
    }

    /** From the computed work on: the plan is saved, then committed, then the ready manifest is saved. */
    method ApplyPlanned(id: string, work: Work, faults: ApplyFaults) returns (ok: bool)
      requires Valid() && id in state.jobs && JobOf(id).pc == Computing && work.content.jobId == id
      requires JobOf(id).disk == Stored(Applying, None) && faults.work == Some(work) && faults.saveApplying == Written
      modifies this
      ensures Valid() && OnlyJob(id) && JobOf(id).pc == Idle
      ensures ok == (Reaches(faults) && Commits(planOf, old(state.store), faults) && faults.saveReady == Written)
      ensures JobOf(id).memory == LeftInMemory(planOf, faults, ok)
      ensures JobOf(id).disk == LeftOnDisk(planOf, faults, Absent, Commits(planOf, old(state.store), faults))
      ensures state.store ==
        if Reaches(faults) then CommitWork(planOf, old(state.store), work, faults.artifactsOk) else old(state.store)
      ensures Binds(planOf) && faults.artifactsOk && !faults.commitRaises && Reaches(faults) ==>
        Commits(planOf, old(state.store), faults) && CommitsOf(state.log, id) == [work]
    {
      Move(id, JobOf(id).(memory := Some(AdminJob(Applying, Some(planOf(work)))), pc := SavePlan(work)));
      ok := Persist(id, faults.savePlan);
      if !ok {
        return;
      }
      ok := CommitFeedback(id, faults.artifactsOk, faults.commitRaises);
      if !ok {
        return;
      }
      ok := Persist(id, faults.saveReady);
      if !ok {
        return;
      }
      Move(id, JobOf(id).(memory := Holding(Ready), pc := Idle));
    }

    lemma ReadyIsAppliedOnce(id: string)
      requires Valid() && id in state.jobs && InMemory(JobOf(id), Ready)
      ensures Binds(planOf) ==> |CommitsOf(state.log, id)| == 1
    {
      if Binds(planOf) {
        AppliedExactlyOnce(planOf, run, actions, |run| - 1, id);
      }
    }

    /**
     Brings a job that is not in memory back from its manifest. A recovery that gives up
     before registering the job leaves its manifest alone, to be tried again; one that replays
     a plan leaves the job ready and its work committed once.
     */
    method RecoverManifest(id: string, faults: RecoveryFaults) returns (ok: bool)
      requires Valid() && id in state.jobs && JobOf(id).pc == Idle && JobOf(id).memory == None && JobOf(id).disk.Stored?
      requires faults.work.Some? ==> faults.work.value.content.jobId == id
      modifies this
      ensures Valid() && OnlyJob(id) && JobOf(id).pc == Idle
      ensures var disk := old(JobOf(id)).disk;
        var registered := Registers(planOf, old(state.store), disk, faults);
        && ok == (registered && faults.save == Written)
        && JobOf(id).memory == (if registered then Holding(RecoveredAs(disk)) else None)
        && JobOf(id).disk ==
           (if registered && faults.save != RaisedBefore then Stored(RecoveredAs(disk), None) else disk)
        && state.store == (if Replays(planOf, disk, faults)
           then CommitWork(planOf, old(state.store), faults.work.value, faults.artifactsOk) else old(state.store))
      ensures InMemory(JobOf(id), Ready) && Binds(planOf) ==> |CommitsOf(state.log, id)| == 1
      ensures Binds(planOf) && Replays(planOf, old(JobOf(id)).disk, faults) && Unhindered(faults) ==>
        && ok && CommitsOf(state.log, id) == [faults.work.value]
        && JobOf(id) == JobState(Stored(Ready, None), Holding(Ready), Idle)
    {
      if !faults.verified || JobOf(id).disk.status == Failed {
        return false;
      }
      ok := RecoverApplying(id, faults);
      if !ok {
        return;
      }
      Move(id, JobOf(id).(memory := Holding(JobOf(id).pc.status), pc := SaveRecovered(JobOf(id).pc.status)));
      ok := Persist(id, faults.save);
      if InMemory(JobOf(id), Ready) {
        ReadyIsAppliedOnce(id);
      }
    }

    /** Decides what the job is registered as; an applying manifest with a plan is replayed first. */
    method RecoverApplying(id: string, faults: RecoveryFaults) returns (ok: bool)
      requires Valid() && id in state.jobs && JobOf(id).pc == Idle && JobOf(id).memory == None
      requires JobOf(id).disk.Stored? && JobOf(id).disk.status != Failed && faults.verified
      requires faults.work.Some? ==> faults.work.value.content.jobId == id
      modifies this
      ensures Valid() && OnlyJob(id) && JobOf(id).memory == None && JobOf(id).disk == old(JobOf(id)).disk
      ensures ok == Registers(planOf, old(state.store), old(JobOf(id)).disk, faults)
      ensures JobOf(id).pc == if ok then Registering(RecoveredAs(old(JobOf(id)).disk)) else Idle
      ensures state.store == if Replays(planOf, old(JobOf(id)).disk, faults)
        then CommitWork(planOf, old(state.store), faults.work.value, faults.artifactsOk) else old(state.store)
      ensures Binds(planOf) && faults.artifactsOk && !faults.commitRaises ==>
        (Replays(planOf, old(JobOf(id)).disk, faults) ==> ok && CommitsOf(state.log, id) == [faults.work.value])
    {
      var disk := JobOf(id).disk;
      if disk.status != Applying || disk.plan.None? {
        Move(id, JobOf(id).(pc := Registering(RecoveredAs(disk))));
        return true;
      }
      if faults.work.None? || planOf(faults.work.value) != disk.plan.value {
        return false;
      }
      Move(id, JobOf(id).(pc := Replaying(faults.work.value)));
      ok := CommitFeedback(id, faults.artifactsOk, faults.commitRaises);
    }
  }
}
