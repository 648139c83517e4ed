/**
 Applying a reviewed reconciliation exactly once: the durable manifest, the job
 in memory and the feedback store, with an exception or a crash possible at
 every step and recovery repeated any number of times.
 */
module ApplyProtocol {
  import opened FeedbackStore
  import opened Outcomes
  import opened Sorting

  // ----- What an apply binds -----

  /** The hashed content of an apply plan; `facts` stands for its other fields in canonical form. */
  datatype Content = Content(jobId: string, target: string, feedback: seq<Record>, facts: string)

  datatype Calculation = Calculation(targetIdentity: string, catalog: string, calculation: string, rules: string,
                                     actionable: bool)

  /** What `apply_review` hands back: the plan's content, the calculation it is bound to and the output's digest. */
  datatype Work = Work(content: Content, calculation: Calculation, output: string)

  datatype Binding = Binding(baseKey: string, basePlan: string, calculation: Calculation)

  datatype Payload =
    | ApplyKey(content: Content)
    | ApplyPayload(content: Content)
    | CalculatedKey(binding: Binding)
    | CalculatedPlan(binding: Binding)
    | OutputBinding(planHash: string, output: string)

  type Digest = Payload -> string

  ghost predicate Injective(digest: Digest) {
    forall p, q :: digest(p) == digest(q) ==> p == q
  }

  /** The part of an applying manifest that decides a replay. */
  datatype Plan = Plan(key: string, payload: string, output: string)

  function PlanOf(digest: Digest, work: Work): Plan {
    var binding := Bound(digest, work);
    var payload := digest(OutputBinding(digest(CalculatedPlan(binding)), work.output));
    Plan(digest(CalculatedKey(binding)), payload, work.output)
  }

  /** The protocol uses planning only through what the hashes bind. */
  type Planner = Work -> Plan

  ghost predicate Binds(planOf: Planner) {
    && (forall v, w :: planOf(v).key == planOf(w).key ==> v.content == w.content)
    && (forall v, w :: planOf(v).key == planOf(w).key && planOf(v).payload == planOf(w).payload ==> v == w)
  }

  function Bound(digest: Digest, work: Work): Binding {
    Binding(digest(ApplyKey(work.content)), digest(ApplyPayload(work.content)), work.calculation)
  }

  lemma KeyBinds(digest: Digest, v: Work, w: Work)
    requires Injective(digest) && PlanOf(digest, v).key == PlanOf(digest, w).key
    ensures v.content == w.content && v.calculation == w.calculation
  {
  }

  lemma PayloadBinds(digest: Digest, v: Work, w: Work)
    requires Injective(digest) && PlanOf(digest, v).payload == PlanOf(digest, w).payload
    ensures v.output == w.output
  {
  }

  /** With an injective digest the key binds job, target and records, and key and payload bind the whole work. */
  lemma HashesBind(digest: Digest)
    requires Injective(digest)
    ensures Binds(w => PlanOf(digest, w))
  {
    var planOf := w => PlanOf(digest, w);
    forall v, w | planOf(v).key == planOf(w).key ensures v.content == w.content {
      KeyBinds(digest, v, w);
    }
    forall v, w | planOf(v).key == planOf(w).key && planOf(v).payload == planOf(w).payload ensures v == w {
      KeyBinds(digest, v, w);
      PayloadBinds(digest, v, w);
    }
  }

  // ----- Jobs -----

  datatype Status = Pending | Running | ReviewRequired | Applying | Ready | Failed

  datatype Manifest = Absent | Stored(status: Status, plan: Option<Plan>)

  datatype AdminJob = AdminJob(status: Status, plan: Option<Plan>)

  /** Where the operation in flight on a job stands. */
  datatype Pc =
    | Idle
    | SavePending
    | SaveRunning | Executing | SaveReview
    | SaveApplying | Computing | SavePlan(work: Work) | Committing(work: Work) | SaveReady | Publishing
    | Replaying(work: Work) | Registering(status: Status) | SaveRecovered(status: Status)

  datatype JobState = JobState(disk: Manifest, memory: Option<AdminJob>, pc: Pc)

  const NEVER_SEEN := JobState(Absent, None, Idle)

  predicate InMemory(j: JobState, status: Status) {
    j.memory.Some? && j.memory.value.status == status
  }

  function Holding(status: Status): Option<AdminJob> {
    Some(AdminJob(status, None))
  }

  // ----- Steps -----

  /** The manifest an operation is about to write. */
  function Writing(planOf: Planner, pc: Pc): Option<Manifest> {
    match pc
    case SavePending => Some(Stored(Pending, None))
    case SaveRunning => Some(Stored(Running, None))
    case SaveReview => Some(Stored(ReviewRequired, None))
    case SaveApplying => Some(Stored(Applying, None))
    case SavePlan(work) => Some(Stored(Applying, Some(planOf(work))))
    case SaveReady => Some(Stored(Ready, None))
    case SaveRecovered(status) => Some(Stored(status, None))
    case _ => None
  }

  function AfterWriting(pc: Pc): Pc {
    match pc
    case SaveRunning => Executing
    case SaveApplying => Computing
    case SavePlan(work) => Committing(work)
    case SaveReady => Publishing
    case _ => Idle
  }

  /** A manifest write succeeds, or raises with or without having replaced the file. */
  ghost predicate Saves(planOf: Planner, a: JobState, b: JobState) {
    var manifest := Writing(planOf, a.pc);
    && manifest.Some?
    && b.memory == a.memory
    && ((b.disk == manifest.value && b.pc == AfterWriting(a.pc))
        || (b.pc == Idle && b.disk in {a.disk, manifest.value}))
  }

  /** Creating, running and dropping a job; a failed job's manifest is deleted, if the deletion works. */
  ghost predicate Runs(a: JobState, b: JobState) {
    || (a == NEVER_SEEN && b == JobState(Absent, Holding(Pending), SavePending))
    || (a.pc == Idle && (InMemory(a, Pending) || InMemory(a, Failed))
        && b == a.(memory := Holding(Running), pc := SaveRunning))
    || (a.pc == Executing && b == a.(memory := Holding(ReviewRequired), pc := SaveReview))
    || (a.pc == Executing && b.memory in {a.memory, Holding(Failed)} && b.pc == Idle && b.disk in {Absent, a.disk})
    || (a.pc == Idle && a.memory.Some? && a.memory.value.status !in {Applying, Ready}
        && b.memory == None && b.pc == Idle && b.disk in {Absent, a.disk})
    || (a.pc == Idle && (InMemory(a, Ready) || InMemory(a, Failed)) && b == a.(memory := None))
  }

  /** An apply up to the commit and after it; an exception before there is a plan fails the job. */
  ghost predicate Applies(planOf: Planner, id: string, a: JobState, b: JobState) {
    || (a.pc == Idle && InMemory(a, ReviewRequired) && b == a.(memory := Holding(Applying), pc := SaveApplying))
    || (a.pc == Computing && b.pc.SavePlan? && b.pc.work.content.jobId == id
        && b == a.(memory := Some(AdminJob(Applying, Some(planOf(b.pc.work)))), pc := b.pc))
    || (a.pc == Computing && b.memory == Holding(Failed) && b.pc == Idle && b.disk in {Absent, a.disk})
    || (a.pc == Publishing && b == a.(memory := Holding(Ready), pc := Idle))
  }

  /** Recovery of a job that is not in memory, from the manifest it finds. */
  ghost predicate Recovers(planOf: Planner, id: string, a: JobState, b: JobState) {
    || (a.pc == Idle && a.memory == None && a.disk.Stored? && b == a.(pc := b.pc) &&
        match a.disk.status
        case Pending => b.pc == Registering(Failed)
        case Running => b.pc == Registering(Failed)
        case ReviewRequired => b.pc == Registering(ReviewRequired)
        case Ready => b.pc == Registering(Ready)
        case Failed => false
        case Applying =>
          if a.disk.plan.None? then b.pc == Registering(Failed)
          else b.pc.Replaying? && b.pc.work.content.jobId == id && planOf(b.pc.work) == a.disk.plan.value)
    || (a.pc.Registering? && b == a.(memory := Holding(a.pc.status), pc := SaveRecovered(a.pc.status)))
  }

  ghost predicate LocalStep(planOf: Planner, id: string, a: JobState, b: JobState) {
    Saves(planOf, a, b) || Runs(a, b) || Applies(planOf, id, a, b) || Recovers(planOf, id, a, b)
  }

  predicate AtCommit(pc: Pc) {
    pc.Committing? || pc.Replaying?
  }

  /** A commit that was made goes on, or raises all the same; any other outcome raises. */
  ghost predicate CommitStep(a: JobState, b: JobState, outcome: Outcome) {
    && AtCommit(a.pc)
    && b.disk == a.disk && b.memory == a.memory
    && (b.pc == Idle
        || (outcome in {Committed, Replay} && b.pc == if a.pc.Committing? then SaveReady else Registering(Ready)))
  }

  /** The jobs and the store; `log` and `planned` only record what was committed and which plans became durable. */
  datatype Service = Service(jobs: map<string, JobState>, store: Store, log: seq<Work>, planned: set<Work>)

  const START := Service(map[], EMPTY, [], {})

  function StateOf(s: Service, id: string): JobState {
    if id in s.jobs then s.jobs[id] else NEVER_SEEN
  }

  datatype Action = Crash | Local(id: string, to: JobState) | Commit(id: string, to: JobState, artifactsOk: bool)

  function Crashed(j: JobState): JobState {
    JobState(j.disk, None, Idle)
  }

  function NewlyPlanned(planOf: Planner, a: JobState, b: JobState): set<Work> {
    if a.pc.SavePlan? && b.disk == Stored(Applying, Some(planOf(a.pc.work))) then {a.pc.work} else {}
  }

  function OutcomeOf(planOf: Planner, store: Store, work: Work, artifactsOk: bool): Outcome {
    Decide(store, planOf(work).key, planOf(work).payload, artifactsOk)
  }

  /** Committing a piece of work, as the feedback store does it. */
  function CommitWork(planOf: Planner, store: Store, work: Work, artifactsOk: bool): Store {
    var plan := planOf(work);
    FeedbackStore.Commit(store, work.content.target, plan.key, plan.payload, work.content.feedback, artifactsOk)
  }

  ghost predicate Next(planOf: Planner, s: Service, action: Action, t: Service) {
    match action
    case Crash =>
      t == s.(jobs := map id | id in s.jobs :: Crashed(s.jobs[id]))
    case Local(id, to) =>
      && LocalStep(planOf, id, StateOf(s, id), to)
      && t == s.(jobs := s.jobs[id := to], planned := s.planned + NewlyPlanned(planOf, StateOf(s, id), to))
    case Commit(id, to, artifactsOk) =>
      && AtCommit(StateOf(s, id).pc)
      && var work := StateOf(s, id).pc.work;
         var outcome := OutcomeOf(planOf, s.store, work, artifactsOk);
         && CommitStep(StateOf(s, id), to, outcome)
         && t == s.(jobs := s.jobs[id := to],
                    store := CommitWork(planOf, s.store, work, artifactsOk),
                    log := if outcome == Committed then s.log + [work] else s.log)
  }

  // ----- The committed work of a job -----

  ghost function WorkOf(log: seq<Work>, id: string): Option<Work> {
    if log == [] then None
    else if log[|log| - 1].content.jobId == id then Some(log[|log| - 1])
    else WorkOf(log[..|log| - 1], id)
  }

  lemma WorkOfAppend(log: seq<Work>, work: Work, id: string)
    ensures WorkOf(log + [work], id) == if work.content.jobId == id then Some(work) else WorkOf(log, id)
  {
  }

  lemma {:induction false} WorkOfFinds(log: seq<Work>, id: string)
    ensures WorkOf(log, id).Some? ==> WorkOf(log, id).value in log && WorkOf(log, id).value.content.jobId == id
    ensures WorkOf(log, id).None? ==> forall w :: w in log ==> w.content.jobId != id
  {
    if log != [] {
      WorkOfFinds(log[..|log| - 1], id);
      assert log == log[..|log| - 1] + [log[|log| - 1]];
    }
  }

  /** The store after committing the logged works in order. */
  function Replayed(planOf: Planner, log: seq<Work>): Store {
    if log == [] then EMPTY
    else CommitWork(planOf, Replayed(planOf, log[..|log| - 1]), log[|log| - 1], true)
  }

  ghost predicate KeysOf(planOf: Planner, store: Store, log: seq<Work>) {
    && (forall w :: w in log ==> planOf(w).key in store.applies)
    && (forall key :: key in store.applies ==>
          exists w :: w in log && planOf(w).key == key && planOf(w).payload == store.applies[key].payload)
  }

  // ----- The invariant -----

  /** What the memory and the manifest are while an operation is at a step. */
  ghost predicate PcOk(planOf: Planner, id: string, j: JobState) {
    match j.pc
    case Idle => true
    case SavePending => j.memory == Holding(Pending)
    case SaveRunning => j.memory == Holding(Running)
    case Executing => j.memory == Holding(Running)
    case SaveReview => j.memory == Holding(ReviewRequired)
    case SaveApplying => j.memory == Holding(Applying)
    case Computing => j.memory == Holding(Applying)
    case SavePlan(work) => work.content.jobId == id && j.memory == Some(AdminJob(Applying, Some(planOf(work))))
    case Committing(work) =>
      && work.content.jobId == id
      && j.memory == Some(AdminJob(Applying, Some(planOf(work))))
      && j.disk == Stored(Applying, Some(planOf(work)))
    case SaveReady => j.memory.Some? && j.memory.value.plan.Some?
    case Publishing => j.memory.Some? && j.memory.value.plan.Some? && j.disk == Stored(Ready, None)
    case Replaying(work) =>
      && work.content.jobId == id
      && j.memory == None
      && j.disk == Stored(Applying, Some(planOf(work)))
    case Registering(status) => j.memory == None && status != Applying
    case SaveRecovered(status) => j.memory == Holding(status) && status != Applying
  }

  predicate Finishing(pc: Pc) {
    pc in {SaveReady, Publishing, Registering(Ready), SaveRecovered(Ready)}
  }

  /** Before its commit a job is nowhere ready. */
  ghost predicate NotYet(j: JobState) {
    && !(j.disk.Stored? && j.disk.status == Ready)
    && !InMemory(j, Ready)
    && !Finishing(j.pc)
  }

  /** After its commit a job's manifest holds the committed plan or is ready, and nothing else is under way. */
  ghost predicate Done(planOf: Planner, j: JobState, work: Work) {
    && j.disk in {Stored(Applying, Some(planOf(work))), Stored(Ready, None)}
    && j.memory in {None, Holding(Ready), Some(AdminJob(Applying, Some(planOf(work))))}
    && (j.pc == Idle || Finishing(j.pc) || (AtCommit(j.pc) && planOf(j.pc.work) == planOf(work)))
  }

  ghost predicate PlanKnown(planOf: Planner, j: JobState, planned: set<Work>) {
    j.disk.Stored? && j.disk.plan.Some? ==> exists w :: w in planned && planOf(w) == j.disk.plan.value
  }

  ghost predicate JobOk(planOf: Planner, id: string, j: JobState, done: Option<Work>) {
    && PcOk(planOf, id, j)
    && (done.None? ==> NotYet(j))
    && (done.Some? ==> Done(planOf, j, done.value))
  }

  ghost predicate OncePerJob(log: seq<Work>) {
    forall i, j :: 0 <= i < j < |log| ==> log[i].content.jobId != log[j].content.jobId
  }

  ghost predicate JobsOk(planOf: Planner, jobs: map<string, JobState>, log: seq<Work>, planned: set<Work>) {
    && (forall id :: id in jobs ==>
      JobOk(planOf, id, jobs[id], WorkOf(log, id)) && PlanKnown(planOf, jobs[id], planned))
    && (forall w :: w in log ==> w in planned && w.content.jobId in jobs)
  }

  ghost predicate StoreOk(planOf: Planner, store: Store, log: seq<Work>) {
    && OncePerJob(log)
    && KeysOf(planOf, store, log)
    && store == Replayed(planOf, log)
  }

  ghost predicate Invariant(planOf: Planner, s: Service) {
    JobsOk(planOf, s.jobs, s.log, s.planned) && StoreOk(planOf, s.store, s.log)
  }

  // ----- One step -----

  lemma LocalKeepsJob(planOf: Planner, id: string, a: JobState, b: JobState, done: Option<Work>)
    requires JobOk(planOf, id, a, done) && LocalStep(planOf, id, a, b)
    ensures JobOk(planOf, id, b, done)
  {
  }

  lemma CrashKeepsJob(planOf: Planner, id: string, j: JobState, done: Option<Work>)
    requires JobOk(planOf, id, j, done)
    ensures JobOk(planOf, id, Crashed(j), done)
  {
  }

  /** What one commit does to a job and its committed work. */
  lemma CommitKeepsJob(planOf: Planner, id: string, a: JobState, b: JobState, done: Option<Work>, outcome: Outcome)
    requires AtCommit(a.pc) && JobOk(planOf, id, a, done) && CommitStep(a, b, outcome)
    requires outcome == Committed ==> done.None?
    requires outcome == Replay ==> done == Some(a.pc.work)
    ensures JobOk(planOf, id, b, if outcome == Committed then Some(a.pc.work) else done)
  {
  }

  /** The store and the log agree on which of a job's commits is the first. */
  lemma OutcomeTellsDone(planOf: Planner, store: Store, log: seq<Work>, id: string, work: Work, artifactsOk: bool)
    requires Binds(planOf) && KeysOf(planOf, store, log) && OncePerJob(log) && work.content.jobId == id
    requires WorkOf(log, id).Some? ==> planOf(WorkOf(log, id).value) == planOf(work)
    ensures OutcomeOf(planOf, store, work, artifactsOk) == Committed ==> WorkOf(log, id).None?
    ensures OutcomeOf(planOf, store, work, artifactsOk) == Replay ==> WorkOf(log, id) == Some(work)
  {
    WorkOfFinds(log, id);
    if planOf(work).key in store.applies && planOf(work).payload == store.applies[planOf(work).key].payload {
      var w :| w in log && planOf(w).key == planOf(work).key && planOf(w).payload == planOf(work).payload;
      assert w == work;
    }
  }

  lemma KeysGrow(planOf: Planner, store: Store, log: seq<Work>, work: Work, after: Store)
    requires KeysOf(planOf, store, log)
    requires after.applies == store.applies[planOf(work).key := ApplyRow(work.content.target, planOf(work).payload)]
    ensures KeysOf(planOf, after, log + [work])
  {
  }

  lemma OnceGrows(log: seq<Work>, work: Work)
    requires OncePerJob(log) && WorkOf(log, work.content.jobId).None?
    ensures OncePerJob(log + [work])
  {
    WorkOfFinds(log, work.content.jobId);
  }

  lemma LogGrows(planOf: Planner, store: Store, log: seq<Work>, work: Work)
    requires StoreOk(planOf, store, log) && WorkOf(log, work.content.jobId).None?
    requires OutcomeOf(planOf, store, work, true) == Committed
    ensures StoreOk(planOf, CommitWork(planOf, store, work, true), log + [work])
  {
    OnceGrows(log, work);
    KeysGrow(planOf, store, log, work, CommitWork(planOf, store, work, true));
    assert (log + [work])[..|log|] == log;
  }

  lemma CrashKeepsInvariant(planOf: Planner, s: Service, t: Service)
    requires Invariant(planOf, s) && Next(planOf, s, Crash, t)
    ensures Invariant(planOf, t)
  {
    forall id | id in t.jobs ensures JobOk(planOf, id, t.jobs[id], WorkOf(t.log, id)) {
      CrashKeepsJob(planOf, id, s.jobs[id], WorkOf(s.log, id));
    }
  }

  lemma LocalKeepsPlans(planOf: Planner, id: string, a: JobState, b: JobState, planned: set<Work>)
    requires PlanKnown(planOf, a, planned) && LocalStep(planOf, id, a, b)
    ensures PlanKnown(planOf, b, planned + NewlyPlanned(planOf, a, b))
  {
  }

  lemma PlannedGrows(planOf: Planner, j: JobState, planned: set<Work>, more: set<Work>)
    requires PlanKnown(planOf, j, planned) && planned <= more
    ensures PlanKnown(planOf, j, more)
  {
  }

  lemma LocalKeepsInvariant(planOf: Planner, s: Service, id: string, to: JobState, t: Service)
    requires Invariant(planOf, s) && Next(planOf, s, Local(id, to), t)
    ensures Invariant(planOf, t)
  {
    var a := StateOf(s, id);
    WorkOfFinds(s.log, id);
    LocalKeepsJob(planOf, id, a, to, WorkOf(s.log, id));
    LocalKeepsPlans(planOf, id, a, to, s.planned);
    forall other | other in s.jobs ensures PlanKnown(planOf, s.jobs[other], t.planned) {
      PlannedGrows(planOf, s.jobs[other], s.planned, t.planned);
    }
  }

  lemma CommittedWorkIsPlanned(planOf: Planner, a: JobState, work: Work, planned: set<Work>)
    requires Binds(planOf) && PlanKnown(planOf, a, planned) && a.disk == Stored(Applying, Some(planOf(work)))
    ensures work in planned
  {
  }

  lemma FirstCommitKeepsJobs(planOf: Planner, jobs: map<string, JobState>, log: seq<Work>, planned: set<Work>,
                             id: string, b: JobState)
    requires Binds(planOf) && JobsOk(planOf, jobs, log, planned) && id in jobs && AtCommit(jobs[id].pc)
    requires JobOk(planOf, id, b, Some(jobs[id].pc.work)) && b.disk == jobs[id].disk
    ensures JobsOk(planOf, jobs[id := b], log + [jobs[id].pc.work], planned)
  {
    var after, work := jobs[id := b], jobs[id].pc.work;
    CommittedWorkIsPlanned(planOf, jobs[id], work, planned);
    forall other | other in after ensures JobOk(planOf, other, after[other], WorkOf(log + [work], other)) {
      WorkOfAppend(log, work, other);
    }
  }

  lemma OtherOutcomeKeepsJobs(planOf: Planner, jobs: map<string, JobState>, log: seq<Work>, planned: set<Work>,
                              id: string, b: JobState)
    requires JobsOk(planOf, jobs, log, planned) && id in jobs
    requires JobOk(planOf, id, b, WorkOf(log, id)) && b.disk == jobs[id].disk
    ensures JobsOk(planOf, jobs[id := b], log, planned)
  {
  }

  lemma CommitKeepsOneJob(planOf: Planner, store: Store, log: seq<Work>, id: string, a: JobState, b: JobState,
                          artifactsOk: bool)
    requires Binds(planOf) && StoreOk(planOf, store, log)
    requires AtCommit(a.pc) && JobOk(planOf, id, a, WorkOf(log, id))
    requires CommitStep(a, b, OutcomeOf(planOf, store, a.pc.work, artifactsOk))
    ensures var work := a.pc.work;
      if OutcomeOf(planOf, store, work, artifactsOk) == Committed
      then
        && JobOk(planOf, id, b, Some(work))
        && StoreOk(planOf, CommitWork(planOf, store, work, artifactsOk), log + [work])
      else JobOk(planOf, id, b, WorkOf(log, id))
  {
    var outcome := OutcomeOf(planOf, store, a.pc.work, artifactsOk);
    OutcomeTellsDone(planOf, store, log, id, a.pc.work, artifactsOk);
    CommitKeepsJob(planOf, id, a, b, WorkOf(log, id), outcome);
    if outcome == Committed {
      LogGrows(planOf, store, log, a.pc.work);
    }
  }

  lemma CommitKeepsInvariant(planOf: Planner, s: Service, id: string, to: JobState, artifactsOk: bool, t: Service)
    requires Binds(planOf) && Invariant(planOf, s) && Next(planOf, s, Commit(id, to, artifactsOk), t)
    ensures Invariant(planOf, t)
  {
    CommitKeepsOneJob(planOf, s.store, s.log, id, s.jobs[id], to, artifactsOk);
    if OutcomeOf(planOf, s.store, s.jobs[id].pc.work, artifactsOk) == Committed {
      FirstCommitKeepsJobs(planOf, s.jobs, s.log, s.planned, id, to);
    } else {
      OtherOutcomeKeepsJobs(planOf, s.jobs, s.log, s.planned, id, to);
    }
  }

  lemma NextKeepsInvariant(planOf: Planner, s: Service, action: Action, t: Service)
    requires Binds(planOf) && Invariant(planOf, s) && Next(planOf, s, action, t)
    ensures Invariant(planOf, t)
  {
    match action
    case Crash => CrashKeepsInvariant(planOf, s, t);
    case Local(id, to) => LocalKeepsInvariant(planOf, s, id, to, t);
    case Commit(id, to, artifactsOk) => CommitKeepsInvariant(planOf, s, id, to, artifactsOk, t);
  }

  // ----- Runs -----

  /** A run: any number of steps, crashes and recoveries of any jobs, in any order. */
  ghost predicate IsRun(planOf: Planner, run: seq<Service>, actions: seq<Action>) {
    && |run| == |actions| + 1
    && run[0] == START
    && forall i :: 0 <= i < |actions| ==> Next(planOf, run[i], actions[i], run[i + 1])
  }

  lemma {:induction false} RunKeepsInvariant(planOf: Planner, run: seq<Service>, actions: seq<Action>, n: nat)
    requires Binds(planOf) && IsRun(planOf, run, actions) && n < |run|
    ensures Invariant(planOf, run[n])
  {
    if n > 0 {
      RunKeepsInvariant(planOf, run, actions, n - 1);
      NextKeepsInvariant(planOf, run[n - 1], actions[n - 1], run[n]);
    }
  }

  function CommitsOf(log: seq<Work>, id: string): seq<Work> {
    Filter(log, (w: Work) => w.content.jobId == id)
  }

  lemma {:induction false} CountCommits(log: seq<Work>, id: string)
    requires OncePerJob(log)
    ensures CommitsOf(log, id) == if WorkOf(log, id).Some? then [WorkOf(log, id).value] else []
  {
    if log != [] {
      var front := log[..|log| - 1];
      CountCommits(front, id);
      if log[|log| - 1].content.jobId == id {
        NoneBefore(log, id);
      }
    }
  }

  lemma NoneBefore(log: seq<Work>, id: string)
    requires OncePerJob(log) && log != [] && log[|log| - 1].content.jobId == id
    ensures WorkOf(log[..|log| - 1], id).None?
  {
    WorkOfFinds(log[..|log| - 1], id);
  }

  /** At most one commit per job in any run, and exactly one once the job is ready, on disk or in memory. */
  lemma AppliedExactlyOnce(planOf: Planner, run: seq<Service>, actions: seq<Action>, n: nat, id: string)
    requires Binds(planOf) && IsRun(planOf, run, actions) && n < |run| && id in run[n].jobs
    ensures var j := run[n].jobs[id];
      && |CommitsOf(run[n].log, id)| <= 1
      && (j.disk == Stored(Ready, None) || InMemory(j, Ready) ==> |CommitsOf(run[n].log, id)| == 1)
  {
    RunKeepsInvariant(planOf, run, actions, n);
    CountCommits(run[n].log, id);
    assert JobOk(planOf, id, run[n].jobs[id], WorkOf(run[n].log, id));
  }

  /** A committed job is never lost: its manifest holds the committed plan, to be replayed, or is ready. */
  lemma CommittedJobsStay(planOf: Planner, run: seq<Service>, actions: seq<Action>, n: nat, work: Work)
    requires Binds(planOf) && IsRun(planOf, run, actions) && n < |run| && work in run[n].log
    ensures work.content.jobId in run[n].jobs
    ensures run[n].jobs[work.content.jobId].disk in {Stored(Applying, Some(planOf(work))), Stored(Ready, None)}
  {
    RunKeepsInvariant(planOf, run, actions, n);
    var id := work.content.jobId;
    OnlyWork(run[n].log, work);
    assert JobOk(planOf, id, run[n].jobs[id], WorkOf(run[n].log, id));
  }

  /**
   Every committed plan was durable in an earlier state, after an apply had set out to save it:
   recovery commits nothing else.
   */
  lemma {:induction false} DurableFirst(planOf: Planner, run: seq<Service>, actions: seq<Action>, n: nat, work: Work)
    requires Binds(planOf) && IsRun(planOf, run, actions) && n < |run| && work in run[n].log
    ensures exists k, m :: 0 <= k < m < n && SetOut(planOf, run[k], work) && Durable(planOf, run[m], work)
  {
    if work in run[n - 1].log {
      DurableFirst(planOf, run, actions, n - 1, work);
      var k, m :| 0 <= k < m < n - 1 && SetOut(planOf, run[k], work) && Durable(planOf, run[m], work);
    } else {
      CommitNeedsPlan(planOf, run, actions, n - 1, work);
      PlannedWasSetOut(planOf, run, actions, n - 1, work);
    }
  }

  ghost predicate SetOut(planOf: Planner, s: Service, work: Work) {
    StateOf(s, work.content.jobId).pc == SavePlan(work)
  }

  ghost predicate Durable(planOf: Planner, s: Service, work: Work) {
    StateOf(s, work.content.jobId).disk == Stored(Applying, Some(planOf(work)))
  }

  lemma CommitNeedsPlan(planOf: Planner, run: seq<Service>, actions: seq<Action>, n: nat, work: Work)
    requires Binds(planOf) && IsRun(planOf, run, actions) && n < |actions|
    requires work !in run[n].log && work in run[n + 1].log
    ensures work in run[n].planned && Durable(planOf, run[n], work)
  {
    RunKeepsInvariant(planOf, run, actions, n);
    var id := actions[n].id;
    assert JobOk(planOf, id, run[n].jobs[id], WorkOf(run[n].log, id));
    assert StateOf(run[n], id).pc.work == work;
    CommittedWorkIsPlanned(planOf, run[n].jobs[id], work, run[n].planned);
  }

  lemma {:induction false} PlannedWasSetOut(planOf: Planner, run: seq<Service>, actions: seq<Action>, n: nat,
                                            work: Work)
    requires Binds(planOf) && IsRun(planOf, run, actions) && n < |run| && work in run[n].planned
    ensures exists k :: 0 <= k < n && SetOut(planOf, run[k], work)
  {
    if work in run[n - 1].planned {
      PlannedWasSetOut(planOf, run, actions, n - 1, work);
    } else {
      RunKeepsInvariant(planOf, run, actions, n - 1);
      var id := actions[n - 1].id;
      assert JobOk(planOf, id, StateOf(run[n - 1], id), WorkOf(run[n - 1].log, id));
      assert SetOut(planOf, run[n - 1], work);
    }
  }

  /** No commit of any run meets its key under another payload. */
  lemma CommitsNeverConflict(planOf: Planner, run: seq<Service>, actions: seq<Action>, n: nat, id: string,
                             artifactsOk: bool)
    requires Binds(planOf) && IsRun(planOf, run, actions) && n < |run| && AtCommit(StateOf(run[n], id).pc)
    ensures OutcomeOf(planOf, run[n].store, StateOf(run[n], id).pc.work, artifactsOk) != Conflict
  {
    RunKeepsInvariant(planOf, run, actions, n);
    var s, work := run[n], StateOf(run[n], id).pc.work;
    assert JobOk(planOf, id, s.jobs[id], WorkOf(s.log, id));
    KnownKeyIsReplay(planOf, s.store, s.log, id, s.jobs[id]);
  }

  lemma OnlyWork(log: seq<Work>, work: Work)
    requires OncePerJob(log) && work in log
    ensures WorkOf(log, work.content.jobId) == Some(work)
  {
  }

  lemma KnownKeyIsReplay(planOf: Planner, store: Store, log: seq<Work>, id: string, j: JobState)
    requires Binds(planOf) && KeysOf(planOf, store, log) && OncePerJob(log)
    requires AtCommit(j.pc) && j.pc.work.content.jobId == id
    requires JobOk(planOf, id, j, WorkOf(log, id))
    ensures var plan := planOf(j.pc.work);
      plan.key in store.applies ==> store.applies[plan.key].payload == plan.payload
  {
    var plan := planOf(j.pc.work);
    if plan.key in store.applies {
      var w :| w in log && planOf(w).key == plan.key && planOf(w).payload == store.applies[plan.key].payload;
      assert w.content == j.pc.work.content;
      OnlyWork(log, w);
      DoneRepeatsItsPlan(planOf, id, j, w);
    }
  }

  lemma DoneRepeatsItsPlan(planOf: Planner, id: string, j: JobState, done: Work)
    requires AtCommit(j.pc) && JobOk(planOf, id, j, Some(done))
    ensures planOf(j.pc.work) == planOf(done)
  {
  }

  /** A commit with sound artifacts is made or was made before, and is then the one commit of its job. */
  lemma CommitTakesHold(planOf: Planner, s: Service, id: string, artifactsOk: bool)
    requires Binds(planOf) && Invariant(planOf, s) && id in s.jobs && AtCommit(s.jobs[id].pc)
    ensures var work := s.jobs[id].pc.work;
      var outcome := OutcomeOf(planOf, s.store, work, artifactsOk);
      && (artifactsOk ==> outcome in {Committed, Replay})
      && (outcome == Committed ==> CommitsOf(s.log + [work], id) == [work])
      && (outcome == Replay ==> CommitsOf(s.log, id) == [work])
  {
    var j, work := s.jobs[id], s.jobs[id].pc.work;
    assert JobOk(planOf, id, j, WorkOf(s.log, id));
    KnownKeyIsReplay(planOf, s.store, s.log, id, j);
    if WorkOf(s.log, id).Some? {
      DoneRepeatsItsPlan(planOf, id, j, WorkOf(s.log, id).value);
    }
    OutcomeTellsDone(planOf, s.store, s.log, id, work, artifactsOk);
    if OutcomeOf(planOf, s.store, work, artifactsOk) == Committed {
      OnceGrows(s.log, work);
      WorkOfAppend(s.log, work, id);
      CountCommits(s.log + [work], id);
    } else {
      CountCommits(s.log, id);
    }
  }

  // ----- The limit: recoveries that overlap -----

  /** Interrupted processing is never repeated: only a review, a result or a durable plan survives. */
  function RecoveredAs(disk: Manifest): Status
    requires disk.Stored?
  {
    match disk.status
    case ReviewRequired => ReviewRequired
    case Ready => Ready
    case Applying => if disk.plan.Some? then Ready else Failed
    case _ => Failed
  }

  /** A recovery that read its manifest before the job was back in memory, and registers only now what it built. */
  function LateRecovered(j: JobState, seen: Manifest): JobState
    requires seen.Stored?
  {
    j.(memory := Holding(RecoveredAs(seen)), pc := SaveRecovered(RecoveredAs(seen)))
  }

  lemma LateJobLimit(planOf: Planner, id: string, j: JobState, done: Option<Work>, seen: Manifest)
    requires JobOk(planOf, id, j, done) && j.pc == Idle && seen.Stored?
    ensures JobOk(planOf, id, LateRecovered(j, seen), done) <==> (done.Some? <==> RecoveredAs(seen) == Ready)
  {
  }

  function WithJob(s: Service, id: string, j: JobState): Service {
    s.(jobs := s.jobs[id := j])
  }

  lemma OneJobDecides(planOf: Planner, jobs: map<string, JobState>, log: seq<Work>, planned: set<Work>, id: string,
                      b: JobState)
    requires JobsOk(planOf, jobs, log, planned) && id in jobs && b.disk == jobs[id].disk
    ensures JobsOk(planOf, jobs[id := b], log, planned) <==> JobOk(planOf, id, b, WorkOf(log, id))
  {
    var after := jobs[id := b];
    if JobsOk(planOf, after, log, planned) {
      assert JobOk(planOf, id, after[id], WorkOf(log, id));
    }
    assert PlanKnown(planOf, jobs[id], planned);
  }

  /**
   The runs above have no such recovery. One does no harm exactly when it registers a committed
   job as ready, or any other job as something else.
   */
  lemma LateRecoveryLimit(planOf: Planner, s: Service, id: string, seen: Manifest)
    requires Invariant(planOf, s) && id in s.jobs && s.jobs[id].pc == Idle && seen.Stored?
    ensures Invariant(planOf, WithJob(s, id, LateRecovered(s.jobs[id], seen)))
      <==> (WorkOf(s.log, id).Some? <==> RecoveredAs(seen) == Ready)
  {
    LateJobLimit(planOf, id, s.jobs[id], WorkOf(s.log, id), seen);
    OneJobDecides(planOf, s.jobs, s.log, s.planned, id, LateRecovered(s.jobs[id], seen));
  }

  /** The states of a job revived by a late recovery and applied again, up to the second commit. */
  function Revived(planOf: Planner, again: Work, i: nat): JobState {
    var plan := Some(planOf(again));
    if i == 0 then JobState(Stored(Ready, None), Holding(ReviewRequired), SaveRecovered(ReviewRequired))
    else if i == 1 then JobState(Stored(ReviewRequired, None), Holding(ReviewRequired), Idle)
    else if i == 2 then JobState(Stored(ReviewRequired, None), Holding(Applying), SaveApplying)
    else if i == 3 then JobState(Stored(Applying, None), Holding(Applying), Computing)
    else if i == 4 then JobState(Stored(Applying, None), Some(AdminJob(Applying, plan)), SavePlan(again))
    else if i == 5 then JobState(Stored(Applying, plan), Some(AdminJob(Applying, plan)), Committing(again))
    else JobState(Stored(Applying, plan), Some(AdminJob(Applying, plan)), SaveReady)
  }

  function RevivedService(planOf: Planner, s: Service, id: string, again: Work, i: nat): Service {
    var moved := WithJob(s, id, Revived(planOf, again, i));
    if i < 5 then moved
    else if i == 5 then moved.(planned := s.planned + {again})
    else
      moved.(planned := s.planned + {again}, store := CommitWork(planOf, s.store, again, true), log := s.log + [again])
  }

  function RevivedAction(planOf: Planner, id: string, again: Work, i: nat): Action {
    if i < 5 then Local(id, Revived(planOf, again, i + 1)) else Commit(id, Revived(planOf, again, 6), true)
  }

  lemma RevivedStep(planOf: Planner, s: Service, id: string, again: Work, i: nat)
    requires again.content.jobId == id && planOf(again).key !in s.store.applies && i < 6
    ensures Next(planOf, RevivedService(planOf, s, id, again, i), RevivedAction(planOf, id, again, i),
                 RevivedService(planOf, s, id, again, i + 1))
  {
    var a, b := Revived(planOf, again, i), Revived(planOf, again, i + 1);
    assert s.planned + {} == s.planned;
    if i < 5 {
      assert LocalStep(planOf, id, a, b);
    }
  }

  lemma SecondCommitCounts(planOf: Planner, s: Service, id: string, again: Work)
    requires Invariant(planOf, s) && again.content.jobId == id && id in s.jobs && InMemory(s.jobs[id], Ready)
    ensures |CommitsOf(s.log + [again], id)| == 2
  {
    assert JobOk(planOf, id, s.jobs[id], WorkOf(s.log, id));
    CountCommits(s.log, id);
    FilterAppend(s.log, again, (w: Work) => w.content.jobId == id);
  }

  /**
   Beyond that limit a job can be applied twice: a late recovery of its review revives a ready
   job, and the next apply, six steps on, commits again.
   */
  lemma LateRecoveryAppliesTwice(planOf: Planner, s: Service, id: string, again: Work)
    requires Invariant(planOf, s) && again.content.jobId == id
    requires id in s.jobs && s.jobs[id] == JobState(Stored(Ready, None), Holding(Ready), Idle)
    requires planOf(again).key !in s.store.applies
    ensures RevivedService(planOf, s, id, again, 0) ==
      WithJob(s, id, LateRecovered(s.jobs[id], Stored(ReviewRequired, None)))
    ensures forall i: nat :: i < 6 ==> Next(planOf, RevivedService(planOf, s, id, again, i),
                                            RevivedAction(planOf, id, again, i),
                                            RevivedService(planOf, s, id, again, i + 1))
    ensures |CommitsOf(RevivedService(planOf, s, id, again, 6).log, id)| == 2
  {
    forall i: nat | i < 6
      ensures Next(planOf, RevivedService(planOf, s, id, again, i), RevivedAction(planOf, id, again, i),
                   RevivedService(planOf, s, id, again, i + 1))
    {
      RevivedStep(planOf, s, id, again, i);
    }
    SecondCommitCounts(planOf, s, id, again);
  }

  // ----- The store -----

  function Feedback(log: seq<Work>, target: string): seq<Record> {
    if log == [] then []
    else
      Feedback(log[..|log| - 1], target)
        + if log[|log| - 1].content.target == target then log[|log| - 1].content.feedback else []
  }

  lemma {:induction false} ReplayIsGapFree(planOf: Planner, log: seq<Work>)
    requires Binds(planOf) && OncePerJob(log)
    ensures StoreOk(planOf, Replayed(planOf, log), log) && GapFree(Replayed(planOf, log).rows)
  {
    if log != [] {
      var front, work := log[..|log| - 1], log[|log| - 1];
      ReplayIsGapFree(planOf, front);
      NoneBefore(log, work.content.jobId);
      FreshJobCommits(planOf, Replayed(planOf, front), front, work);
      LogGrows(planOf, Replayed(planOf, front), front, work);
      assert log == front + [work];
      InsertionAppends(Replayed(planOf, front).rows, work.content.target, work.content.feedback);
    }
  }

  lemma FreshJobCommits(planOf: Planner, store: Store, log: seq<Work>, work: Work)
    requires Binds(planOf) && KeysOf(planOf, store, log) && WorkOf(log, work.content.jobId).None?
    ensures OutcomeOf(planOf, store, work, true) == Committed
    ensures CommitWork(planOf, store, work, true).rows ==
      Inserted(store.rows, work.content.target, work.content.feedback)
  {
    WorkOfFinds(log, work.content.jobId);
  }

  lemma ReplayStep(planOf: Planner, log: seq<Work>)
    requires Binds(planOf) && OncePerJob(log) && log != []
    ensures var work := log[|log| - 1];
      && GapFree(Replayed(planOf, log[..|log| - 1]).rows)
      && Replayed(planOf, log).rows
          == Inserted(Replayed(planOf, log[..|log| - 1]).rows, work.content.target, work.content.feedback)
  {
    var front, work := log[..|log| - 1], log[|log| - 1];
    ReplayIsGapFree(planOf, front);
    NoneBefore(log, work.content.jobId);
    FreshJobCommits(planOf, Replayed(planOf, front), front, work);
  }

  lemma NumberedConcat(target: string, a: seq<Record>, b: seq<Record>)
    ensures Numbered(target, a + b, 0) == Numbered(target, a, 0) + Numbered(target, b, |a|)
  {
  }

  /** The store holds, for every target, the records of its committed works in commit order, numbered 1..n. */
  lemma {:induction false} StoreHoldsLog(planOf: Planner, log: seq<Work>, target: string)
    requires Binds(planOf) && OncePerJob(log)
    ensures OfTarget(Replayed(planOf, log).rows, target) == Numbered(target, Feedback(log, target), 0)
  {
    if log != [] {
      var front, work := log[..|log| - 1], log[|log| - 1];
      StoreHoldsLog(planOf, front, target);
      ReplayStep(planOf, log);
      InsertionAppends(Replayed(planOf, front).rows, work.content.target, work.content.feedback);
      NumberedConcat(target, Feedback(front, target), work.content.feedback);
    }
  }

  lemma RunStoresRecordsOnce(planOf: Planner, run: seq<Service>, actions: seq<Action>, n: nat, target: string)
    requires Binds(planOf) && IsRun(planOf, run, actions) && n < |run|
    ensures GapFree(run[n].store.rows)
    ensures OfTarget(run[n].store.rows, target) == Numbered(target, Feedback(run[n].log, target), 0)
  {
    RunKeepsInvariant(planOf, run, actions, n);
    ReplayIsGapFree(planOf, run[n].log);
    StoreHoldsLog(planOf, run[n].log, target);
  }
}
