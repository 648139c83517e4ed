/**
 Creating drawing-card jobs under an idempotency key: any number of concurrent
 calls, each taking one step at a time between its critical sections.
 */
module Idempotency {
  import opened Outcomes

  type CallId = nat

  type Key = string

  /** A call's own job and its own event are named by the call: it makes at most one of each. */
  datatype Pc =
    | Entering
    | Checking(event: CallId) | Waiting(event: CallId)
    | Owning | Building | Registered
    | Failing
    | Returned(job: CallId) | Raised | Abandoned

  datatype Call = Call(key: Option<Key>, request: string, pc: Pc)

  datatype Job = Job(key: Option<Key>, request: string)

  /**
   `index` leads from a key to its job, `pending` to the call that reserved it, `done` are the
   events that were set.
   */
  datatype Service = Service(
    calls: map<CallId, Call>,
    jobs: map<CallId, Job>,
    index: map<Key, CallId>,
    pending: map<Key, CallId>,
    done: set<CallId>)

  const START := Service(map[], map[], map[], map[], {})

  function Moved(s: Service, t: CallId, pc: Pc): Service
    requires t in s.calls
  {
    s.(calls := s.calls[t := s.calls[t].(pc := pc)])
  }

  /** The mapped job when the request is the same one, else an error; also when a follower finds no mapping. */
  function Looked(s: Service, t: CallId): Pc
    requires t in s.calls
  {
    match s.calls[t].key
    case None => Raised
    case Some(k) =>
      if k in s.index && s.index[k] in s.jobs && s.jobs[s.index[k]].request == s.calls[t].request
      then Returned(s.index[k])
      else Raised
  }

  /** The first critical section: an existing job, somebody's reservation, or a new one. */
  function Enter(s: Service, t: CallId): Service
    requires t in s.calls
  {
    match s.calls[t].key
    case None => Moved(s, t, Owning)
    case Some(k) =>
      if k in s.index then Moved(s, t, Looked(s, t))
      else if k in s.pending then Moved(s, t, Checking(s.pending[k]))
      else Moved(s, t, Owning).(pending := s.pending[k := t])
  }

  /** Drops the reservation of a key and wakes who waits for it. */
  function Released(s: Service, key: Option<Key>): Service {
    if key.Some? && key.value in s.pending
    then s.(pending := s.pending - {key.value}, done := s.done + {s.pending[key.value]})
    else s
  }

  function Register(s: Service, t: CallId): Service
    requires t in s.calls
  {
    var call := s.calls[t];
    var listed := s.(jobs := s.jobs[t := Job(call.key, call.request)],
                     index := if call.key.Some? then s.index[call.key.value := t] else s.index);
    Released(listed, call.key)
  }

  /** The handler of any failure after the directory exists. */
  function CleanUp(s: Service, t: CallId): Service
    requires t in s.calls
  {
    var key := s.calls[t].key;
    Released(s.(jobs := s.jobs - {t}, index := if key.Some? then s.index - {key.value} else s.index), key)
  }

  /** One step of one call; a nondeterministic step may also fail. */
  ghost predicate Step(s: Service, t: CallId, u: Service) {
    t in s.calls &&
    match s.calls[t].pc
    case Entering => u == Enter(s, t)
    case Checking(event) => u == Moved(s, t, if event in s.done then Looked(s, t) else Waiting(event))
    case Waiting(event) => event in s.done && u == Moved(s, t, Looked(s, t))
    case Owning =>
      if s.calls[t].key.Some? && t in s.done then u == Moved(s, t, Looked(s, t))
      else u == Moved(s, t, Building) || u == Moved(s, t, Abandoned)
    case Building =>
      || u == Moved(Register(s, t), t, Registered)
      || u == Moved(Register(s, t), t, Failing)
      || u == Moved(s, t, Failing)
    case Registered => u == Moved(s, t, Returned(t)) || u == Moved(s, t, Failing)
    case Failing => u == Moved(CleanUp(s, t), t, Raised)
    case _ => false
  }

  datatype Action = Arrive(id: CallId, key: Option<Key>, request: string) | Advance(id: CallId)

  ghost predicate Next(s: Service, action: Action, u: Service) {
    match action
    case Arrive(id, key, request) => id !in s.calls && u == s.(calls := s.calls[id := Call(key, request, Entering)])
    case Advance(id) => Step(s, id, u)
  }

  // ----- The invariant -----

  /** Between reserving the key and registering the job. */
  predicate Creating(s: Service, t: CallId) {
    t in s.calls && (s.calls[t].pc in {Owning, Building} || (s.calls[t].pc == Failing && t !in s.jobs))
  }

  predicate Holds(s: Service, t: CallId, k: Key) {
    t in s.calls && s.calls[t].key == Some(k)
  }

  /**
   A reservation belongs to a call that is creating the job, or that failed before its handler;
   a mapping leads to its job.
   */
  ghost predicate KeyOk(s: Service, k: Key) {
    && (k in s.pending ==>
          && Holds(s, s.pending[k], k)
          && (Creating(s, s.pending[k]) || s.calls[s.pending[k]].pc == Abandoned)
          && s.pending[k] !in s.done && k !in s.index)
    && (k in s.index ==> s.index[k] in s.jobs && s.jobs[s.index[k]].key == Some(k))
  }

  /** A creating call holds its reservation; a listed job is the job of its call, and its key leads to it. */
  ghost predicate CallOk(s: Service, t: CallId)
    requires t in s.calls
  {
    var call := s.calls[t];
    && (call.key.Some? && (Creating(s, t) || call.pc == Abandoned) ==>
          call.key.value in s.pending && s.pending[call.key.value] == t)
    && (t in s.jobs ==>
          && s.jobs[t] == Job(call.key, call.request)
          && (call.pc in {Registered, Failing} || call.pc == Returned(t))
          && (call.key.Some? ==> call.key.value in s.index && s.index[call.key.value] == t))
    && (call.pc == Registered ==> t in s.jobs)
    && (call.pc in {Entering, Owning, Building} ==> t !in s.done)
  }

  ghost predicate Invariant(s: Service) {
    && s.jobs.Keys <= s.calls.Keys && s.done <= s.calls.Keys
    && (forall k :: KeyOk(s, k))
    && (forall t :: t in s.calls ==> CallOk(s, t))
  }

  /** The call that is between reserving and registering holds the only reservation of its key. */
  lemma CleaningTouchesOnlyOwn(s: Service, t: CallId, k: Key)
    requires Invariant(s) && Holds(s, t, k) && s.calls[t].pc in {Owning, Building, Failing}
    ensures k in s.pending ==> s.pending[k] == t
    ensures k in s.index ==> s.index[k] == t
  {
    assert CallOk(s, t) && KeyOk(s, k);
  }

  lemma MovedKeepsInvariant(s: Service, t: CallId, pc: Pc)
    requires Invariant(s) && t in s.calls
    requires pc != Entering
    requires s.calls[t].pc in {Owning, Building} ==> pc in {Owning, Building, Failing, Abandoned}
    requires s.calls[t].pc == Failing ==> pc == Failing
    requires s.calls[t].pc == Abandoned ==> pc == Abandoned
    requires s.calls[t].pc == Registered ==> pc in {Registered, Failing} || pc == Returned(t)
    requires s.calls[t].pc !in {Owning, Building, Failing, Registered, Abandoned} ==>
      pc !in {Owning, Building, Failing, Registered, Abandoned} && t !in s.jobs
    ensures Invariant(Moved(s, t, pc))
  {
    var u := Moved(s, t, pc);
    assert CallOk(s, t);
    forall k ensures KeyOk(u, k) {
      assert KeyOk(s, k);
    }
    forall c | c in u.calls ensures CallOk(u, c) {
      assert CallOk(s, c);
    }
  }

  lemma StartKeepsInvariant(s: Service, t: CallId)
    requires Invariant(s) && t in s.calls && s.calls[t].pc == Entering && s.calls[t].key.None?
    ensures Invariant(Moved(s, t, Owning))
  {
    var u := Moved(s, t, Owning);
    assert CallOk(s, t);
    forall k ensures KeyOk(u, k) {
      assert KeyOk(s, k);
    }
    forall c | c in u.calls ensures CallOk(u, c) {
      assert CallOk(s, c);
    }
  }

  lemma ReserveKeepsInvariant(s: Service, t: CallId, k: Key)
    requires Invariant(s) && Holds(s, t, k) && s.calls[t].pc == Entering && k !in s.index && k !in s.pending
    ensures Invariant(Moved(s, t, Owning).(pending := s.pending[k := t]))
  {
    var u := Moved(s, t, Owning).(pending := s.pending[k := t]);
    assert CallOk(s, t);
    forall other ensures KeyOk(u, other) {
      assert KeyOk(s, other);
    }
    forall c | c in u.calls ensures CallOk(u, c) {
      assert CallOk(s, c);
    }
  }

  lemma RegisterKeepsInvariant(s: Service, t: CallId, pc: Pc)
    requires Invariant(s) && t in s.calls && s.calls[t].pc == Building && pc in {Registered, Failing}
    ensures Invariant(Moved(Register(s, t), t, pc))
  {
    var u := Moved(Register(s, t), t, pc);
    assert CallOk(s, t);
    if s.calls[t].key.Some? {
      CleaningTouchesOnlyOwn(s, t, s.calls[t].key.value);
      assert KeyOk(s, s.calls[t].key.value);
    }
    forall k ensures KeyOk(u, k) {
      assert KeyOk(s, k);
      if k in s.pending && s.calls[t].key != Some(k) {
        assert s.pending[k] != t;
      }
      if k in s.index {
        assert s.index[k] != t;
      }
    }
    forall c | c in u.calls ensures CallOk(u, c) {
      assert CallOk(s, c);
    }
  }

  lemma CleanUpKeepsInvariant(s: Service, t: CallId)
    requires Invariant(s) && t in s.calls && s.calls[t].pc == Failing
    ensures Invariant(Moved(CleanUp(s, t), t, Raised))
  {
    var u := Moved(CleanUp(s, t), t, Raised);
    assert CallOk(s, t);
    if s.calls[t].key.Some? {
      CleaningTouchesOnlyOwn(s, t, s.calls[t].key.value);
      assert KeyOk(s, s.calls[t].key.value);
    }
    forall k ensures KeyOk(u, k) {
      assert KeyOk(s, k);
    }
    forall c | c in u.calls ensures CallOk(u, c) {
      assert CallOk(s, c);
    }
  }

  lemma ArriveKeepsInvariant(s: Service, id: CallId, key: Option<Key>, request: string, u: Service)
    requires Invariant(s) && Next(s, Arrive(id, key, request), u)
    ensures Invariant(u)
  {
    forall k ensures KeyOk(u, k) {
      assert KeyOk(s, k);
    }
    forall c | c in u.calls ensures CallOk(u, c) {
      assert c != id ==> CallOk(s, c);
    }
  }

  lemma EnterKeepsInvariant(s: Service, t: CallId)
    requires Invariant(s) && t in s.calls && s.calls[t].pc == Entering
    ensures Invariant(Enter(s, t))
  {
    assert CallOk(s, t);
    match s.calls[t].key
    case None => StartKeepsInvariant(s, t);
    case Some(k) =>
      if k in s.index {
        MovedKeepsInvariant(s, t, Looked(s, t));
      } else if k in s.pending {
        MovedKeepsInvariant(s, t, Checking(s.pending[k]));
      } else {
        ReserveKeepsInvariant(s, t, k);
      }
  }

  lemma StepKeepsInvariant(s: Service, t: CallId, u: Service)
    requires Invariant(s) && Step(s, t, u)
    ensures Invariant(u)
  {
    assert CallOk(s, t);
    match s.calls[t].pc
    case Entering => EnterKeepsInvariant(s, t);
    case Checking(event) => MovedKeepsInvariant(s, t, if event in s.done then Looked(s, t) else Waiting(event));
    case Waiting(event) => MovedKeepsInvariant(s, t, Looked(s, t));
    case Owning =>
      MovedKeepsInvariant(s, t, Building);
      MovedKeepsInvariant(s, t, Abandoned);
    case Building =>
      RegisterKeepsInvariant(s, t, Registered);
      RegisterKeepsInvariant(s, t, Failing);
      MovedKeepsInvariant(s, t, Failing);
    case Registered =>
      MovedKeepsInvariant(s, t, Returned(t));
      MovedKeepsInvariant(s, t, Failing);
    case Failing => CleanUpKeepsInvariant(s, t);
    case _ =>
  }

  // ----- Runs -----

  ghost predicate IsRun(run: seq<Service>, actions: seq<Action>) {
    && |run| == |actions| + 1
    && run[0] == START
    && forall i :: 0 <= i < |actions| ==> Next(run[i], actions[i], run[i + 1])
  }

  lemma {:induction false} RunKeepsInvariant(run: seq<Service>, actions: seq<Action>, n: nat)
    requires IsRun(run, actions) && n < |run|
    ensures Invariant(run[n])
  {
    if n > 0 {
      RunKeepsInvariant(run, actions, n - 1);
      match actions[n - 1]
      case Arrive(id, key, request) => ArriveKeepsInvariant(run[n - 1], id, key, request, run[n]);
      case Advance(id) => StepKeepsInvariant(run[n - 1], id, run[n]);
    }
  }

  /** Of all calls with one key at most one is creating the job. */
  lemma OneCreator(run: seq<Service>, actions: seq<Action>, n: nat, k: Key, t: CallId, c: CallId)
    requires IsRun(run, actions) && n < |run|
    requires Holds(run[n], t, k) && Holds(run[n], c, k) && Creating(run[n], t) && Creating(run[n], c)
    ensures t == c
  {
    RunKeepsInvariant(run, actions, n);
    assert CallOk(run[n], t) && CallOk(run[n], c);
  }

  /** Of all listed jobs at most one carries a key, it is the one the key leads to, and nobody is creating another. */
  lemma OneLiveJob(run: seq<Service>, actions: seq<Action>, n: nat, k: Key, j: CallId)
    requires IsRun(run, actions) && n < |run| && j in run[n].jobs && run[n].jobs[j].key == Some(k)
    ensures k in run[n].index && run[n].index[k] == j
    ensures forall i :: i in run[n].jobs && run[n].jobs[i].key == Some(k) ==> i == j
    ensures forall t :: Holds(run[n], t, k) ==> !Creating(run[n], t)
  {
    RunKeepsInvariant(run, actions, n);
    var s := run[n];
    assert CallOk(s, j) && KeyOk(s, k);
    forall i | i in s.jobs && s.jobs[i].key == Some(k) ensures i == j {
      assert CallOk(s, i);
    }
    forall t | Holds(s, t, k) ensures !Creating(s, t) {
      assert CallOk(s, t);
    }
  }

  /** A call that returns a job returns the one its key leads to at that moment, made from the same request. */
  lemma ReturnsTheMappedJob(run: seq<Service>, actions: seq<Action>, n: nat, t: CallId, k: Key, j: CallId)
    requires IsRun(run, actions) && n < |actions| && actions[n] == Advance(t)
    requires Holds(run[n], t, k) && run[n + 1].calls[t].pc == Returned(j)
    ensures k in run[n + 1].index && run[n + 1].index[k] == j
    ensures j in run[n + 1].jobs && run[n + 1].jobs[j] == Job(Some(k), run[n].calls[t].request)
  {
    RunKeepsInvariant(run, actions, n);
    assert CallOk(run[n], t) && KeyOk(run[n], k);
  }

  /** What a call asks for the job of its key: on entering, or once the event that it waits for is set. */
  ghost predicate LooksUp(s: Service, t: CallId) {
    && t in s.calls
    && match s.calls[t].pc
       case Entering => true
       case Checking(event) => event in s.done
       case Waiting(event) => event in s.done
       case _ => false
  }

  /** Under a mapped key the same request gets the mapped job and another one an error. */
  lemma LookupAnswers(run: seq<Service>, actions: seq<Action>, n: nat, t: CallId, k: Key, u: Service)
    requires IsRun(run, actions) && n < |run| && Holds(run[n], t, k) && k in run[n].index
    requires LooksUp(run[n], t) && Step(run[n], t, u)
    ensures run[n].index[k] in run[n].jobs
    ensures u.calls[t].pc ==
      if run[n].jobs[run[n].index[k]].request == run[n].calls[t].request then Returned(run[n].index[k]) else Raised
  {
    RunKeepsInvariant(run, actions, n);
    assert KeyOk(run[n], k);
  }

  // ----- Nobody waits in vain -----

  /** A call that waits has a key, and the event it waits for is set or belongs to the key's reservation. */
  ghost predicate WaitsForKey(s: Service, t: CallId)
    requires t in s.calls
  {
    match s.calls[t].pc
    case Checking(event) => Awaits(s, s.calls[t].key, event)
    case Waiting(event) => Awaits(s, s.calls[t].key, event)
    case _ => true
  }

  ghost predicate Awaits(s: Service, key: Option<Key>, event: CallId) {
    key.Some? && (event in s.done || (key.value in s.pending && s.pending[key.value] == event))
  }

  /** Whoever drops a reservation sets its event. */
  lemma ReleasedWakes(s: Service, dropped: Option<Key>, key: Option<Key>, event: CallId)
    requires Awaits(s, key, event)
    ensures Awaits(Released(s, dropped), key, event)
  {
  }

  lemma StepKeepsWaiting(s: Service, t: CallId, u: Service, key: Option<Key>, event: CallId)
    requires Step(s, t, u) && Awaits(s, key, event)
    ensures Awaits(u, key, event)
  {
    match s.calls[t].pc
    case Entering =>
    case Building => ReleasedWakes(s, s.calls[t].key, key, event);
    case Failing => ReleasedWakes(s, s.calls[t].key, key, event);
    case _ =>
  }

  lemma StepWaitsForKey(s: Service, t: CallId, u: Service)
    requires Step(s, t, u) && WaitsForKey(s, t)
    ensures t in u.calls && WaitsForKey(u, t)
  {
    match s.calls[t].pc
    case Entering => EnteredWaitsForKey(s, t);
    case Building => assert Register(s, t).calls == s.calls;
    case Failing => assert CleanUp(s, t).calls == s.calls;
    case _ => assert u.pending == s.pending && u.done == s.done;
  }

  lemma EnteredWaitsForKey(s: Service, t: CallId)
    requires t in s.calls
    ensures t in Enter(s, t).calls && WaitsForKey(Enter(s, t), t)
  {
  }

  lemma {:induction false} AllWaitForKeys(run: seq<Service>, actions: seq<Action>, n: nat, t: CallId)
    requires IsRun(run, actions) && n < |run| && t in run[n].calls
    ensures WaitsForKey(run[n], t)
  {
    if n > 0 && t in run[n - 1].calls {
      AllWaitForKeys(run, actions, n - 1, t);
      var s, u := run[n - 1], run[n];
      match actions[n - 1]
      case Arrive(id, key, request) =>
      case Advance(id) =>
        if id == t {
          StepWaitsForKey(s, t, u);
        } else {
          StepMovesOnlyItself(s, id, u, t);
          if s.calls[t].pc.Checking? || s.calls[t].pc.Waiting? {
            StepKeepsWaiting(s, id, u, s.calls[t].key, s.calls[t].pc.event);
          }
        }
    }
  }

  ghost predicate CanMove(s: Service, t: CallId) {
    exists u :: Step(s, t, u)
  }

  predicate Finished(pc: Pc) {
    pc.Returned? || pc.Raised? || pc.Abandoned?
  }

  /**
   In any run, an unfinished call can go on, or it waits for the call that reserved its key; that one
   can go on, unless it failed to make its directory.
   */
  lemma NobodyWaitsInVain(run: seq<Service>, actions: seq<Action>, n: nat, t: CallId)
    requires IsRun(run, actions) && n < |run| && t in run[n].calls && !Finished(run[n].calls[t].pc)
    ensures CanMove(run[n], t) || WaitsFor(run[n], t, run[n].calls[t].pc)
  {
    var s := run[n];
    RunKeepsInvariant(run, actions, n);
    AllWaitForKeys(run, actions, n, t);
    match s.calls[t].pc
    case Waiting(event) =>
      if event !in s.done {
        assert KeyOk(s, s.calls[t].key.value);
        if s.calls[event].pc != Abandoned {
          CreatorsMove(s, event);
        }
      } else {
        assert Step(s, t, Moved(s, t, Looked(s, t)));
      }
    case Checking(event) => assert Step(s, t, Moved(s, t, if event in s.done then Looked(s, t) else Waiting(event)));
    case Entering => assert Step(s, t, Enter(s, t));
    case Registered => assert Step(s, t, Moved(s, t, Returned(t)));
    case _ => CreatorsMove(s, t);
  }

  ghost predicate WaitsFor(s: Service, t: CallId, pc: Pc) {
    && t in s.calls && s.calls[t].key.Some?
    && pc.Waiting? && Holds(s, pc.event, s.calls[t].key.value)
    && (CanMove(s, pc.event) || s.calls[pc.event].pc == Abandoned)
  }

  lemma CreatorsMove(s: Service, t: CallId)
    requires t in s.calls && s.calls[t].pc in {Owning, Building, Failing}
    ensures CanMove(s, t)
  {
    match s.calls[t].pc
    case Owning =>
      var looks := s.calls[t].key.Some? && t in s.done;
      assert Step(s, t, Moved(s, t, if looks then Looked(s, t) else Building));
    case Building => assert Step(s, t, Moved(s, t, Failing));
    case Failing => assert Step(s, t, Moved(CleanUp(s, t), t, Raised));
  }

  /**
     A call whose directory cannot be made fails outside its handler and keeps its
     reservation: from then on nobody ever gets a job for the key.
   */
  lemma {:induction false} AbandonedKeysStayReserved(run: seq<Service>, actions: seq<Action>, n: nat, m: nat,
                                                     t: CallId, k: Key)
    requires IsRun(run, actions) && n <= m < |run| && Holds(run[n], t, k) && run[n].calls[t].pc == Abandoned
    ensures Holds(run[m], t, k) && run[m].calls[t].pc == Abandoned
    ensures k in run[m].pending && run[m].pending[k] == t && t !in run[m].done && k !in run[m].index
    decreases m - n
  {
    RunKeepsInvariant(run, actions, m);
    if n < m {
      AbandonedKeysStayReserved(run, actions, n, m - 1, t, k);
      AbandonedStays(run[m - 1], actions[m - 1], run[m], t, k);
    }
    assert CallOk(run[m], t) && KeyOk(run[m], k);
  }

  lemma StepMovesOnlyItself(s: Service, t: CallId, u: Service, c: CallId)
    requires Step(s, t, u) && c in s.calls && c != t
    ensures c in u.calls && u.calls[c] == s.calls[c]
  {
    match s.calls[t].pc
    case Entering => EnterMovesOnlyItself(s, t, c);
    case Building => assert Register(s, t).calls == s.calls;
    case Failing => assert CleanUp(s, t).calls == s.calls;
    case _ =>
  }

  lemma EnterMovesOnlyItself(s: Service, t: CallId, c: CallId)
    requires t in s.calls && c in s.calls && c != t
    ensures c in Enter(s, t).calls && Enter(s, t).calls[c] == s.calls[c]
  {
  }

  lemma AbandonedStays(s: Service, action: Action, u: Service, t: CallId, k: Key)
    requires Next(s, action, u) && Holds(s, t, k) && s.calls[t].pc == Abandoned
    ensures Holds(u, t, k) && u.calls[t].pc == Abandoned
  {
    if action.Advance? {
      StepMovesOnlyItself(s, action.id, u, t);
    }
  }

  /**
   In any run, a reservation nobody is working on is one whose call failed before its handler,
   and the other way round.
   */
  lemma LostReservations(run: seq<Service>, actions: seq<Action>, n: nat, k: Key)
    requires IsRun(run, actions) && n < |run|
    ensures k in run[n].pending && !Creating(run[n], run[n].pending[k])
      <==> exists t :: Holds(run[n], t, k) && run[n].calls[t].pc == Abandoned
  {
    RunKeepsInvariant(run, actions, n);
    var s := run[n];
    assert KeyOk(s, k);
    if t :| Holds(s, t, k) && s.calls[t].pc == Abandoned {
      assert CallOk(s, t);
    }
  }

  /** It does happen: the first call with a key enters, reserves it and fails to make its directory. */
  lemma ReservationsGetLost(k: Key, request: string) returns (run: seq<Service>, actions: seq<Action>)
    ensures IsRun(run, actions) && |run| == 4
    ensures Holds(run[3], 0, k) && run[3].calls[0].pc == Abandoned && k in run[3].pending
  {
    var arrived := START.(calls := map[0 := Call(Some(k), request, Entering)]);
    var owning := Enter(arrived, 0);
    var abandoned := Moved(owning, 0, Abandoned);
    run := [START, arrived, owning, abandoned];
    actions := [Arrive(0, Some(k), request), Advance(0), Advance(0)];
    assert START.calls[0 := Call(Some(k), request, Entering)] == arrived.calls;
    assert Step(arrived, 0, owning) && Step(owning, 0, abandoned);
    forall i | 0 <= i < |actions| ensures Next(run[i], actions[i], run[i + 1]) {
      assert i == 0 || i == 1 || i == 2;
    }
  }
}
