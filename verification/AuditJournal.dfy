/**
 The append-only audit journal: its tables, and the operations on them. Every
 operation keeps the database consistent and only ever extends it; one that
 fails leaves it as it was.
 */
module AuditJournal {
  import opened AuditEvents
  import opened Outcomes

  datatype Run = Run(runKey: string, nonce: string, inputs: set<string>, options: Fields,
                     contracts: map<string, string>, rule: string)

  datatype CrossStore = CrossStore(dataHash: string, exportHash: Option<string>, state: State)

  datatype Activation = Activation(ruleHash: string, sourceHash: string)

  /** The tables. `owner` is the primary-key index of the events; the events of one run are in sequence order. */
  datatype Database = Database(
    runs: map<string, Run>,
    events: map<string, seq<Event>>,
    owner: map<string, string>,
    feedback: map<string, FeedbackRule>,
    activations: map<string, Activation>,
    crossStore: map<string, CrossStore>,
    compactions: map<string, nat>)

  datatype Failure =
    | InvalidValue | Unredacted | UnknownKey | Duplicate
    | HashChainInvalid | SequenceGap | InvalidStageTransition | SnapshotChanged | ExportHashMismatch | FeedbackDrift

  // ----- What a database says about one run -----

  type Events = map<string, seq<Event>>

  function EventsOf(events: Events, runId: string): seq<Event> {
    if runId in events then events[runId] else []
  }

  function History(events: seq<Event>): seq<Point> {
    seq(|events|, i requires 0 <= i < |events| => Point(events[i].stage, events[i].state))
  }

  function CurrentState(events: Events, runId: string): Option<State> {
    var own := EventsOf(events, runId);
    if own == [] then None else Some(own[|own| - 1].state)
  }

  // ----- Consistency -----

  ghost predicate RunsDerived(digest: Digest, runs: map<string, Run>) {
    forall id :: id in runs ==>
      && id == digest(RunIdentity(runs[id].runKey, runs[id].nonce))
      && runs[id].runKey == digest(RunKey(runs[id].inputs, runs[id].options, runs[id].contracts, runs[id].rule))
  }

  ghost predicate EventsAppended(digest: Digest, events: Events) {
    forall id :: id in events ==> AppendedRun(digest, id, events[id])
  }

  ghost predicate SagasFollowed(events: Events) {
    forall id :: id in events ==> IsSagaPrefix(History(events[id]))
  }

  ghost predicate EventsOwned(events: Events, owner: map<string, string>) {
    forall id, e :: id in events && e in events[id] ==> e.eventId in owner && owner[e.eventId] == id
  }

  ghost predicate OwnersHaveEvents(events: Events, owner: map<string, string>) {
    forall key :: key in owner ==> HasEvent(EventsOf(events, owner[key]), key)
  }

  ghost predicate HasEvent(events: seq<Event>, eventId: string) {
    exists i :: 0 <= i < |events| && events[i].eventId == eventId
  }

  ghost predicate FeedbackSourced(owner: map<string, string>, feedback: map<string, FeedbackRule>) {
    forall v :: v in feedback ==>
      feedback[v].sourceEventId in owner && owner[feedback[v].sourceEventId] == feedback[v].runId
  }

  /** An activated version is a feedback row of a verified run, with the hashes of that row. */
  ghost predicate ActivationsVerified(events: Events, feedback: map<string, FeedbackRule>,
                                      activations: map<string, Activation>) {
    forall v :: v in activations ==>
      && v in feedback
      && activations[v] == Activation(feedback[v].ruleHash, feedback[v].sourceHash)
      && CurrentState(events, feedback[v].runId) == Some(ExportVerified)
  }

  /** Recorded hashes belong to a run whose data is committed, at a state it has reached. */
  ghost predicate SnapshotsDurable(events: Events, crossStore: map<string, CrossStore>) {
    forall id :: id in crossStore ==>
      && crossStore[id].state != Pending
      && CurrentState(events, id).Some?
      && Rank(crossStore[id].state) <= Rank(CurrentState(events, id).value)
  }

  ghost predicate EventsConsistent(digest: Digest, runs: set<string>, events: Events, owner: map<string, string>) {
    && events.Keys <= runs
    && EventsAppended(digest, events)
    && SagasFollowed(events)
    && EventsOwned(events, owner)
    && OwnersHaveEvents(events, owner)
  }

  ghost predicate Consistent(digest: Digest, db: Database) {
    && RunsDerived(digest, db.runs)
    && EventsConsistent(digest, db.runs.Keys, db.events, db.owner)
    && FeedbackSourced(db.owner, db.feedback)
    && ActivationsVerified(db.events, db.feedback, db.activations)
    && SnapshotsDurable(db.events, db.crossStore)
  }

  const EMPTY := Database(map[], map[], map[], map[], map[], map[], map[])

  function Rank(s: State): nat {
    match s
    case Pending => 0
    case DataCommitted => 1
    case ExportPrepared => 2
    case ExportVerified => 3
  }

  // ----- Growth -----

  ghost predicate Includes<K(!new), V>(larger: map<K, V>, smaller: map<K, V>) {
    forall k :: k in smaller ==> k in larger && larger[k] == smaller[k]
  }

  ghost predicate EventsGrow(later: Events, earlier: Events) {
    forall id :: id in earlier ==> id in later && earlier[id] <= later[id]
  }

  /** The later database keeps every row of the earlier one. */
  ghost predicate Extends(later: Database, earlier: Database) {
    && Includes(later.runs, earlier.runs)
    && EventsGrow(later.events, earlier.events)
    && Includes(later.owner, earlier.owner)
    && Includes(later.feedback, earlier.feedback)
    && Includes(later.activations, earlier.activations)
    && Includes(later.crossStore, earlier.crossStore)
    && Includes(later.compactions, earlier.compactions)
  }

  lemma ExtendsItself(db: Database)
    ensures Extends(db, db)
  {
  }

  lemma ExtendsTransitive(a: Database, b: Database, c: Database)
    requires Extends(b, a) && Extends(c, b)
    ensures Extends(c, a)
  {
  }

  /** A saga never goes back, and a verified one never moves again. */
  lemma SagaAdvances(longer: seq<Point>, n: nat)
    requires IsSagaPrefix(longer) && 0 < n <= |longer|
    ensures Rank(longer[n - 1].state) <= Rank(longer[|longer| - 1].state)
    ensures longer[n - 1].state == ExportVerified ==> n == |longer|
  {
  }

  lemma EventsAdvance(before: seq<Event>, after: seq<Event>)
    requires IsSagaPrefix(History(after)) && before != [] && before <= after
    ensures Rank(before[|before| - 1].state) <= Rank(after[|after| - 1].state)
    ensures before[|before| - 1].state == ExportVerified ==> before == after
  {
    SagaAdvances(History(after), |before|);
  }

  lemma StateAdvances(earlier: Events, later: Events, id: string)
    requires SagasFollowed(later) && EventsGrow(later, earlier) && CurrentState(earlier, id).Some?
    ensures CurrentState(later, id).Some?
    ensures Rank(CurrentState(earlier, id).value) <= Rank(CurrentState(later, id).value)
    ensures CurrentState(earlier, id) == Some(ExportVerified) ==> EventsOf(later, id) == EventsOf(earlier, id)
  {
    EventsAdvance(earlier[id], later[id]);
  }

  /**
   Activation is for good: in every later database the run has the same events, still verified,
   and the same hashes.
   */
  lemma ActivationIsPermanent(earlier: Database, later: Database, version: string)
    requires ActivationsVerified(earlier.events, earlier.feedback, earlier.activations)
    requires SagasFollowed(later.events) && Extends(later, earlier)
    requires version in earlier.activations
    ensures version in later.activations && version in later.feedback
    ensures var row := later.feedback[version];
      && row == earlier.feedback[version]
      && later.activations[version] == Activation(row.ruleHash, row.sourceHash)
      && CurrentState(later.events, row.runId) == Some(ExportVerified)
      && EventsOf(later.events, row.runId) == EventsOf(earlier.events, row.runId)
  {
    StateAdvances(earlier.events, later.events, earlier.feedback[version].runId);
  }

  /** Once a run has moved past the state recorded with its hashes, recovery with hashes is refused for good. */
  lemma MovedRunsNeverReconcile(earlier: Database, later: Database, id: string,
                                dataHash: Option<string>, exportHash: Option<string>)
    requires SnapshotsDurable(earlier.events, earlier.crossStore)
    requires SagasFollowed(later.events) && Extends(later, earlier)
    requires id in earlier.crossStore && CurrentState(earlier.events, id) != Some(earlier.crossStore[id].state)
    ensures !Reconciles(later, id, dataHash, exportHash)
  {
    StateAdvances(earlier.events, later.events, id);
    RankDetermines(CurrentState(earlier.events, id).value, earlier.crossStore[id].state);
  }

  lemma RankDetermines(s: State, t: State)
    ensures Rank(s) == Rank(t) ==> s == t
  {
  }

  predicate Reconciles(db: Database, id: string, dataHash: Option<string>, exportHash: Option<string>) {
    && id in db.crossStore
    && dataHash == Some(db.crossStore[id].dataHash)
    && (exportHash.Some? ==> db.crossStore[id].exportHash == exportHash)
    && CurrentState(db.events, id) == Some(db.crossStore[id].state)
  }

  // ----- Appending -----

  predicate Letter(c: char) {
    'A' <= c <= 'Z' || 'a' <= c <= 'z'
  }

  predicate Digit(c: char) {
    '0' <= c <= '9'
  }

  predicate ContractValue(text: string) {
    && 1 <= |text| <= 128
    && Letter(text[0])
    && forall c :: c in text ==> Letter(c) || Digit(c) || c in "_.-"
  }

  predicate ControlledCode(code: Option<string>) {
    code.Some? ==>
      && 1 <= |code.value| <= 64
      && 'A' <= code.value[0] <= 'Z'
      && forall c :: c in code.value ==> 'A' <= c <= 'Z' || Digit(c) || c == '_'
  }

  predicate Nonce(text: string) {
    |text| == 32 && forall c :: c in text ==> Digit(c) || 'a' <= c <= 'f'
  }

  const UPPER := "ABCDEFGHIJKLMNOPQRSTUVWXYZ"
  const LOWER := "abcdefghijklmnopqrstuvwxyz"
  const DIGITS := "0123456789"

  /** One character of the first kind, then at most `most` of the second. */
  ghost predicate HasShape(text: string, first: string, rest: string, most: nat) {
    1 <= |text| <= most + 1 && text[0] in first && forall c :: c in text[1..] ==> c in rest
  }

  /** The formats, by their alphabets. */
  lemma FormatsMean(text: string)
    ensures ContractValue(text) <==> HasShape(text, UPPER + LOWER, UPPER + LOWER + DIGITS + "_.-", 127)
    ensures Nonce(text) <==> |text| == 32 && forall c :: c in text ==> c in DIGITS + LOWER[..6]
  {
    AlphabetsMean();
    if text != [] {
      assert text == [text[0]] + text[1..];
    }
  }

  lemma CodesMean(code: Option<string>)
    ensures ControlledCode(code) <==> code.None? || HasShape(code.value, UPPER, UPPER + DIGITS + "_", 63)
  {
    AlphabetsMean();
    if code.Some? && code.value != [] {
      var text := code.value;
      assert text == [text[0]] + text[1..];
      forall c ensures c in UPPER + DIGITS + "_" <==> 'A' <= c <= 'Z' || Digit(c) || c == '_' {
        assert c in UPPER + DIGITS + "_" <==> c in UPPER || c in DIGITS || c in "_";
      }
    }
  }

  lemma AlphabetsMean()
    ensures forall c :: 'A' <= c <= 'Z' <==> c in UPPER
    ensures forall c :: 'a' <= c <= 'z' <==> c in LOWER
    ensures forall c :: '0' <= c <= '9' <==> c in DIGITS
    ensures forall c :: 'a' <= c <= 'f' <==> c in LOWER[..6]
  {
    assert LOWER[..6] == "abcdef";
  }

  /** A request to append; `point` is `None` when the stage or the state is not a controlled one. */
  datatype Draft = Draft(point: Option<Point>, reason: Option<string>, warning: Option<string>,
                         fields: map<Name, Value>, attempt: int, timestamp: string)

  function Row(digest: Digest, db: Database, runId: string, draft: Draft): Event
    requires draft.point.Some? && Redact(draft.fields).Some?
  {
    NewEvent(digest, runId, EventsOf(db.events, runId), draft.point.value, draft.reason, draft.warning,
             Redact(draft.fields).value, draft.attempt, draft.timestamp)
  }

  function Added(events: Events, runId: string, e: Event): Events {
    events[runId := EventsOf(events, runId) + [e]]
  }

  function Inserted(db: Database, runId: string, e: Event): Database {
    db.(events := Added(db.events, runId, e), owner := db.owner[e.eventId := runId])
  }

  /** Why an append is refused, in the order of the checks. */
  function Refusal(digest: Digest, db: Database, runId: string, draft: Draft): Option<Failure> {
    if draft.point.None? then Some(InvalidStageTransition)
    else if draft.attempt < 1 || !ControlledCode(draft.reason) || !ControlledCode(draft.warning) then Some(InvalidValue)
    else if Redact(draft.fields).None? then Some(Failure.Unredacted)
    else if runId !in db.runs then Some(UnknownKey)
    else if !ValidTransition(Last(History(EventsOf(db.events, runId))), draft.point.value)
    then Some(InvalidStageTransition)
    else if Row(digest, db, runId, draft).eventId in db.owner then Some(Duplicate)
    else None
  }

  /**
   What an accepted request asks for: controlled codes, an allowed payload, a known run, and a point
   with which the run is still a prefix of the saga.
   */
  ghost predicate Acceptable(db: Database, runId: string, draft: Draft) {
    && draft.point.Some? && draft.attempt >= 1
    && ControlledCode(draft.reason) && ControlledCode(draft.warning)
    && (forall n :: n in draft.fields ==> Allowed(n) && draft.fields[n].Plain?)
    && runId in db.runs
    && IsSagaPrefix(History(EventsOf(db.events, runId)) + [draft.point.value])
  }

  /** An append is refused exactly when something is wrong with it, or its event id is taken. */
  lemma RefusalMeans(digest: Digest, db: Database, runId: string, draft: Draft)
    requires SagasFollowed(db.events)
    ensures Refusal(digest, db, runId, draft) in {None, Some(Duplicate)} <==> Acceptable(db, runId, draft)
  {
    EmptyHistory();
    assert History([]) == [];
    if draft.point.Some? {
      TransitionsFollowSaga(History(EventsOf(db.events, runId)), draft.point.value);
    }
  }

  /** Each refusal is for something that is wrong. */
  ghost predicate Explains(db: Database, runId: string, draft: Draft, failure: Failure) {
    match failure
    case InvalidValue => draft.attempt < 1 || !ControlledCode(draft.reason) || !ControlledCode(draft.warning)
    case Unredacted => exists n :: n in draft.fields && !(Allowed(n) && draft.fields[n].Plain?)
    case UnknownKey => runId !in db.runs
    case InvalidStageTransition =>
      draft.point.None? || !IsSagaPrefix(History(EventsOf(db.events, runId)) + [draft.point.value])
    case Duplicate => true
    case _ => false
  }

  lemma RefusalIsExplained(digest: Digest, db: Database, runId: string, draft: Draft)
    requires SagasFollowed(db.events) && Refusal(digest, db, runId, draft).Some?
    ensures Explains(db, runId, draft, Refusal(digest, db, runId, draft).value)
  {
    EmptyHistory();
    assert History([]) == [];
    if draft.point.Some? {
      TransitionsFollowSaga(History(EventsOf(db.events, runId)), draft.point.value);
    }
  }

  /** With an injective digest no append ever meets the id of another event. */
  lemma EventIdsAreFresh(digest: Digest, events: Events, owner: map<string, string>, runId: string, attemptId: string)
    requires Injective(digest) && EventsAppended(digest, events) && OwnersHaveEvents(events, owner)
    ensures digest(EventIdentity(runId, |EventsOf(events, runId)| + 1, attemptId)) !in owner
  {
    var identity := EventIdentity(runId, |EventsOf(events, runId)| + 1, attemptId);
    forall key | key in owner ensures key != digest(identity) {
      AppendedIdsDiffer(digest, owner[key], EventsOf(events, owner[key]), key, identity);
    }
  }

  lemma AppendedIdsDiffer(digest: Digest, runId: string, events: seq<Event>, key: string, identity: Payload)
    requires Injective(digest) && AppendedRun(digest, runId, events) && HasEvent(events, key)
    requires identity.EventIdentity? && (identity.runId == runId ==> identity.sequence > |events|)
    ensures key != digest(identity)
  {
    var i :| 0 <= i < |events| && events[i].eventId == key;
    assert Appended(digest, runId, events[..i], events[i]);
    assert EventIdentity(runId, i + 1, events[i].attemptId) != identity;
  }

  lemma HistoryGrows(events: seq<Event>, e: Event)
    ensures History(events + [e]) == History(events) + [Point(e.stage, e.state)]
  {
  }

  lemma EmptyHistory()
    ensures IsSagaPrefix([])
  {
    assert [] <= Saga(1);
  }

  lemma AddedIsAppended(digest: Digest, events: Events, runId: string, e: Event)
    requires EventsAppended(digest, events) && AppendedRun(digest, runId, EventsOf(events, runId) + [e])
    ensures EventsAppended(digest, Added(events, runId, e))
    ensures EventsGrow(Added(events, runId, e), events)
  {
  }

  lemma AddedFollowsSaga(events: Events, runId: string, e: Event)
    requires SagasFollowed(events) && ValidTransition(Last(History(EventsOf(events, runId))), Point(e.stage, e.state))
    ensures SagasFollowed(Added(events, runId, e))
  {
    HistoryGrows(EventsOf(events, runId), e);
    EmptyHistory();
    assert History([]) == [];
    TransitionsFollowSaga(History(EventsOf(events, runId)), Point(e.stage, e.state));
  }

  lemma AddedIsIndexed(events: Events, owner: map<string, string>, runId: string, e: Event)
    requires EventsOwned(events, owner) && OwnersHaveEvents(events, owner) && e.eventId !in owner
    ensures EventsOwned(Added(events, runId, e), owner[e.eventId := runId])
    ensures OwnersHaveEvents(Added(events, runId, e), owner[e.eventId := runId])
  {
    var after, index := Added(events, runId, e), owner[e.eventId := runId];
    var before, longer := EventsOf(events, runId), EventsOf(after, runId);
    assert longer[|before|] == e;
    forall key | key in index ensures HasEvent(EventsOf(after, index[key]), key) {
      if key != e.eventId && index[key] == runId {
        var i :| 0 <= i < |before| && before[i].eventId == key;
        assert longer[i].eventId == key;
      }
    }
  }

  lemma ActivationsSurvive(earlier: Events, later: Events, feedback: map<string, FeedbackRule>,
                           activations: map<string, Activation>)
    requires EventsGrow(later, earlier) && SagasFollowed(later) && ActivationsVerified(earlier, feedback, activations)
    ensures ActivationsVerified(later, feedback, activations)
  {
    forall v | v in activations
      ensures CurrentState(later, feedback[v].runId) == Some(ExportVerified)
    {
      VerifiedStays(earlier, later, feedback[v].runId);
    }
  }

  lemma VerifiedStays(earlier: Events, later: Events, id: string)
    requires SagasFollowed(later) && EventsGrow(later, earlier) && CurrentState(earlier, id) == Some(ExportVerified)
    ensures CurrentState(later, id) == Some(ExportVerified)
  {
    StateAdvances(earlier, later, id);
  }

  lemma SnapshotsSurvive(earlier: Events, later: Events, crossStore: map<string, CrossStore>)
    requires EventsGrow(later, earlier) && SagasFollowed(later) && SnapshotsDurable(earlier, crossStore)
    ensures SnapshotsDurable(later, crossStore)
  {
    forall id | id in crossStore
      ensures CurrentState(later, id).Some? && Rank(crossStore[id].state) <= Rank(CurrentState(later, id).value)
    {
      StateAdvances(earlier, later, id);
    }
  }

  lemma AddedIsConsistent(digest: Digest, runs: set<string>, events: Events, owner: map<string, string>,
                          runId: string, e: Event)
    requires EventsConsistent(digest, runs, events, owner) && runId in runs && e.eventId !in owner
    requires AppendedRun(digest, runId, EventsOf(events, runId) + [e])
    requires ValidTransition(Last(History(EventsOf(events, runId))), Point(e.stage, e.state))
    ensures EventsConsistent(digest, runs, Added(events, runId, e), owner[e.eventId := runId])
    ensures EventsGrow(Added(events, runId, e), events)
  {
    AddedIsAppended(digest, events, runId, e);
    AddedFollowsSaga(events, runId, e);
    AddedIsIndexed(events, owner, runId, e);
  }

  lemma SourcesStay(owner: map<string, string>, feedback: map<string, FeedbackRule>, eventId: string, runId: string)
    requires FeedbackSourced(owner, feedback) && eventId !in owner
    ensures FeedbackSourced(owner[eventId := runId], feedback)
  {
  }

  lemma InsertedExtends(db: Database, runId: string, e: Event)
    requires EventsGrow(Added(db.events, runId, e), db.events) && e.eventId !in db.owner
    ensures Extends(Inserted(db, runId, e), db)
  {
  }

  /** Writing an allowed row keeps the database consistent. */
  lemma InsertedIsConsistent(digest: Digest, db: Database, runId: string, e: Event)
    requires Consistent(digest, db) && runId in db.runs && e.eventId !in db.owner
    requires AppendedRun(digest, runId, EventsOf(db.events, runId) + [e])
    requires ValidTransition(Last(History(EventsOf(db.events, runId))), Point(e.stage, e.state))
    ensures Consistent(digest, Inserted(db, runId, e)) && Extends(Inserted(db, runId, e), db)
  {
    var after := Inserted(db, runId, e);
    AddedIsConsistent(digest, db.runs.Keys, db.events, db.owner, runId, e);
    ActivationsSurvive(db.events, after.events, db.feedback, db.activations);
    SnapshotsSurvive(db.events, after.events, db.crossStore);
    SourcesStay(db.owner, db.feedback, e.eventId, runId);
    InsertedExtends(db, runId, e);
  }

  lemma RowIsAppended(digest: Digest, db: Database, runId: string, draft: Draft)
    requires EventsAppended(digest, db.events)
    requires draft.point.Some? && Redact(draft.fields).Some?
    ensures var e := Row(digest, db, runId, draft);
      && AppendedRun(digest, runId, EventsOf(db.events, runId) + [e])
      && e.eventId == digest(EventIdentity(runId, |EventsOf(db.events, runId)| + 1, e.attemptId))
      && Point(e.stage, e.state) == draft.point.value
      && e.fields == Redact(draft.fields).value
  {
    var events, e := EventsOf(db.events, runId), Row(digest, db, runId, draft);
    NewEventIsAppended(digest, runId, events, draft.point.value, draft.reason, draft.warning,
                       Redact(draft.fields).value, draft.attempt, draft.timestamp);
    var longer := events + [e];
    assert longer[..|events|] == events;
    assert Appended(digest, runId, longer[..|events|], longer[|events|]);
  }

  /** The event says what was asked for. */
  ghost predicate Carries(digest: Digest, e: Event, runId: string, draft: Draft) {
    && e.runId == runId && draft.point == Some(Point(e.stage, e.state))
    && e.attemptId == digest(StageAttempt(runId, e.stage, draft.attempt))
    && e.reason == draft.reason && e.warning == draft.warning && e.timestamp == draft.timestamp
    && e.fields.Keys == draft.fields.Keys
    && forall n :: n in e.fields ==> draft.fields[n] == Plain(e.fields[n])
  }

  lemma NeverDuplicate(digest: Digest, db: Database, runId: string, draft: Draft)
    requires Injective(digest) && EventsAppended(digest, db.events) && OwnersHaveEvents(db.events, db.owner)
    ensures Refusal(digest, db, runId, draft) != Some(Duplicate)
  {
    if draft.point.Some? && Redact(draft.fields).Some? {
      RowIsAppended(digest, db, runId, draft);
      EventIdsAreFresh(digest, db.events, db.owner, runId, Row(digest, db, runId, draft).attemptId);
    }
  }

  lemma AnswersRightly(digest: Digest, db: Database, runId: string, draft: Draft)
    requires Consistent(digest, db)
    ensures var refusal := Refusal(digest, db, runId, draft);
      && (refusal.None? ==> Acceptable(db, runId, draft))
      && (refusal.None? ==> Carries(digest, Row(digest, db, runId, draft), runId, draft))
      && (refusal.Some? ==> Explains(db, runId, draft, refusal.value))
      && (Injective(digest) ==> refusal != Some(Duplicate) && (refusal.None? <==> Acceptable(db, runId, draft)))
  {
    RefusalMeans(digest, db, runId, draft);
    if Refusal(digest, db, runId, draft).Some? {
      RefusalIsExplained(digest, db, runId, draft);
    }
    if Injective(digest) {
      NeverDuplicate(digest, db, runId, draft);
    }
  }

  /** Appending to a valid chain keeps it valid unless a field is called `event_hash`. */
  lemma AppendKeepsChain(digest: Digest, runId: string, before: seq<Event>, e: Event)
    requires Injective(digest) && AppendedRun(digest, runId, before) && AppendedRun(digest, runId, before + [e])
    requires ValidChain(digest, before)
    ensures ValidChain(digest, before + [e]) <==> EventHash !in e.fields
  {
    AppendedRunValidates(digest, runId, before);
    AppendedRunValidates(digest, runId, before + [e]);
    assert forall x :: x in before + [e] <==> x in before || x == e;
  }

  lemma ArtifactFields(hash: string)
    ensures Redact(map[Extra("artifact_sha256") := Plain(Str(hash))]) ==
      Some(map[Extra("artifact_sha256") := Str(hash)])
  {
    var name := Extra("artifact_sha256");
    var fields := map[name := Plain(Str(hash))];
    assert Allowed(name);
    assert forall n :: n in fields <==> n == name;
    assert Redact(fields).value == map[name := Str(hash)];
  }

  function ExportDraft(hash: string, attempt: int, timestamp: string): Draft {
    Draft(Some(Point(ExportStage, ExportVerified)), None, None, map[Extra("artifact_sha256") := Plain(Str(hash))],
          attempt, timestamp)
  }

  lemma ExportMoves(digest: Digest, db: Database, runId: string, hash: string, attempt: int, timestamp: string)
    requires Refusal(digest, db, runId, ExportDraft(hash, attempt, timestamp)).None?
    ensures var e := Row(digest, db, runId, ExportDraft(hash, attempt, timestamp));
      && CurrentState(db.events, runId) == Some(ExportPrepared)
      && CurrentState(Inserted(db, runId, e).events, runId) == Some(ExportVerified)
      && e.fields == map[Extra("artifact_sha256") := Str(hash)]
  {
    var before := EventsOf(db.events, runId);
    assert before != [] ==> Last(History(before)).value.state == before[|before| - 1].state;
    ArtifactFields(hash);
  }

  lemma LastOfHistory(events: Events, runId: string)
    ensures var last := Last(History(EventsOf(events, runId)));
      CurrentState(events, runId) == if last.Some? then Some(last.value.state) else None
  {
  }

  /** An export is verified exactly from the prepared state. */
  lemma ExportAccepted(digest: Digest, db: Database, runId: string, hash: string, attempt: int, timestamp: string)
    requires EventsConsistent(digest, db.runs.Keys, db.events, db.owner)
    ensures var refusal := Refusal(digest, db, runId, ExportDraft(hash, attempt, timestamp));
      refusal in {None, Some(Duplicate)} <==> attempt >= 1 && CurrentState(db.events, runId) == Some(ExportPrepared)
  {
    ArtifactFields(hash);
    LastOfHistory(db.events, runId);
  }

  lemma Rewritten<K, V>(rows: map<K, V>, key: K)
    requires key in rows
    ensures rows[key := rows[key]] == rows
  {
  }

  lemma ActivationExtends(db: Database, version: string, activation: Activation)
    requires version !in db.activations
    ensures Extends(db.(activations := db.activations[version := activation]), db)
  {
  }

  lemma ActivationAdded(events: Events, feedback: map<string, FeedbackRule>, activations: map<string, Activation>,
                        version: string)
    requires ActivationsVerified(events, feedback, activations) && version in feedback
    requires CurrentState(events, feedback[version].runId) == Some(ExportVerified)
    ensures ActivationsVerified(events, feedback,
      activations[version := Activation(feedback[version].ruleHash, feedback[version].sourceHash)])
  {
  }

  function Inactive(db: Database): (rows: map<string, FeedbackRule>)
    ensures rows.Keys == db.feedback.Keys - db.activations.Keys
    ensures forall v :: v in rows ==> rows[v] == db.feedback[v]
  {
    map v | v in db.feedback && v !in db.activations :: db.feedback[v]
  }

  lemma CompactionAdded(digest: Digest, db: Database, lineage: string, count: nat)
    requires Consistent(digest, db) && lineage !in db.compactions
    ensures Consistent(digest, db.(compactions := db.compactions[lineage := count]))
    ensures Extends(db.(compactions := db.compactions[lineage := count]), db)
  {
  }

  // ----- The journal -----

  class AuditJournal {
    const digest: Digest
    var db: Database

    ghost predicate Valid()
      reads this
    {
      Consistent(digest, db)
    }

    constructor (digest: Digest)
      ensures Valid() && this.digest == digest && db == EMPTY
    {
      this.digest := digest;
      db := EMPTY;
    }

    method BeginRun(inputs: set<string>, options: map<Name, Value>, contracts: map<string, string>, rule: string,
                    nonce: string)
      returns (r: Result<string, Failure>)
      requires Valid()
      modifies this
      ensures Valid() && Extends(db, old(db))
      ensures r.Ok? <==>
        && Redact(options).Some?
        && (forall k :: k in contracts ==> ContractValue(k) && ContractValue(contracts[k]))
        && Nonce(nonce)
      ensures r.Err? ==> db == old(db) && r.error == if Redact(options).None? then Failure.Unredacted else InvalidValue
      ensures r.Ok? ==> db == old(db).(runs := db.runs) && db.runs.Keys == old(db.runs.Keys) + {r.value}
      ensures r.Ok? && Injective(digest) ==> var run := db.runs[r.value];
        && run.inputs == inputs && run.contracts == contracts && run.rule == rule && run.nonce == nonce
        && Some(run.options) == Redact(options)
    {
      var safe := Redact(options);
      if safe.None? {
        return Err(Failure.Unredacted);
      }
      if !(forall k :: k in contracts ==> ContractValue(k) && ContractValue(contracts[k])) || !Nonce(nonce) {
        return Err(InvalidValue);
      }
      var runKey := digest(RunKey(inputs, safe.value, contracts, rule));
      var runId := digest(RunIdentity(runKey, nonce));
      if runId !in db.runs {
        db := db.(runs := db.runs[runId := Run(runKey, nonce, inputs, safe.value, contracts, rule)]);
      }
      r := Ok(runId);
    }

    method AppendEvent(runId: string, draft: Draft) returns (r: Result<Event, Failure>)
      requires Valid()
      modifies this
      ensures Valid() && Extends(db, old(db))
      ensures r.Err? ==> db == old(db) && Refusal(digest, old(db), runId, draft) == Some(r.error)
      ensures r.Ok? ==> Refusal(digest, old(db), runId, draft).None?
      ensures r.Ok? ==> r.value == Row(digest, old(db), runId, draft) && db == Inserted(old(db), runId, r.value)
      ensures r.Ok? ==> Acceptable(old(db), runId, draft) && Carries(digest, r.value, runId, draft)
      ensures r.Err? ==> Explains(old(db), runId, draft, r.error)
      ensures Injective(digest) ==> r != Err(Duplicate) && (r.Ok? <==> Acceptable(old(db), runId, draft))
      ensures Injective(digest) && r.Ok? && ValidChain(digest, EventsOf(old(db.events), runId)) ==>
        (ValidChain(digest, EventsOf(db.events, runId)) <==> EventHash !in draft.fields)
    {
      var refusal := Refusal(digest, db, runId, draft);
      AnswersRightly(digest, db, runId, draft);
      if refusal.Some? {
        return Err(refusal.value);
      }
      var e := Row(digest, db, runId, draft);
      RowIsAppended(digest, db, runId, draft);
      InsertedIsConsistent(digest, db, runId, e);
      ghost var before := EventsOf(db.events, runId);
      if Injective(digest) && ValidChain(digest, before) {
        AppendKeepsChain(digest, runId, before, e);
      }
      db := Inserted(db, runId, e);
      assert EventsOf(db.events, runId) == before + [e];
      r := Ok(e);
    }

    /** The export is verified only when the published bytes are those of the snapshot. */
    method VerifyExport(runId: string, snapshotHash: string, publishedHash: string, attempt: int, timestamp: string)
      returns (r: Result<Event, Failure>)
      requires Valid()
      modifies this
      ensures Valid() && Extends(db, old(db))
      ensures r.Err? ==> db == old(db)
      ensures snapshotHash != publishedHash ==> r == Err(ExportHashMismatch)
      ensures r.Ok? ==> attempt >= 1 && CurrentState(old(db.events), runId) == Some(ExportPrepared)
      ensures Injective(digest) ==> (r.Ok? <==>
        snapshotHash == publishedHash && attempt >= 1 && CurrentState(old(db.events), runId) == Some(ExportPrepared))
      ensures r.Ok? ==> db == Inserted(old(db), runId, r.value) && r.value.timestamp == timestamp
      ensures r.Ok? ==> CurrentState(db.events, runId) == Some(ExportVerified)
      ensures r.Ok? ==> r.value.fields == map[Extra("artifact_sha256") := Str(publishedHash)]
    {
      if snapshotHash != publishedHash {
        return Err(ExportHashMismatch);
      }
      ExportAccepted(digest, db, runId, snapshotHash, attempt, timestamp);
      r := AppendEvent(runId, ExportDraft(snapshotHash, attempt, timestamp));
      if r.Ok? {
        ExportMoves(digest, old(db), runId, snapshotHash, attempt, timestamp);
      }
    }

    method RecordCrossStoreHashes(runId: string, dataHash: string, exportHash: Option<string>)
      returns (r: Result<(), Failure>)
      requires Valid()
      modifies this
      ensures Valid() && Extends(db, old(db))
      ensures r.Err? ==> db == old(db)
      ensures r.Ok? <==>
        && dataHash != "" && exportHash != Some("")
        && CurrentState(db.events, runId).Some? && CurrentState(db.events, runId) != Some(Pending)
        && (runId in old(db.crossStore) ==>
              old(db.crossStore)[runId].dataHash == dataHash && old(db.crossStore)[runId].exportHash == exportHash)
      ensures r.Err? ==>
        r.error ==
        if dataHash == "" || exportHash == Some("") then InvalidValue
        else if CurrentState(db.events, runId) in {None, Some(Pending)} then InvalidStageTransition
        else SnapshotChanged
      ensures r.Ok? && runId in old(db.crossStore) ==> db == old(db)
      ensures r.Ok? && runId !in old(db.crossStore) ==>
        && Reconciles(db, runId, Some(dataHash), exportHash)
        && db.crossStore[runId].exportHash == exportHash
        && db == old(db).(crossStore := old(db.crossStore)[runId := db.crossStore[runId]])
    {
      if dataHash == "" || exportHash == Some("") {
        return Err(InvalidValue);
      }
      var state := CurrentState(db.events, runId);
      if state.None? || state == Some(Pending) {
        return Err(InvalidStageTransition);
      }
      if runId in db.crossStore {
        var prior := db.crossStore[runId];
        if (prior.dataHash, prior.exportHash) != (dataHash, exportHash) {
          return Err(SnapshotChanged);
        }
      } else {
        db := db.(crossStore := db.crossStore[runId := CrossStore(dataHash, exportHash, state.value)]);
      }
      r := Ok(());
    }

    method ReconcileCrossStore(runId: string, dataHash: Option<string>, exportHash: Option<string>)
      returns (r: Result<(), Failure>)
      ensures r.Ok? <==> Reconciles(db, runId, dataHash, exportHash)
      ensures r == Err(ExportHashMismatch) <==>
        && runId in db.crossStore && dataHash == Some(db.crossStore[runId].dataHash)
        && exportHash.Some? && db.crossStore[runId].exportHash != exportHash
      ensures r.Err? ==> r.error in {SnapshotChanged, ExportHashMismatch}
    {
      if runId !in db.crossStore || dataHash != Some(db.crossStore[runId].dataHash) {
        return Err(SnapshotChanged);
      }
      if exportHash.Some? && db.crossStore[runId].exportHash != exportHash {
        return Err(ExportHashMismatch);
      }
      if CurrentState(db.events, runId) != Some(db.crossStore[runId].state) {
        return Err(SnapshotChanged);
      }
      r := Ok(());
    }

    /** Walks the chain with a running previous hash; it asks nothing of the database it finds. */
    method ValidateRun(runId: string) returns (r: Result<seq<Event>, Failure>)
      ensures r.Ok? <==> ValidChain(digest, EventsOf(db.events, runId))
      ensures r.Ok? ==> r.value == EventsOf(db.events, runId)
      ensures r.Err? ==> exists i :: FirstBroken(digest, EventsOf(db.events, runId), i, r.error)
    {
      var events := EventsOf(db.events, runId);
      var previous := GenesisHash();
      var i := 0;
      while i < |events|
        invariant 0 <= i <= |events|
        invariant previous == PreviousOf(events[..i])
        invariant ValidUpTo(digest, events, i)
      {
        var e := events[i];
        if e.sequence != i + 1 {
          BrokenAt(digest, events, i, SequenceGap);
          return Err(SequenceGap);
        }
        if e.previousHash != previous || digest(Body(Rehashed(e))) != e.eventHash {
          BrokenAt(digest, events, i, HashChainInvalid);
          return Err(HashChainInvalid);
        }
        OneMoreLink(digest, events, i);
        previous := e.eventHash;
        i := i + 1;
      }
      r := Ok(events);
    }

    method Recover(runId: string, dataHash: Option<string>, exportHash: Option<string>)
      returns (r: Result<Run, Failure>)
      ensures r.Ok? <==>
        && ValidChain(digest, EventsOf(db.events, runId))
        && (dataHash.Some? || exportHash.Some? ==> Reconciles(db, runId, dataHash, exportHash))
        && runId in db.runs
      ensures r.Ok? ==> r.value == db.runs[runId]
      ensures ValidChain(digest, EventsOf(db.events, runId)) && r.Err? ==>
        if (dataHash.Some? || exportHash.Some?) && !Reconciles(db, runId, dataHash, exportHash)
        then r.error in {SnapshotChanged, ExportHashMismatch}
        else r.error == UnknownKey
      ensures !ValidChain(digest, EventsOf(db.events, runId)) ==>
        r.Err? && exists i :: FirstBroken(digest, EventsOf(db.events, runId), i, r.error)
    {
      var valid := ValidateRun(runId);
      if valid.Err? {
        return Err(valid.error);
      }
      if dataHash.Some? || exportHash.Some? {
        var reconciled := ReconcileCrossStore(runId, dataHash, exportHash);
        if reconciled.Err? {
          return Err(reconciled.error);
        }
      }
      r := if runId in db.runs then Ok(db.runs[runId]) else Err(UnknownKey);
    }

    method AddFeedback(version: string, rule: FeedbackRule) returns (r: Result<(), Failure>)
      requires Valid()
      modifies this
      ensures Valid() && Extends(db, old(db))
      ensures r.Ok? <==>
        && rule.ruleHash != "" && rule.sourceHash != ""
        && HasEvent(EventsOf(db.events, rule.runId), rule.sourceEventId)
        && version !in old(db.feedback)
      ensures r.Err? ==>
        r.error ==
        if rule.ruleHash == "" || rule.sourceHash == "" then InvalidValue
        else if !HasEvent(EventsOf(db.events, rule.runId), rule.sourceEventId) then FeedbackDrift
        else Duplicate
      ensures db == if r.Ok? then old(db).(feedback := old(db.feedback)[version := rule]) else old(db)
    {
      if rule.ruleHash == "" || rule.sourceHash == "" {
        return Err(InvalidValue);
      }
      if HasEvent(EventsOf(db.events, rule.runId), rule.sourceEventId) {
        assert rule.sourceEventId in db.owner && db.owner[rule.sourceEventId] == rule.runId;
      }
      if rule.sourceEventId !in db.owner || db.owner[rule.sourceEventId] != rule.runId {
        return Err(FeedbackDrift);
      }
      if version in db.feedback {
        return Err(Duplicate);
      }
      db := db.(feedback := db.feedback[version := rule]);
      r := Ok(());
    }

    method ActivateFeedback(version: string, ruleHash: string, sourceHash: string)
      returns (r: Result<FeedbackRule, Failure>)
      requires Valid()
      modifies this
      ensures Valid() && Extends(db, old(db))
      ensures r.Ok? <==>
        && version in db.feedback
        && CurrentState(db.events, db.feedback[version].runId) == Some(ExportVerified)
        && db.feedback[version].ruleHash == ruleHash && db.feedback[version].sourceHash == sourceHash
      ensures r.Err? ==> db == old(db)
      ensures r.Err? ==>
        r.error ==
        if version !in db.feedback then UnknownKey
        else if CurrentState(db.events, db.feedback[version].runId) != Some(ExportVerified) then InvalidStageTransition
        else FeedbackDrift
      ensures r.Ok? ==> r.value == db.feedback[version]
      ensures r.Ok? ==> db == old(db).(activations := old(db.activations)[version := Activation(ruleHash, sourceHash)])
    {
      ExtendsItself(db);
      if version !in db.feedback {
        return Err(UnknownKey);
      }
      var row := db.feedback[version];
      if CurrentState(db.events, row.runId) != Some(ExportVerified) {
        return Err(InvalidStageTransition);
      }
      if row.ruleHash != ruleHash || row.sourceHash != sourceHash {
        return Err(FeedbackDrift);
      }
      if version !in db.activations {
        ActivationAdded(db.events, db.feedback, db.activations, version);
        ActivationExtends(db, version, Activation(ruleHash, sourceHash));
        db := db.(activations := db.activations[version := Activation(ruleHash, sourceHash)]);
      } else {
        Rewritten(db.activations, version);
      }
      r := Ok(row);
    }

    /** Compaction records the lineage of what is inactive; it removes nothing. */
    method CompactFeedback() returns (inactive: nat)
      requires Valid()
      modifies this
      ensures Valid() && Extends(db, old(db))
      ensures inactive == |old(db.feedback.Keys) - old(db.activations.Keys)|
      ensures var lineage := digest(Lineage(Inactive(old(db))));
        db == if inactive == 0 || lineage in old(db.compactions) then old(db)
              else old(db).(compactions := old(db.compactions)[lineage := inactive])
      ensures inactive > 0 ==> digest(Lineage(Inactive(old(db)))) in db.compactions
    {
      ExtendsItself(db);
      inactive := |Inactive(db)|;
      var lineage := digest(Lineage(Inactive(db)));
      if inactive > 0 && lineage !in db.compactions {
        CompactionAdded(digest, db, lineage, inactive);
        db := db.(compactions := db.compactions[lineage := inactive]);
      }
    }
  }

  /** Position `i` is the first one that does not link, and `failure` says how. */
  ghost predicate FirstBroken(digest: Digest, events: seq<Event>, i: int, failure: Failure) {
    && 0 <= i < |events|
    && ValidChain(digest, events[..i])
    && !Linked(digest, events[..i], events[i])
    && failure == if events[i].sequence != i + 1 then SequenceGap else HashChainInvalid
  }

  ghost predicate ValidUpTo(digest: Digest, events: seq<Event>, i: nat)
    requires i <= |events|
  {
    forall j {:trigger events[..j]} :: 0 <= j < i ==> Linked(digest, events[..j], events[j])
  }

  lemma OneMoreLink(digest: Digest, events: seq<Event>, i: nat)
    requires i < |events| && ValidUpTo(digest, events, i) && Linked(digest, events[..i], events[i])
    ensures ValidUpTo(digest, events, i + 1) && PreviousOf(events[..i + 1]) == events[i].eventHash
  {
  }

  lemma BrokenAt(digest: Digest, events: seq<Event>, i: nat, failure: Failure)
    requires i < |events| && !Linked(digest, events[..i], events[i]) && ValidUpTo(digest, events, i)
    requires failure == if events[i].sequence != i + 1 then SequenceGap else HashChainInvalid
    ensures !ValidChain(digest, events) && FirstBroken(digest, events, i, failure)
  {
    forall j | 0 <= j < i ensures Linked(digest, events[..i][..j], events[..i][j]) {
      assert events[..i][..j] == events[..j];
    }
  }

  // ----- Where a journal fails -----

  lemma OneRunIsConsistent(digest: Digest, runId: string, run: Run)
    requires run.runKey == digest(RunKey(run.inputs, run.options, run.contracts, run.rule))
    requires runId == digest(RunIdentity(run.runKey, run.nonce))
    ensures Consistent(digest, EMPTY.(runs := map[runId := run]))
  {
  }

  function HashFieldDraft(): Draft {
    Draft(Some(Point(RunStage, Pending)), None, None, map[EventHash := Plain(Str("x"))], 1, "")
  }

  lemma HashFieldIsAccepted(digest: Digest, db: Database, runId: string)
    requires runId in db.runs && db.events == map[] && db.owner == map[]
    ensures Redact(HashFieldDraft().fields).Some? && Refusal(digest, db, runId, HashFieldDraft()).None?
  {
    assert History([]) == [];
  }

  /** A redacted, accepted append whose run no longer validates: a first event with a field called `event_hash`. */
  lemma EventHashFieldBreaksRun(digest: Digest) returns (db: Database, runId: string)
    requires Injective(digest)
    ensures Consistent(digest, db) && Refusal(digest, db, runId, HashFieldDraft()).None?
    ensures ValidChain(digest, EventsOf(db.events, runId))
    ensures !ValidChain(digest, EventsOf(Inserted(db, runId, Row(digest, db, runId, HashFieldDraft())).events, runId))
  {
    var runKey := digest(RunKey({}, map[], map[], ""));
    runId := digest(RunIdentity(runKey, ""));
    var run := Run(runKey, "", {}, map[], map[], "");
    db := EMPTY.(runs := map[runId := run]);
    OneRunIsConsistent(digest, runId, run);
    HashFieldIsAccepted(digest, db, runId);
    RowIsAppended(digest, db, runId, HashFieldDraft());
    AppendKeepsChain(digest, runId, [], Row(digest, db, runId, HashFieldDraft()));
  }

  function PlainDraft(point: Point): Draft {
    Draft(Some(point), None, None, map[], 1, "")
  }

  lemma PlainDraftsAreAccepted(digest: Digest, db: Database, runId: string, point: Point)
    requires Injective(digest) && EventsAppended(digest, db.events) && OwnersHaveEvents(db.events, db.owner)
    requires runId in db.runs && ValidTransition(Last(History(EventsOf(db.events, runId))), point)
    ensures Refusal(digest, db, runId, PlainDraft(point)).None?
  {
    NeverDuplicate(digest, db, runId, PlainDraft(point));
  }

  /** One more event without fields; the run keeps validating. */
  method AppendPlain(journal: AuditJournal, runId: string, point: Point, ghost before: seq<Point>)
    requires Injective(journal.digest) && journal.Valid() && runId in journal.db.runs
    requires History(EventsOf(journal.db.events, runId)) == before && ValidTransition(Last(before), point)
    requires ValidChain(journal.digest, EventsOf(journal.db.events, runId))
    modifies journal
    ensures journal.Valid() && runId in journal.db.runs && journal.db.crossStore == old(journal.db.crossStore)
    ensures History(EventsOf(journal.db.events, runId)) == before + [point]
    ensures CurrentState(journal.db.events, runId) == Some(point.state)
    ensures ValidChain(journal.digest, EventsOf(journal.db.events, runId))
  {
    PlainDraftsAreAccepted(journal.digest, journal.db, runId, point);
    ghost var db := journal.db;
    var r := journal.AppendEvent(runId, PlainDraft(point));
    RowMoves(db, runId, r.value);
  }

  lemma RowMoves(db: Database, runId: string, e: Event)
    ensures var after := Inserted(db, runId, e);
      && after.runs == db.runs && after.crossStore == db.crossStore
      && History(EventsOf(after.events, runId)) == History(EventsOf(db.events, runId)) + [Point(e.stage, e.state)]
      && CurrentState(after.events, runId) == Some(e.state)
  {
    HistoryGrows(EventsOf(db.events, runId), e);
  }

  method NewRun(digest: Digest) returns (journal: AuditJournal, runId: string)
    ensures fresh(journal) && journal.Valid() && journal.digest == digest && runId in journal.db.runs
    ensures EventsOf(journal.db.events, runId) == [] && journal.db.crossStore == map[]
  {
    journal := new AuditJournal(digest);
    var began := journal.BeginRun({}, map[], map[], "", seq(32, _ => '0'));
    runId := began.value;
  }

  method PendingRun(digest: Digest) returns (journal: AuditJournal, runId: string)
    requires Injective(digest)
    ensures fresh(journal) && journal.Valid() && journal.digest == digest && runId in journal.db.runs
    ensures History(EventsOf(journal.db.events, runId)) == [Point(RunStage, Pending)]
    ensures ValidChain(digest, EventsOf(journal.db.events, runId)) && journal.db.crossStore == map[]
  {
    journal, runId := NewRun(digest);
    AppendPlain(journal, runId, Point(RunStage, Pending), []);
  }

  /** A new run whose data is committed. */
  method CommittedRun(digest: Digest) returns (journal: AuditJournal, runId: string)
    requires Injective(digest)
    ensures fresh(journal) && journal.Valid() && journal.digest == digest && runId in journal.db.runs
    ensures History(EventsOf(journal.db.events, runId)) == [Point(RunStage, Pending), Point(DataStage, DataCommitted)]
    ensures CurrentState(journal.db.events, runId) == Some(DataCommitted)
    ensures ValidChain(digest, EventsOf(journal.db.events, runId)) && journal.db.crossStore == map[]
  {
    journal, runId := PendingRun(digest);
    AppendPlain(journal, runId, Point(DataStage, DataCommitted), [Point(RunStage, Pending)]);
  }

  /** ... and whose data hash is recorded. */
  method RecordedRun(digest: Digest, hash: string) returns (journal: AuditJournal, runId: string)
    requires Injective(digest) && hash != ""
    ensures fresh(journal) && journal.Valid() && journal.digest == digest && runId in journal.db.runs
    ensures History(EventsOf(journal.db.events, runId)) == [Point(RunStage, Pending), Point(DataStage, DataCommitted)]
    ensures ValidChain(digest, EventsOf(journal.db.events, runId))
    ensures Reconciles(journal.db, runId, Some(hash), None)
    ensures journal.db.crossStore[runId] == CrossStore(hash, None, DataCommitted)
  {
    journal, runId := CommittedRun(digest);
    var recorded := journal.RecordCrossStoreHashes(runId, hash, None);
  }

  /**
   Recovery with the very hash that was recorded: it works at first, and is refused once the
   export is prepared, although the chain is still valid.
   */
  method RecoveryAfterMove(digest: Digest, hash: string)
    returns (journal: AuditJournal, runId: string, atFirst: Result<Run, Failure>, later: Result<Run, Failure>)
    requires Injective(digest) && hash != ""
    ensures fresh(journal) && journal.Valid() && journal.digest == digest
    ensures runId in journal.db.crossStore
    ensures journal.db.crossStore[runId] == CrossStore(hash, None, DataCommitted)
    ensures CurrentState(journal.db.events, runId) == Some(ExportPrepared)
    ensures ValidChain(digest, EventsOf(journal.db.events, runId))
    ensures atFirst.Ok? && later.Err?
  {
    journal, runId := RecordedRun(digest, hash);
    atFirst := journal.Recover(runId, Some(hash), None);
    ghost var points := [Point(RunStage, Pending), Point(DataStage, DataCommitted)];
    AppendPlain(journal, runId, Point(ExportStage, ExportPrepared), points);
    later := journal.Recover(runId, Some(hash), None);
  }
}
