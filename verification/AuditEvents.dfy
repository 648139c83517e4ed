/**
 The events of the audit journal: redacted payloads, the stage machine of a run
 and the hash chain of a run.
 */
module AuditEvents {
  import opened Outcomes

  // ----- Values and payloads -----

  /** What `canonical` leaves of a field value. */
  datatype Scalar = Null | Str(text: string) | Int(number: int) | Bool(flag: bool)

  /** A caller's field value; nested and unsupported ones never pass redaction. */
  datatype Value = Plain(scalar: Scalar) | Nested | Unsupported

  /** Field names: those of the event envelope, and all others. */
  datatype Name =
    | ContractVersion | RunId | EventId | EventSequence | StageAttemptId | StageCode | StateCode
    | ReasonCode | WarningCode | PreviousEventHash | EventHash | TimestampUtc
    | Extra(text: string)

  const EXTRA_ALLOWLIST: set<string> := {
    "run_key", "artifact_id", "artifact_sha256", "input_ref_hash", "output_ref_hash", "rule_version_id",
    "source_row_id", "line_id", "target_row_id", "candidate_id", "match_result_id", "calculation_id",
    "trace_id", "write_id", "row_number", "column_number", "coordinate", "hashed_sheet_ref", "count",
    "boolean_flag"
  }

  predicate Allowed(name: Name) {
    name.Extra? ==> name.text in EXTRA_ALLOWLIST
  }

  type Fields = map<Name, Scalar>

  /** Strict redaction: only allowlisted names, only flat values. */
  function Redact(fields: map<Name, Value>): (r: Option<Fields>)
    ensures r.Some? <==> forall n :: n in fields ==> Allowed(n) && fields[n].Plain?
    ensures r.Some? ==> r.value.Keys == fields.Keys && forall n :: n in fields ==> fields[n] == Plain(r.value[n])
  {
    if forall n :: n in fields ==> Allowed(n) && fields[n].Plain?
    then Some(map n | n in fields :: fields[n].scalar)
    else None
  }

  function Unredacted(fields: Fields): map<Name, Value> {
    map n | n in fields :: Plain(fields[n])
  }

  /** Redacting stored fields again, as every payload does, changes nothing. */
  lemma RedactIsStable(fields: map<Name, Value>)
    requires Redact(fields).Some?
    ensures Redact(Unredacted(Redact(fields).value)) == Redact(fields)
  {
    var once := Redact(fields).value;
    var twice := Redact(Unredacted(once)).value;
    assert twice == once;
  }

  /** Everything the journal hashes; `digest` is one hash over all of it. */
  datatype Payload =
    | Body(entries: Fields)
    | StageAttempt(runId: string, stage: Stage, attempt: int)
    | EventIdentity(runId: string, sequence: int, attemptId: string)
    | RunKey(inputs: set<string>, options: Fields, contracts: map<string, string>, rule: string)
    | RunIdentity(runKey: string, nonce: string)
    | Lineage(rules: map<string, FeedbackRule>)

  /** One stored feedback rule version. */
  datatype FeedbackRule = FeedbackRule(runId: string, sourceEventId: string, ruleHash: string, sourceHash: string)

  type Digest = Payload -> string

  ghost predicate Injective(digest: Digest) {
    forall p, q :: digest(p) == digest(q) ==> p == q
  }

  // ----- Stages -----

  datatype Stage = RunStage | DataStage | ExportStage | FeedbackStage | RecoveryStage

  datatype State = Pending | DataCommitted | ExportPrepared | ExportVerified

  function StageName(s: Stage): string {
    match s
    case RunStage => "RUN"
    case DataStage => "DATA"
    case ExportStage => "EXPORT"
    case FeedbackStage => "FEEDBACK"
    case RecoveryStage => "RECOVERY"
  }

  function StateName(s: State): string {
    match s
    case Pending => "PENDING"
    case DataCommitted => "DATA_COMMITTED"
    case ExportPrepared => "EXPORT_PREPARED"
    case ExportVerified => "EXPORT_VERIFIED"
  }

  lemma NamesDetermine(a: Stage, b: Stage, s: State, t: State)
    ensures StageName(a) == StageName(b) ==> a == b
    ensures StateName(s) == StateName(t) ==> s == t
  {
  }

  datatype Point = Point(stage: Stage, state: State)

  /** The transition table, with the one self-loop at committed data. */
  predicate ValidTransition(previous: Option<Point>, next: Point) {
    || (previous.None? && next == Point(RunStage, Pending))
    || (previous.Some? && previous.value.state == Pending && next == Point(DataStage, DataCommitted))
    || (previous.Some? && previous.value.state == DataCommitted && next == Point(ExportStage, ExportPrepared))
    || (previous.Some? && previous.value.state == ExportPrepared && next == Point(ExportStage, ExportVerified))
    || (previous.Some? && previous.value == next == Point(DataStage, DataCommitted))
  }

  /** PENDING, `d` times DATA_COMMITTED, EXPORT_PREPARED, EXPORT_VERIFIED. */
  ghost function Saga(d: nat): seq<Point> {
    [Point(RunStage, Pending)] + seq(d, _ => Point(DataStage, DataCommitted))
      + [Point(ExportStage, ExportPrepared), Point(ExportStage, ExportVerified)]
  }

  function SagaPoint(d: nat, i: nat): Point {
    if i == 0 then Point(RunStage, Pending)
    else if i <= d then Point(DataStage, DataCommitted)
    else if i == d + 1 then Point(ExportStage, ExportPrepared)
    else Point(ExportStage, ExportVerified)
  }

  ghost predicate IsSagaPrefix(history: seq<Point>) {
    exists d :: d >= 1 && history <= Saga(d)
  }

  function Last(history: seq<Point>): Option<Point> {
    if history == [] then None else Some(history[|history| - 1])
  }

  lemma PrefixShape(history: seq<Point>, d: nat)
    requires d >= 1
    ensures history <= Saga(d) <==>
      && |history| <= d + 3
      && (forall i :: 0 <= i < |history| ==> history[i] == SagaPoint(d, i))
  {
  }

  /** A transition is allowed exactly when the longer history is still a prefix of a saga. */
  lemma TransitionsFollowSaga(history: seq<Point>, next: Point)
    requires IsSagaPrefix(history)
    ensures ValidTransition(Last(history), next) <==> IsSagaPrefix(history + [next])
  {
    var d :| d >= 1 && history <= Saga(d);
    var longer, n := history + [next], |history|;
    PrefixShape(history, d);
    if ValidTransition(Last(history), next) {
      var e := if next == Point(DataStage, DataCommitted) then n
               else if n <= d && n >= 2 then n - 1
               else d;
      PrefixShape(longer, if e >= 1 then e else 1);
    }
    if IsSagaPrefix(longer) {
      var e :| e >= 1 && longer <= Saga(e);
      PrefixShape(longer, e);
      assert longer[n] == next && (n > 0 ==> longer[n - 1] == history[n - 1]);
    }
  }

  // ----- Events and the hash chain -----

  const AUDIT_EVENT_VERSION := "AuditEventEnvelope-16.0"

  /** The previous hash of a first event: 64 zero digits. */
  function GenesisHash(): string {
    seq(64, _ => '0')
  }

  datatype Event = Event(
    eventId: string, runId: string, sequence: int, attemptId: string, stage: Stage, state: State,
    reason: Option<string>, warning: Option<string>, previousHash: string, eventHash: string,
    timestamp: string, fields: Fields)

  function OptionalText(value: Option<string>): Scalar {
    match value
    case None => Null
    case Some(text) => Str(text)
  }

  /** The envelope of an event, without its own hash. */
  function Envelope(e: Event): Fields {
    map[ContractVersion := Str(AUDIT_EVENT_VERSION), RunId := Str(e.runId), EventId := Str(e.eventId),
        EventSequence := Int(e.sequence), StageAttemptId := Str(e.attemptId),
        StageCode := Str(StageName(e.stage)), StateCode := Str(StateName(e.state)),
        ReasonCode := OptionalText(e.reason), WarningCode := OptionalText(e.warning),
        PreviousEventHash := Str(e.previousHash), TimestampUtc := Str(e.timestamp)]
  }

  /** What is hashed when an event is appended: its fields override the envelope. */
  function Unsigned(e: Event): Fields {
    Envelope(e) + e.fields
  }

  /** The full payload of a stored event, as exported. */
  function EventPayload(e: Event): Fields {
    Envelope(e)[EventHash := Str(e.eventHash)] + e.fields
  }

  /** What validation hashes again: the payload with `event_hash` taken out. */
  function Rehashed(e: Event): Fields {
    EventPayload(e) - {EventHash}
  }

  /** Appending and validating hash the same thing exactly when no field is called `event_hash`. */
  lemma HashedAlike(e: Event)
    ensures Rehashed(e) == Unsigned(e) <==> EventHash !in e.fields
  {
  }

  function PreviousOf(events: seq<Event>): string {
    if events == [] then GenesisHash() else events[|events| - 1].eventHash
  }

  ghost predicate Linked(digest: Digest, before: seq<Event>, e: Event) {
    && e.sequence == |before| + 1
    && e.previousHash == PreviousOf(before)
    && digest(Body(Rehashed(e))) == e.eventHash
  }

  ghost predicate ValidChain(digest: Digest, events: seq<Event>) {
    forall i {:trigger events[..i]} :: 0 <= i < |events| ==> Linked(digest, events[..i], events[i])
  }

  /** The row an append writes. */
  function NewEvent(digest: Digest, runId: string, before: seq<Event>, point: Point,
                    reason: Option<string>, warning: Option<string>, fields: Fields, attempt: int,
                    timestamp: string): Event {
    var sequence := (if before == [] then 0 else before[|before| - 1].sequence) + 1;
    var attemptId := digest(StageAttempt(runId, point.stage, attempt));
    var eventId := digest(EventIdentity(runId, sequence, attemptId));
    var draft := Event(eventId, runId, sequence, attemptId, point.stage, point.state, reason, warning,
                       PreviousOf(before), "", timestamp, fields);
    draft.(eventHash := digest(Body(Unsigned(draft))))
  }

  /** What every append leaves true of the new row, whatever its fields are called. */
  ghost predicate Appended(digest: Digest, runId: string, before: seq<Event>, e: Event) {
    && e.runId == runId
    && e.sequence == |before| + 1
    && e.previousHash == PreviousOf(before)
    && e.eventHash == digest(Body(Unsigned(e)))
    && e.eventId == digest(EventIdentity(runId, e.sequence, e.attemptId))
  }

  ghost predicate AppendedRun(digest: Digest, runId: string, events: seq<Event>) {
    forall i {:trigger events[..i]} :: 0 <= i < |events| ==> Appended(digest, runId, events[..i], events[i])
  }

  lemma NewEventIsAppended(digest: Digest, runId: string, before: seq<Event>, point: Point,
                           reason: Option<string>, warning: Option<string>, fields: Fields, attempt: int,
                           timestamp: string)
    requires AppendedRun(digest, runId, before)
    ensures var e := NewEvent(digest, runId, before, point, reason, warning, fields, attempt, timestamp);
      AppendedRun(digest, runId, before + [e])
  {
    var e := NewEvent(digest, runId, before, point, reason, warning, fields, attempt, timestamp);
    var all := before + [e];
    assert before == [] || Appended(digest, runId, before[..|before| - 1], before[|before| - 1]);
    assert Unsigned(e) == Unsigned(e.(eventHash := ""));
    assert all[..|before|] == before && all[|before|] == e;
    forall i | 0 <= i < |before| ensures Appended(digest, runId, all[..i], all[i]) {
      assert all[..i] == before[..i];
    }
  }

  /** A run written by appends validates exactly when no field of it is called `event_hash`. */
  lemma AppendedRunValidates(digest: Digest, runId: string, events: seq<Event>)
    requires Injective(digest) && AppendedRun(digest, runId, events)
    ensures ValidChain(digest, events) <==> forall e :: e in events ==> EventHash !in e.fields
  {
    forall i | 0 <= i < |events|
      ensures Linked(digest, events[..i], events[i]) <==> EventHash !in events[i].fields
    {
      assert Appended(digest, runId, events[..i], events[i]);
      HashedAlike(events[i]);
    }
    if ValidChain(digest, events) {
      forall e | e in events ensures EventHash !in e.fields {
        var i :| 0 <= i < |events| && events[i] == e;
        assert Linked(digest, events[..i], events[i]);
      }
    }
  }

  /** No field of the event reuses a name of the envelope. */
  predicate Distinguishable(e: Event) {
    forall n :: n in e.fields ==> n.Extra?
  }

  lemma EnvelopeInjective(a: Event, b: Event)
    requires Envelope(a) == Envelope(b)
    ensures a.(eventHash := "", fields := map[]) == b.(eventHash := "", fields := map[])
  {
    var p, q := Envelope(a), Envelope(b);
    assert p[StageCode] == q[StageCode] && p[StateCode] == q[StateCode];
    NamesDetermine(a.stage, b.stage, a.state, b.state);
    assert p[RunId] == q[RunId] && p[EventId] == q[EventId] && p[EventSequence] == q[EventSequence];
    assert p[StageAttemptId] == q[StageAttemptId] && p[ReasonCode] == q[ReasonCode] && p[WarningCode] == q[WarningCode];
    assert p[PreviousEventHash] == q[PreviousEventHash] && p[TimestampUtc] == q[TimestampUtc];
  }

  lemma PayloadSplits(e: Event)
    requires Distinguishable(e)
    ensures forall n: Name :: n.Extra? ==>
      (n in Rehashed(e) <==> n in e.fields) && (n in e.fields ==> Rehashed(e)[n] == e.fields[n])
    ensures forall n: Name :: !n.Extra? ==>
      (n in Rehashed(e) <==> n in Envelope(e)) && (n in Envelope(e) ==> Rehashed(e)[n] == Envelope(e)[n])
    ensures forall n: Name :: n in Envelope(e) ==> !n.Extra?
  {
  }

  lemma PayloadDetermines(a: Event, b: Event)
    requires Distinguishable(a) && Distinguishable(b)
    requires Rehashed(a) == Rehashed(b) && a.eventHash == b.eventHash
    ensures a == b
  {
    PayloadSplits(a);
    PayloadSplits(b);
    assert a.fields == b.fields;
    assert Envelope(a) == Envelope(b);
    EnvelopeInjective(a, b);
  }

  /** An exported payload determines its event. */
  lemma ExportDetermines(a: Event, b: Event)
    requires Distinguishable(a) && Distinguishable(b) && EventPayload(a) == EventPayload(b)
    ensures a == b
  {
    assert EventPayload(a)[EventHash] == Str(a.eventHash) && EventPayload(b)[EventHash] == Str(b.eventHash);
    PayloadDetermines(a, b);
  }

  /** Two valid chains with the same last hash are the same chain. */
  lemma {:induction false} LastHashDetermines(digest: Digest, a: seq<Event>, b: seq<Event>)
    requires Injective(digest) && ValidChain(digest, a) && ValidChain(digest, b)
    requires a != [] && b != [] && PreviousOf(a) == PreviousOf(b)
    requires forall e :: e in a || e in b ==> Distinguishable(e)
    ensures a == b
    decreases |a|
  {
    var x, y := a[|a| - 1], b[|b| - 1];
    assert x in a && y in b;
    FrontValid(digest, a);
    FrontValid(digest, b);
    LastEvents(digest, a[..|a| - 1], b[..|b| - 1], x, y);
    SplitLast(a);
    SplitLast(b);
    if |a| > 1 {
      LastHashDetermines(digest, a[..|a| - 1], b[..|b| - 1]);
    }
  }

  lemma SplitLast<T>(s: seq<T>)
    requires s != []
    ensures s == s[..|s| - 1] + [s[|s| - 1]]
  {
  }

  lemma LastEvents(digest: Digest, a: seq<Event>, b: seq<Event>, x: Event, y: Event)
    requires Injective(digest) && Linked(digest, a, x) && Linked(digest, b, y) && x.eventHash == y.eventHash
    requires Distinguishable(x) && Distinguishable(y)
    ensures x == y && |a| == |b| && PreviousOf(a) == PreviousOf(b)
  {
    PayloadDetermines(x, y);
  }

  lemma FrontValid(digest: Digest, a: seq<Event>)
    requires a != [] && ValidChain(digest, a)
    ensures ValidChain(digest, a[..|a| - 1])
    ensures Linked(digest, a[..|a| - 1], a[|a| - 1])
  {
    var front := a[..|a| - 1];
    forall i | 0 <= i < |front| ensures Linked(digest, front[..i], front[i]) {
      assert front[..i] == a[..i];
    }
  }

  // ----- Which field names keep the last hash decisive -----

  ghost predicate NamedWithin(events: seq<Event>, names: iset<Name>) {
    forall e, n :: e in events && n in e.fields ==> n in names
  }

  /** Over fields with these names the last hash of a valid chain determines the chain. */
  ghost predicate LastHashDecides(digest: Digest, names: iset<Name>) {
    forall a, b ::
      && a != [] && b != [] && PreviousOf(a) == PreviousOf(b)
      && ValidChain(digest, a) && ValidChain(digest, b) && NamedWithin(a, names) && NamedWithin(b, names)
      ==> a == b
  }

  /** A first event of some run, as an append writes it with these fields. */
  function FirstEvent(digest: Digest, fields: Fields): Event {
    NewEvent(digest, "run", [], Point(RunStage, Pending), None, None, fields, 1, "")
  }

  /** The same event with the envelope's own entry written again as a field, or any entry called `event_hash`. */
  function TwinOf(e: Event, n: Name): Event {
    e.(fields := map[n := if n in Envelope(e) then Envelope(e)[n] else Null])
  }

  lemma EnvelopeNames(e: Event, n: Name)
    ensures n in Envelope(e) <==> !n.Extra? && n != EventHash
  {
  }

  lemma RepeatedEntry(entries: Fields, hash: Scalar, n: Name)
    requires EventHash !in entries && (n in entries || n == EventHash)
    ensures entries + map[] == entries && entries[EventHash := hash] + map[] - {EventHash} == entries
    ensures var repeated := map[n := if n in entries then entries[n] else Null];
      && entries[EventHash := hash] + repeated - {EventHash} == entries
      && (n in entries ==> entries + repeated == entries)
  {
  }

  lemma TwinPayload(e: Event, n: Name)
    requires e.fields == map[] && !n.Extra?
    ensures Rehashed(e) == Rehashed(TwinOf(e, n)) == Unsigned(e)
    ensures n != EventHash ==> Unsigned(TwinOf(e, n)) == Unsigned(e)
  {
    EnvelopeNames(e, n);
    EnvelopeNames(e, EventHash);
    RepeatedEntry(Envelope(e), Str(e.eventHash), n);
    SameEnvelope(e, TwinOf(e, n));
  }

  lemma SameEnvelope(e: Event, f: Event)
    requires f == e.(fields := f.fields)
    ensures Envelope(f) == Envelope(e)
  {
  }

  lemma FirstEventIsValid(digest: Digest, e: Event)
    requires e.sequence == 1 && e.previousHash == GenesisHash() && e.eventHash == digest(Body(Rehashed(e)))
    ensures ValidChain(digest, [e])
  {
    assert [e][..0] == [];
  }

  lemma FirstEventHash(digest: Digest, fields: Fields)
    ensures var e := FirstEvent(digest, fields);
      && e.sequence == 1 && e.previousHash == GenesisHash()
      && e.fields == fields && e.eventHash == digest(Body(Unsigned(e)))
  {
    var e := FirstEvent(digest, fields);
    assert Unsigned(e) == Unsigned(e.(eventHash := ""));
  }

  /**
   The twin differs from the event by one field that redaction lets through, is valid with the same
   hash, and, except for `event_hash`, is what an append writes.
   */
  lemma TwinsShareTheirHash(digest: Digest, n: Name)
    requires !n.Extra?
    ensures var e := FirstEvent(digest, map[]);
      var twin := TwinOf(e, n);
      && e != twin && e.eventHash == twin.eventHash && twin.fields.Keys == {n} && Allowed(n)
      && ValidChain(digest, [e]) && ValidChain(digest, [twin])
      && (n != EventHash ==> twin == FirstEvent(digest, twin.fields))
  {
    var e := FirstEvent(digest, map[]);
    var twin := TwinOf(e, n);
    FirstEventHash(digest, map[]);
    FirstEventHash(digest, twin.fields);
    TwinPayload(e, n);
    FirstEventIsValid(digest, e);
    FirstEventIsValid(digest, twin);
    assert Unsigned(FirstEvent(digest, twin.fields)) == Unsigned(twin);
  }

  /** The last hash decides exactly when no allowed field name is one of the envelope's. */
  lemma LastHashDecidesExactly(digest: Digest, names: iset<Name>)
    requires Injective(digest)
    ensures LastHashDecides(digest, names) <==> forall n :: n in names ==> n.Extra?
  {
    if forall n :: n in names ==> n.Extra? {
      forall a, b | && a != [] && b != [] && PreviousOf(a) == PreviousOf(b)
                    && ValidChain(digest, a) && ValidChain(digest, b) && NamedWithin(a, names) && NamedWithin(b, names)
        ensures a == b
      {
        LastHashDetermines(digest, a, b);
      }
    } else {
      var n :| n in names && !n.Extra?;
      var e := FirstEvent(digest, map[]);
      var twin := TwinOf(e, n);
      TwinsShareTheirHash(digest, n);
      assert NamedWithin([e], names) && NamedWithin([twin], names);
      assert PreviousOf([e]) == PreviousOf([twin]) && [e][0] != [twin][0];
    }
  }
}
