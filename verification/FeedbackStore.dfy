/**
 Private, target-scoped durable reconciliation feedback: the two tables, the
 exactly-once commit of an apply, and the numbering of the records of a target.
 */
module FeedbackStore {
  import opened Outcomes
  import opened Sorting

  /** One operator decision to remember; its number is assigned on insertion. */
  datatype Record = Record(nameKey: string, unitKey: Option<string>, action: string, category: Option<string>,
                           mode: Option<string>)

  datatype Row = Row(target: string, record: Record, sequence: nat)

  datatype ApplyRow = ApplyRow(target: string, payload: string)

  datatype Outcome = Committed | Replay | Conflict | Rejected

  // ----- What the tables say about one target -----

  function OfTarget(rows: seq<Row>, target: string): seq<Row> {
    Filter(rows, (row: Row) => row.target == target)
  }

  function BySequence(): (Row, Row) -> bool {
    (a: Row, b: Row) => a.sequence <= b.sequence
  }

  /** The greatest number of the target, zero when it has no rows. */
  function LastSequence(rows: seq<Row>, target: string): nat {
    if rows == [] then 0
    else
      var before := LastSequence(rows[..|rows| - 1], target);
      var row := rows[|rows| - 1];
      if row.target == target && row.sequence > before then row.sequence else before
  }

  /** Every target numbers its rows 1, 2, 3, ... in the order they were inserted. */
  ghost predicate GapFree(rows: seq<Row>) {
    forall target :: Numbers(OfTarget(rows, target))
  }

  ghost predicate Numbers(own: seq<Row>) {
    forall i :: 0 <= i < |own| ==> own[i].sequence == i + 1
  }

  /** The rows an insertion writes, numbered from `after + 1`. */
  function Numbered(target: string, records: seq<Record>, after: nat): (rows: seq<Row>)
    ensures |rows| == |records|
    ensures forall i :: 0 <= i < |rows| ==> rows[i] == Row(target, records[i], after + i + 1)
  {
    seq(|records|, i requires 0 <= i < |records| => Row(target, records[i], after + i + 1))
  }

  function Inserted(rows: seq<Row>, target: string, records: seq<Record>): seq<Row> {
    rows + Numbered(target, records, LastSequence(rows, target))
  }

  lemma {:induction false} LastSequenceCounts(rows: seq<Row>, target: string)
    requires forall prefix :: prefix <= rows ==> Numbers(OfTarget(prefix, target))
    ensures LastSequence(rows, target) == |OfTarget(rows, target)|
  {
    if rows != [] {
      var front, row := rows[..|rows| - 1], rows[|rows| - 1];
      LastSequenceCounts(front, target);
      assert rows <= rows && front <= rows;
      var own := OfTarget(rows, target);
      assert Numbers(own);
      assert row.target == target ==> own == OfTarget(front, target) + [row] && own[|own| - 1] == row;
    }
  }

  lemma {:induction false} FilterConcat<T>(s: seq<T>, t: seq<T>, p: T -> bool)
    ensures Filter(s + t, p) == Filter(s, p) + Filter(t, p)
  {
    if t == [] {
      assert s + t == s;
    } else {
      var front := t[..|t| - 1];
      FilterConcat(s, front, p);
      assert (s + t)[..|s + t| - 1] == s + front;
    }
  }

  lemma {:induction false} FilterUniform<T>(s: seq<T>, p: T -> bool)
    ensures (forall x :: x in s ==> p(x)) ==> Filter(s, p) == s
    ensures (forall x :: x in s ==> !p(x)) ==> Filter(s, p) == []
  {
    if s != [] {
      FilterUniform(s[..|s| - 1], p);
      assert s == s[..|s| - 1] + [s[|s| - 1]];
    }
  }

  lemma {:induction false} FilterTake<T>(s: seq<T>, n: nat, p: T -> bool)
    requires n <= |s|
    ensures Filter(s[..n], p) <= Filter(s, p)
  {
    FilterConcat(s[..n], s[n..], p);
    assert s == s[..n] + s[n..];
  }

  lemma MaximumIsCount(rows: seq<Row>, target: string)
    requires GapFree(rows)
    ensures LastSequence(rows, target) == |OfTarget(rows, target)|
  {
    forall prefix | prefix <= rows ensures Numbers(OfTarget(prefix, target)) {
      FilterTake(rows, |prefix|, (row: Row) => row.target == target);
      assert rows[..|prefix|] == prefix;
      assert Numbers(OfTarget(rows, target));
    }
    LastSequenceCounts(rows, target);
  }

  /** An insertion appends exactly the given records to its target, in order, and keeps every numbering gap-free. */
  lemma InsertionAppends(rows: seq<Row>, target: string, records: seq<Record>)
    requires GapFree(rows)
    ensures GapFree(Inserted(rows, target, records))
    ensures OfTarget(Inserted(rows, target, records), target) ==
      OfTarget(rows, target) + Numbered(target, records, |OfTarget(rows, target)|)
    ensures forall t :: t != target ==> OfTarget(Inserted(rows, target, records), t) == OfTarget(rows, t)
  {
    var added := Numbered(target, records, LastSequence(rows, target));
    MaximumIsCount(rows, target);
    forall t
      ensures OfTarget(rows + added, t) == OfTarget(rows, t) + if t == target then added else []
    {
      var p := (row: Row) => row.target == t;
      FilterConcat(rows, added, p);
      FilterUniform(added, p);
    }
    forall t ensures Numbers(OfTarget(rows + added, t)) {
      assert Numbers(OfTarget(rows, t));
    }
  }

  // ----- Reading -----

  /** What a query ordered by number returns. */
  function RecordsOf(rows: seq<Row>, target: string): seq<Row> {
    SortBy(OfTarget(rows, target), BySequence())
  }

  lemma {:induction false} SortedStays(s: seq<Row>)
    requires SortedBy(s, BySequence())
    ensures SortBy(s, BySequence()) == s
  {
    if s != [] {
      SortedStays(s[1..]);
      assert s == [s[0]] + s[1..];
      assert |s| > 1 ==> BySequence()(s[0], s[1]);
    }
  }

  /** Reading a target back gives its records in insertion order, numbered from one. */
  lemma ReadsInOrder(rows: seq<Row>, target: string)
    requires GapFree(rows)
    ensures RecordsOf(rows, target) == OfTarget(rows, target)
  {
    var own := OfTarget(rows, target);
    assert Numbers(own);
    SortedStays(own);
  }

  // ----- The exactly-once commit -----

  datatype Store = Store(rows: seq<Row>, applies: map<string, ApplyRow>)

  const EMPTY := Store([], map[])

  /** What one commit decides; the validator runs on a replay too. */
  function Decide(store: Store, key: string, payload: string, artifactsOk: bool): Outcome {
    if key in store.applies then
      if store.applies[key].payload != payload then Conflict
      else if artifactsOk then Replay
      else Rejected
    else if artifactsOk then Committed
    else Rejected
  }

  function After(store: Store, target: string, key: string, payload: string, records: seq<Record>): Store {
    Store(Inserted(store.rows, target, records), store.applies[key := ApplyRow(target, payload)])
  }

  /** The store after one commit: only a committed one changes it. */
  function Commit(store: Store, target: string, key: string, payload: string, records: seq<Record>,
                  artifactsOk: bool): Store {
    if Decide(store, key, payload, artifactsOk) == Committed then After(store, target, key, payload, records) else store
  }

  class ReconciliationFeedbackStore {
    var rows: seq<Row>
    var applies: map<string, ApplyRow>

    function Contents(): Store
      reads this
    {
      Store(rows, applies)
    }

    constructor ()
      ensures Contents() == EMPTY && GapFree(rows)
    {
      rows, applies := [], map[];
    }

    method Records(target: string) returns (own: seq<Row>)
      requires GapFree(rows)
      ensures own == OfTarget(rows, target)
      ensures forall i :: 0 <= i < |own| ==> own[i].target == target && own[i].sequence == i + 1
    {
      ReadsInOrder(rows, target);
      own := RecordsOf(rows, target);
      FilterMembers(rows, (row: Row) => row.target == target);
      assert Numbers(own);
      forall i | 0 <= i < |own| ensures own[i].target == target {
        assert own[i] in own;
      }
    }

    /** Appends the records with the next numbers of their target. */
    method Insert(target: string, records: seq<Record>)
      modifies `rows
      ensures rows == Inserted(old(rows), target, records)
    {
      var next := LastSequence(rows, target);
      ghost var first := next;
      var i := 0;
      while i < |records|
        invariant 0 <= i <= |records| && next == first + i
        invariant rows == old(rows) + Numbered(target, records[..i], first)
      {
        next := next + 1;
        ghost var upTo := Numbered(target, records[..i], first);
        rows := rows + [Row(target, records[i], next)];
        i := i + 1;
        assert Numbered(target, records[..i], first) == upTo + [Row(target, records[i - 1], next)];
      }
      assert records[..i] == records;
    }

    /** The older append-only entry point: no key, so every call appends. */
    method Persist(target: string, records: seq<Record>)
      requires GapFree(rows)
      modifies `rows
      ensures GapFree(rows)
      ensures OfTarget(rows, target) ==
        old(OfTarget(rows, target)) + Numbered(target, records, |old(OfTarget(rows, target))|)
      ensures forall t :: t != target ==> OfTarget(rows, t) == old(OfTarget(rows, t))
    {
      InsertionAppends(rows, target, records);
      Insert(target, records);
    }

    /**
     Appends the records and the apply row in one transaction. `artifactsOk` is
     what the validator finds just before the commit; a transaction that ends
     otherwise is rolled back.
     */
    method CommitApply(target: string, key: string, payload: string, records: seq<Record>, artifactsOk: bool)
      returns (outcome: Outcome)
      requires GapFree(rows)
      modifies this
      ensures GapFree(rows)
      ensures outcome == Decide(old(Contents()), key, payload, artifactsOk)
      ensures Contents() == Commit(old(Contents()), target, key, payload, records, artifactsOk)
    {
      var before, appliedBefore := rows, applies;
      if key in applies {
        if applies[key].payload != payload {
          return Conflict;
        }
        return if artifactsOk then Replay else Rejected;
      }
      InsertionAppends(rows, target, records);
      Insert(target, records);
      applies := applies[key := ApplyRow(target, payload)];
      if !artifactsOk {
        rows, applies := before, appliedBefore;
        return Rejected;
      }
      outcome := Committed;
    }
  }
}
