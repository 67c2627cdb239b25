/**
 The registry through which loadtest machines agree on who drives which users: a shared table with a
 UNIQUE index column, a SELECT that looks for a free index, an INSERT that may lose the race for it,
 heartbeats, expiry, and the seed taken from the row with index 0.

 SELECT and INSERT are separate statements, so they are separate steps here.
 */
module InstanceRegistry {
  import opened Collections

  type Id = string

  /** Times are nanoseconds; the table keeps milliseconds, truncated to whole seconds. */
  datatype Row = Row(createAt: int, activeAt: int, idx: int)

  type Table = map<Id, Row>

  const SECOND := 1_000_000_000
  const HEARTBEAT_INTERVAL := 30 * SECOND
  const MAX_ATTEMPTS := 5

  const EXPIRED_INTERVAL := HEARTBEAT_INTERVAL * 4

  /** The schema: Id is the primary key, Idx is UNIQUE; no index below zero is ever stored. */
  predicate WellFormed(t: Table) {
    && (forall a, b :: a in t && b in t && a != b ==> t[a].idx != t[b].idx)
    && (forall a :: a in t ==> t[a].idx >= 0)
  }

  predicate Used(t: Table, index: int) {
    exists id :: id in t && t[id].idx == index
  }

  // ---------------------------------------------------------------- the slot query

  /** One side of the query's LEFT JOIN: a row with the wanted index, or NULL when there is none. */
  ghost predicate Joins(t: Table, index: int, found: Option<Id>) {
    match found
    case Some(id) => id in t && t[id].idx == index
    case None => !Used(t, index)
  }

  /** FROM and WHERE: a row together with its neighbours below and above. */
  ghost predicate Candidate(t: Table, li: Id, lower: Option<Id>, higher: Option<Id>) {
    && li in t
    && Joins(t, t[li].idx - 1, lower)
    && Joins(t, t[li].idx + 1, higher)
    && ((t[li].idx > 0 && lower.None?) || higher.None?)
  }

  /** The CASE expression; None is SQL's NULL. */
  function CaseOf(idx: int, lower: Option<Id>, higher: Option<Id>): Option<int> {
    if lower.None? && idx > 0 then Some(idx - 1)
    else if higher.None? then Some(idx + 1)
    else None
  }

  /** The query has a result row with this value. */
  ghost predicate Returns(t: Table, v: Option<int>) {
    exists li, lower, higher :: Candidate(t, li, lower, higher) && v == CaseOf(t[li].idx, lower, higher)
  }

  /**
   What QueryRow and Scan leave in index.Int64: the value of any result row, since the query has no
   ORDER BY, zero for a NULL, and zero when there is no row.
   */
  ghost predicate Scans(t: Table, index: int) {
    || (exists v :: Returns(t, v) && index == if v.Some? then v.value else 0)
    || ((forall v :: !Returns(t, v)) && index == 0)
  }

  lemma JoinExists(t: Table, index: int) returns (found: Option<Id>)
    ensures Joins(t, index, found)
  {
    if Used(t, index) {
      var id :| id in t && t[id].idx == index;
      found := Some(id);
    } else {
      found := None;
    }
  }

  /** The NULL arm of the CASE is never taken, and every row of the result names a free index. */
  lemma ReturnsFreeIndex(t: Table, v: Option<int>)
    requires WellFormed(t) && Returns(t, v)
    ensures v.Some? && v.value >= 0 && !Used(t, v.value)
  {
  }

  lemma {:induction false} HighestRow(t: Table) returns (top: Id)
    requires t != map[]
    ensures top in t && forall id :: id in t ==> t[id].idx <= t[top].idx
    decreases |t|
  {
    var some :| some in t;
    var rest := t - {some};
    if rest == map[] {
      top := some;
      assert forall id :: id in t ==> id == some || id in rest;
    } else {
      assert |rest| < |t| by { assert t.Keys == rest.Keys + {some}; assert |t.Keys| == |rest.Keys| + 1; }
      var other := HighestRow(rest);
      top := if t[some].idx >= t[other].idx then some else other;
      assert forall id :: id in t ==> id == some || id in rest;
    }
  }

  /** On a table that is not empty the query always has a result row. */
  lemma QueryAnswers(t: Table)
    requires t != map[]
    ensures exists v :: Returns(t, v)
  {
    var top := HighestRow(t);
    var lower := JoinExists(t, t[top].idx - 1);
    assert Joins(t, t[top].idx + 1, None);
    assert Candidate(t, top, lower, None);
    assert Returns(t, CaseOf(t[top].idx, lower, None));
  }

  /** The index an instance tries to insert is never negative and is free in the table it read. */
  lemma ScansFreeIndex(t: Table, index: int)
    requires WellFormed(t) && Scans(t, index)
    ensures index >= 0 && !Used(t, index)
  {
    if v :| Returns(t, v) && index == if v.Some? then v.value else 0 {
      ReturnsFreeIndex(t, v);
    } else if t != map[] {
      QueryAnswers(t);
    }
  }

  /**
   The free indices just below a used one, and those just above a used one that does not itself have
   a gap below it.
   */
  predicate Offered(t: Table, index: int) {
    && index >= 0 && !Used(t, index)
    && (|| Used(t, index + 1)
        || (Used(t, index - 1) && (index == 1 || Used(t, index - 2))))
  }

  /**
   On a table with rows, the query can yield an index exactly when it is offered in this sense.
   */
  lemma ScansExactly(t: Table, index: int)
    requires WellFormed(t) && t != map[]
    ensures Scans(t, index) <==> Offered(t, index)
  {
    QueryAnswers(t);
    if Scans(t, index) {
      ScansFreeIndex(t, index);
      var v :| Returns(t, v) && index == if v.Some? then v.value else 0;
      ReturnsFreeIndex(t, v);
      var li, lower, higher :| Candidate(t, li, lower, higher) && v == CaseOf(t[li].idx, lower, higher);
      if lower.None? && t[li].idx > 0 {
        assert Used(t, index + 1);
      } else {
        assert Used(t, index - 1);
      }
    }
    if index >= 0 && !Used(t, index) && Used(t, index + 1) {
      var li :| li in t && t[li].idx == index + 1;
      var higher := JoinExists(t, index + 2);
      assert Candidate(t, li, None, higher);
      assert Returns(t, Some(index));
    } else if index >= 0 && !Used(t, index) && Used(t, index - 1) && (index == 1 || Used(t, index - 2)) {
      var li :| li in t && t[li].idx == index - 1;
      var lower := JoinExists(t, index - 2);
      assert Candidate(t, li, lower, None);
      assert Returns(t, Some(index));
    }
  }

  // ---------------------------------------------------------------- heartbeats and expiry

  function Unix(time: int): int { time / SECOND }

  function Stamp(time: int): int { Unix(time) * 1000 }

  /** v is this time in milliseconds, cut to whole seconds. */
  predicate IsStamp(v: int, time: int) {
    v % 1000 == 0 && v * 1_000_000 <= time < (v + 1000) * 1_000_000
  }

  /** now.Unix() * 1000 is the one such number. */
  lemma StampExact(time: int, v: int)
    ensures IsStamp(v, time) <==> v == Stamp(time)
  {
  }

  /** DELETE ... WHERE ActiveAt <= ? with the truncated time of two minutes ago. */
  predicate Expired(activeAt: int, now: int) {
    activeAt <= Stamp(now - EXPIRED_INTERVAL)
  }

  predicate ExpiredAtAge(beat: int, age: int) { Expired(Stamp(beat), beat + age) }

  /**
   Truncation to seconds costs one second of tolerance: a heartbeat is safe whenever it was recorded
   exactly if it is at most 119 s old, and is pruned whenever it was recorded exactly from 120 s on.
   */
  lemma HeartbeatTolerance(age: int)
    ensures (forall beat :: !ExpiredAtAge(beat, age)) <==> age <= 119 * SECOND
    ensures (forall beat :: ExpiredAtAge(beat, age)) <==> age >= 120 * SECOND
  {
    if age > 119 * SECOND {
      assert ExpiredAtAge(SECOND - 1, age);
    }
    if age < 120 * SECOND {
      assert !ExpiredAtAge(0, age);
    }
  }

  // ---------------------------------------------------------------- what each statement does to the table

  /** The primary key, the UNIQUE index and, if `broken`, anything else can refuse an INSERT. */
  predicate Accepts(t: Table, id: Id, index: int, broken: bool) {
    !broken && id !in t && !Used(t, index)
  }

  function Inserted(t: Table, id: Id, row: Row, broken: bool): Table {
    if Accepts(t, id, row.idx, broken) then t[id := row] else t
  }

  /** The row of an instance inserted at this time. */
  function NewRow(now: int, index: int): Row {
    Row(Stamp(now), Stamp(now), index)
  }

  function Touched(t: Table, id: Id, now: int): Table {
    if id in t then t[id := t[id].(activeAt := Stamp(now))] else t
  }

  function Removed(t: Table, id: Id): Table {
    t - {id}
  }

  function Pruned(t: Table, now: int): Table {
    map id | id in t && !Expired(t[id].activeAt, now) :: t[id]
  }

  // ---------------------------------------------------------------- the table as the database keeps it

  /** The LoadtestInstances table: each method is one SQL statement, or one function of instance.go. */
  class InstanceTable {
    var rows: Table

    constructor ()
      ensures rows == map[]
    {
      rows := map[];
    }

    /** INSERT: refused by the primary key or by the UNIQUE index, or `broken` for another reason. */
    method Insert(id: Id, row: Row, broken: bool) returns (inserted: bool)
      modifies this
      ensures inserted == (!broken && id !in old(rows) && !Used(old(rows), row.idx))
      ensures rows == if inserted then old(rows)[id := row] else old(rows)
      ensures rows == Inserted(old(rows), id, row, broken)
      ensures old(WellFormed(rows)) && row.idx >= 0 ==> WellFormed(rows)
    {
      inserted := !broken && id !in rows && !Used(rows, row.idx);
      if inserted {
        rows := rows[id := row];
      }
    }

    /** UPDATE ... SET ActiveAt: touches one row, or none once the row has been pruned. */
    method RecordHeartbeat(id: Id, now: int)
      modifies this
      ensures rows.Keys == old(rows).Keys
      ensures forall k :: k in rows ==>
        rows[k] == if k == id then old(rows)[k].(activeAt := Stamp(now)) else old(rows)[k]
      ensures rows == Touched(old(rows), id, now)
      ensures id in rows ==> IsStamp(rows[id].activeAt, now)
      ensures old(WellFormed(rows)) ==> WellFormed(rows)
    {
      StampExact(now, Stamp(now));
      if id in rows {
        rows := rows[id := rows[id].(activeAt := Stamp(now))];
      }
    }

    /** A row survives exactly when it is not expired; surviving rows are untouched. */
    method Prune(now: int)
      modifies this
      ensures rows == Pruned(old(rows), now)
      ensures forall k :: k in rows <==> k in old(rows) && !Expired(old(rows)[k].activeAt, now)
      ensures forall k :: k in rows ==> rows[k] == old(rows)[k]
      ensures old(WellFormed(rows)) ==> WellFormed(rows)
    {
      rows := Pruned(rows, now);
    }

    method Delete(id: Id)
      modifies this
      ensures rows == Removed(old(rows), id)
      ensures id !in rows && rows.Keys == old(rows).Keys - {id}
      ensures forall k :: k in rows ==> rows[k] == old(rows)[k]
      ensures old(WellFormed(rows)) ==> WellFormed(rows)
    {
      rows := rows - {id};
    }

    /** The slot query; any result row may be the one that is read. */
    method SelectIndex() returns (index: int)
      requires WellFormed(rows)
      ensures Scans(rows, index)
      ensures index >= 0 && !Used(rows, index)
    {
      if rows == map[] {
        index := 0;
        assert forall v :: !Returns(rows, v);
      } else {
        ghost var top := HighestRow(rows);
        ghost var below := JoinExists(rows, rows[top].idx - 1);
        QueryAnswers(rows);
        index :| index >= 0 && !Used(rows, index) && Offered(rows, index);
        assert Scans(rows, index) by { ScansExactly(rows, index); }
      }
    }

    /**
     Everything other machines do between two of our statements: any change that respects the
     schema and does not invent a row under our fresh id.
     */
    method Interference(id: Id)
      requires WellFormed(rows)
      modifies this
      ensures WellFormed(rows)
      ensures id !in old(rows) ==> id !in rows
    {
      var others: Table :| WellFormed(others) && (id !in rows ==> id !in others);
      rows := others;
    }

    /**
     insertInstance: up to five attempts, each a SELECT and then an INSERT with other machines running in
     between. A reported index is the one our row holds, from the first INSERT that was not refused; after a
     reported failure no row is ours, and either a query failed or five inserts were refused.
     */
    method InsertInstance(id: Id, now: int, queryFails: nat -> bool, broken: nat -> bool)
      returns (r: Result<int>, ghost refused: nat)
      requires WellFormed(rows) && id !in rows
      modifies this
      ensures WellFormed(rows) && refused <= MAX_ATTEMPTS
      ensures r.Ok? ==> r.value >= 0 && id in rows && rows[id] == NewRow(now, r.value)
      ensures r.Ok? ==> rows[id].idx == r.value && IsStamp(rows[id].createAt, now) && IsStamp(rows[id].activeAt, now)
      ensures r.Ok? ==> refused < MAX_ATTEMPTS && !queryFails(refused) && !broken(refused)
      ensures r.Err? ==> id !in rows && (refused == MAX_ATTEMPTS || queryFails(refused))
      ensures forall k: nat :: k < refused ==> !queryFails(k)
    {
      StampExact(now, Stamp(now));
      refused := 0;
      for attempts := 0 to MAX_ATTEMPTS
        invariant WellFormed(rows) && id !in rows && refused == attempts
        invariant forall k: nat :: k < refused ==> !queryFails(k)
      {
        Interference(id);
        if queryFails(attempts) {
          return Err("failed to find available instance index"), refused;
        }
        var index := SelectIndex();
        Interference(id);
        var inserted := Insert(id, NewRow(now, index), broken(attempts));
        if inserted {
          return Ok(index), refused;
        }
        refused := refused + 1;
      }
      return Err("failed to insert instance with unique index"), refused;
    }
  }
}
