/**
 * The remote table store, as an in-memory set of tables. Queries are pure
 * selections over a table; every write may fail, and a failed write leaves
 * the tables as they were. Whether a call fails is an input (`fail`).
 */
module Store {
  import opened Rows
  import opened Ordering

  /** How many sessions the history view asks for (`.limit(10)`). */
  const HistoryLimit: nat := 10

  function Position(e: ExerciseRow): int { e.position }

  /** Ascending in this key is descending in `startedAt`. */
  function NewestFirstKey(s: SessionRow): int { -s.startedAt }

  predicate IsCompletedFor(s: SessionRow, workoutId: Id) {
    s.workoutId == workoutId && s.endedAt.Some?
  }

  /** workout_exercises where workout_id = workoutId, ordered by position ascending. */
  function ExercisesOf(table: seq<ExerciseRow>, workoutId: Id): (r: seq<ExerciseRow>)
    ensures forall i, j :: 0 <= i < j < |r| ==> r[i].position <= r[j].position
    ensures forall e :: e in r <==> e in table && e.workoutId == workoutId
    ensures forall e :: multiset(r)[e] == if e.workoutId == workoutId then multiset(table)[e] else 0
  {
    var keep := (e: ExerciseRow) => e.workoutId == workoutId;
    var r := SortBy(Filter(table, keep), Position);
    assert SortedBy(r, Position);
    forall e ensures multiset(r)[e] == if e.workoutId == workoutId then multiset(table)[e] else 0 {
      FilterMultiset(table, keep, e);
    }
    forall e ensures e in r <==> e in table && e.workoutId == workoutId {
      assert e in r <==> e in multiset(r);
    }
    r
  }

  /** The completed sessions of a workout, in table order. */
  function CompletedOf(table: seq<SessionRow>, workoutId: Id): (r: seq<SessionRow>)
    ensures forall s :: s in r <==> s in table && IsCompletedFor(s, workoutId)
  {
    Filter(table, (s: SessionRow) => IsCompletedFor(s, workoutId))
  }

  /**
   * workout_sessions where workout_id = workoutId and ended_at is not null,
   * ordered by started_at descending, at most `limit` rows.
   */
  function CompletedSessions(table: seq<SessionRow>, workoutId: Id, limit: nat): seq<SessionRow>
  {
    Take(SortBy(CompletedOf(table, workoutId), NewestFirstKey), limit)
  }

  lemma {:induction false} NewestFirstOrder(sorted: seq<SessionRow>, limit: nat)
    requires SortedBy(sorted, NewestFirstKey)
    ensures var r := Take(sorted, limit);
      forall i, j :: 0 <= i < j < |r| ==> r[i].startedAt >= r[j].startedAt
  {
    var r := Take(sorted, limit);
    forall i, j | 0 <= i < j < |r| ensures r[i].startedAt >= r[j].startedAt {
      assert r[i] == sorted[i] && r[j] == sorted[j];
      assert NewestFirstKey(sorted[i]) <= NewestFirstKey(sorted[j]);
    }
  }

  /** A completed session left out by the limit started no later than the last one kept. */
  lemma {:induction false} LeftOutStartedEarlier(sorted: seq<SessionRow>, limit: nat, s: SessionRow)
    requires SortedBy(sorted, NewestFirstKey)
    requires s in sorted && s !in Take(sorted, limit)
    ensures |Take(sorted, limit)| == limit
    ensures limit > 0 ==> s.startedAt <= Take(sorted, limit)[limit - 1].startedAt
  {
    var k :| 0 <= k < |sorted| && sorted[k] == s;
    assert |sorted| > limit;
    assert forall i :: 0 <= i < limit ==> Take(sorted, limit)[i] == sorted[i];
    if limit > 0 {
      assert NewestFirstKey(sorted[limit - 1]) <= NewestFirstKey(sorted[k]);
    }
  }

  /** The selection the history view shows: completed sessions only, newest first, at most `limit`. */
  lemma {:induction false} CompletedSessionsSelects(table: seq<SessionRow>, workoutId: Id, limit: nat)
    ensures var r := CompletedSessions(table, workoutId, limit);
      && |r| <= limit
      && (forall s :: s in r ==> s in table && IsCompletedFor(s, workoutId))
      && (forall i, j :: 0 <= i < j < |r| ==> r[i].startedAt >= r[j].startedAt)
      && (forall s :: s in table && IsCompletedFor(s, workoutId) && s !in r ==>
            |r| == limit && (limit > 0 ==> s.startedAt <= r[limit - 1].startedAt))
      && multiset(r) <= multiset(table)
  {
    var completed := CompletedOf(table, workoutId);
    var sorted := SortBy(completed, NewestFirstKey);
    var r := Take(sorted, limit);
    assert r == CompletedSessions(table, workoutId, limit);
    FilterSubMultiset(table, (s: SessionRow) => IsCompletedFor(s, workoutId));
    assert multiset(r) <= multiset(table) by {
      TakeSubMultiset(sorted, limit);
      assert multiset(sorted) == multiset(completed);
    }
    forall s | s in r ensures s in table && IsCompletedFor(s, workoutId) {
      assert s in multiset(sorted);
    }
    NewestFirstOrder(sorted, limit);
    forall s | s in table && IsCompletedFor(s, workoutId) && s !in r
      ensures |r| == limit && (limit > 0 ==> s.startedAt <= r[limit - 1].startedAt)
    {
      assert s in multiset(completed);
      assert s in sorted;
      LeftOutStartedEarlier(sorted, limit, s);
    }
  }

  /** In a newest-first order no session started later than the first one. */
  lemma {:induction false} NewestFirstHeadIsLatest(sorted: seq<SessionRow>, s: SessionRow)
    requires SortedBy(sorted, NewestFirstKey) && s in sorted
    ensures s.startedAt <= sorted[0].startedAt
  {
    var k :| 0 <= k < |sorted| && sorted[k] == s;
    assert NewestFirstKey(sorted[0]) <= NewestFirstKey(sorted[k]);
  }

  /** The first of the completed sessions sorted newest first is one that started last. */
  lemma {:induction false} NewestFirstHead(table: seq<SessionRow>, workoutId: Id)
    ensures var sorted := SortBy(CompletedOf(table, workoutId), NewestFirstKey);
      && (sorted == [] <==> forall s :: s in table ==> !IsCompletedFor(s, workoutId))
      && (sorted != [] ==> sorted[0] in table && IsCompletedFor(sorted[0], workoutId))
      && (sorted != [] ==> forall s :: s in table && IsCompletedFor(s, workoutId) ==> s.startedAt <= sorted[0].startedAt)
  {
    var completed := CompletedOf(table, workoutId);
    var sorted := SortBy(completed, NewestFirstKey);
    forall s | s in table && IsCompletedFor(s, workoutId)
      ensures s in sorted && s.startedAt <= sorted[0].startedAt
    {
      assert s in multiset(completed);
      assert s in multiset(sorted);
      NewestFirstHeadIsLatest(sorted, s);
    }
    if sorted != [] {
      assert sorted[0] in multiset(sorted);
      assert sorted[0] in multiset(completed);
      assert sorted[0] in completed;
      assert sorted[0] in table && IsCompletedFor(sorted[0], workoutId);
    }
  }

  /** `.limit(1).single()`: the completed session of the workout that started last, if any. */
  function LatestCompleted(table: seq<SessionRow>, workoutId: Id): (r: Option<SessionRow>)
    ensures r.None? <==> forall s :: s in table ==> !IsCompletedFor(s, workoutId)
    ensures r.Some? ==> r.value in table && IsCompletedFor(r.value, workoutId)
    ensures r.Some? ==> forall s :: s in table && IsCompletedFor(s, workoutId) ==> s.startedAt <= r.value.startedAt
  {
    var q := CompletedSessions(table, workoutId, 1);
    NewestFirstHead(table, workoutId);
    if q == [] then None else Some(q[0])
  }

  /** workout_session_exercise_loads where session_id = sessionId, in table order. */
  function LoadsOfSession(table: seq<LoadRow>, sessionId: Id): (r: seq<LoadRow>)
    ensures forall l :: l in r <==> l in table && l.sessionId == sessionId
    ensures forall l :: multiset(r)[l] == if l.sessionId == sessionId then multiset(table)[l] else 0
  {
    var keep := (l: LoadRow) => l.sessionId == sessionId;
    var r := Filter(table, keep);
    forall l ensures multiset(r)[l] == if l.sessionId == sessionId then multiset(table)[l] else 0 {
      FilterMultiset(table, keep, l);
    }
    r
  }

  /** The columns an `.update(...)` on workout_sessions sets. */
  datatype SessionChange =
    | Close(endedAt: Timestamp, notes: Option<string>)
    | SetNotes(notes: Option<string>)

  function ApplyChange(s: SessionRow, change: SessionChange): SessionRow
  {
    match change
    case Close(endedAt, notes) => s.(endedAt := Some(endedAt), notes := notes)
    case SetNotes(notes) => s.(notes := notes)
  }

  /** `.update(change).eq('id', id)`: every row with that id changes, no other row does. */
  function UpdateWhereId(table: seq<SessionRow>, id: Id, change: SessionChange): (r: seq<SessionRow>)
    ensures |r| == |table|
  {
    seq(|table|, i requires 0 <= i < |table| =>
      if table[i].id == id then ApplyChange(table[i], change) else table[i])
  }

  /**
   * An update touches only the rows with the id and, in them, only the
   * columns it names; an update matching no row is not an error.
   */
  lemma {:induction false} UpdateWhereIdFrame(table: seq<SessionRow>, id: Id, change: SessionChange)
    ensures var r := UpdateWhereId(table, id, change);
      && (forall i :: 0 <= i < |table| && table[i].id != id ==> r[i] == table[i])
      && (forall i :: 0 <= i < |table| && table[i].id == id ==>
            && r[i].id == id
            && r[i].workoutId == table[i].workoutId
            && r[i].startedAt == table[i].startedAt
            && r[i].userId == table[i].userId
            && r[i].rpe == table[i].rpe
            && r[i].notes == change.notes
            && r[i].endedAt == (if change.Close? then Some(change.endedAt) else table[i].endedAt))
      && ((forall s :: s in table ==> s.id != id) ==> r == table)
  {
  }

  class Db {
    var exercises: seq<ExerciseRow>
    var sessions: seq<SessionRow>
    var loads: seq<LoadRow>

    constructor (exercises: seq<ExerciseRow>, sessions: seq<SessionRow>, loads: seq<LoadRow>)
      ensures this.exercises == exercises && this.sessions == sessions && this.loads == loads
    {
      this.exercises := exercises;
      this.sessions := sessions;
      this.loads := loads;
    }

    /** `.from('workout_sessions').insert(row)`. */
    method InsertSession(row: SessionRow, fail: bool) returns (ok: bool)
      modifies this`sessions
      ensures ok == !fail
      ensures sessions == if ok then old(sessions) + [row] else old(sessions)
    {
      ok := !fail;
      if ok {
        sessions := sessions + [row];
      }
    }

    /** `.from('workout_session_exercise_loads').insert(rows)`: one batch, all or nothing. */
    method InsertLoads(rows: seq<LoadRow>, fail: bool) returns (ok: bool)
      modifies this`loads
      ensures ok == !fail
      ensures loads == if ok then old(loads) + rows else old(loads)
    {
      ok := !fail;
      if ok {
        loads := loads + rows;
      }
    }

    /** `.from('workout_sessions').update(change).eq('id', id)`. */
    method UpdateSession(id: Id, change: SessionChange, fail: bool) returns (ok: bool)
      modifies this`sessions
      ensures ok == !fail
      ensures sessions == if ok then UpdateWhereId(old(sessions), id, change) else old(sessions)
    {
      ok := !fail;
      if ok {
        sessions := UpdateWhereId(sessions, id, change);
      }
    }
  }
}
