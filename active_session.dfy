/**
 * The active-session controller: start a session, keep the elapsed time
 * from the stored start timestamp, collect per-exercise loads, and finish
 * with two store writes (the loads, then the session's end).
 */
module ActiveSessionComponent {
  import opened Rows
  import opened Timer
  import opened Store
  import opened ExerciseLoads

  /** The user every new session is filed under; there is no sign-in. */
  const DefaultUserId: Id := "00000000-0000-0000-0000-000000000000"

  /** What the controller renders. */
  datatype Screen = StartPrompt | Summary(totalDuration: string) | Running(elapsed: string)

  /** NotStarted -> InProgress -> Finished. */
  datatype Phase = NotStarted | InProgress | Finished

  /** The row a start inserts: now, this workout, the placeholder user, not ended. */
  function NewSessionRow(id: Id, workoutId: Id, now: Timestamp): (row: SessionRow)
    ensures row.id == id && row.workoutId == workoutId && row.startedAt == now
    ensures row.endedAt.None? && row.userId == Some(DefaultUserId)
    ensures row.rpe.None? && row.notes.None?
  {
    SessionRow(id, Some(DefaultUserId), workoutId, now, None, None, None)
  }

  /**
   * `activeSessionId && sessionStartTime`: both kept, and the identifier not
   * the empty string (which JavaScript treats as false).
   */
  predicate SessionKept(activeSessionId: Option<Id>, sessionStartTime: Option<Timestamp>) {
    activeSessionId.Some? && activeSessionId.value != "" && sessionStartTime.Some?
  }

  /**
   * The session rebuilt from the identifier and start time the detail view
   * kept: present exactly when both are, started at the kept time, in progress.
   */
  function RestoredSession(workoutId: Id, activeSessionId: Option<Id>, sessionStartTime: Option<Timestamp>): (s: Option<SessionRow>)
    ensures s.Some? <==> SessionKept(activeSessionId, sessionStartTime)
    ensures s.Some? ==> s.value.id == activeSessionId.value && s.value.startedAt == sessionStartTime.value
    ensures s.Some? ==> s.value.workoutId == workoutId && s.value.endedAt.None? && s.value.userId.None?
  {
    if SessionKept(activeSessionId, sessionStartTime) then
      Some(SessionRow(activeSessionId.value, None, workoutId, sessionStartTime.value, None, None, None))
    else None
  }

  class ActiveSession {
    const workoutId: Id
    // what the detail view passes down
    var activeSessionId: Option<Id>
    var sessionStartTime: Option<Timestamp>
    // the component's own state
    var session: Option<SessionRow>
    var elapsedSeconds: int
    var notes: string
    var isFinishing: bool
    var isFinished: bool
    var finalDuration: int
    var exercises: seq<ExerciseRow>
    var exerciseLoads: map<Id, LoadForm>
    /** The key order of `exerciseLoads`, which decides the order of `Object.values`. */
    var loadOrder: seq<Id>
    var previousLoads: map<Id, string>
    var loadingExercises: bool

    /** What holds at every step, inside a handler as well as between them. */
    ghost predicate Consistent()
      reads this`exerciseLoads, this`loadOrder, this`exercises, this`isFinished, this`session
    {
      && WellFormed(exerciseLoads, loadOrder)
      && exerciseLoads.Keys == IdsOf(exercises)
      && (isFinished ==> session.Some?)
    }

    /** What holds between handlers: no request is in flight. */
    ghost predicate Valid()
      reads this`exerciseLoads, this`loadOrder, this`exercises, this`isFinished, this`session
      reads this`isFinishing, this`loadingExercises
    {
      Consistent() && !isFinishing && !loadingExercises
    }

    function Phase(): Phase
      reads this
    {
      if isFinished then Finished else if session.Some? then InProgress else NotStarted
    }

    /** Mounting with the detail view's kept identifier and start time restores the session. */
    constructor (workoutId: Id, activeSessionId: Option<Id>, sessionStartTime: Option<Timestamp>)
      ensures Valid()
      ensures this.workoutId == workoutId
      ensures this.activeSessionId == activeSessionId && this.sessionStartTime == sessionStartTime
      ensures session == RestoredSession(workoutId, activeSessionId, sessionStartTime)
      ensures elapsedSeconds == 0 && finalDuration == 0 && notes == "" && !isFinished
      ensures exercises == [] && exerciseLoads == map[] && loadOrder == [] && previousLoads == map[]
    {
      this.workoutId := workoutId;
      this.activeSessionId := activeSessionId;
      this.sessionStartTime := sessionStartTime;
      session := RestoredSession(workoutId, activeSessionId, sessionStartTime);
      elapsedSeconds, finalDuration := 0, 0;
      notes := "";
      isFinishing, isFinished, loadingExercises := false, false, false;
      exercises, exerciseLoads, loadOrder, previousLoads := [], map[], [], map[];
    }

    /**
     * New identifier and start time from the detail view; the session is
     * rebuilt when both are set. The effect runs only when one of the two
     * props changed, so a call with the same props is not a render.
     */
    method ReceiveProps(activeSessionId: Option<Id>, sessionStartTime: Option<Timestamp>)
      requires Valid()
      requires activeSessionId != this.activeSessionId || sessionStartTime != this.sessionStartTime
      modifies this`activeSessionId, this`sessionStartTime, this`session
      ensures Valid()
      ensures this.activeSessionId == activeSessionId && this.sessionStartTime == sessionStartTime
      ensures session == if SessionKept(activeSessionId, sessionStartTime)
        then RestoredSession(workoutId, activeSessionId, sessionStartTime) else old(session)
    {
      this.activeSessionId := activeSessionId;
      this.sessionStartTime := sessionStartTime;
      if SessionKept(activeSessionId, sessionStartTime) {
        session := RestoredSession(workoutId, activeSessionId, sessionStartTime);
      }
    }

    /** One firing of the one-second timer at time `now`. */
    method Tick(now: Timestamp)
      modifies this`elapsedSeconds
      ensures elapsedSeconds == if sessionStartTime.Some?
        then Elapsed(sessionStartTime.value, now) else old(elapsedSeconds)
    {
      if sessionStartTime.Some? {
        elapsedSeconds := Elapsed(sessionStartTime.value, now);
      }
    }

    /** Load the workout's exercises in position order and reset the form to empty entries. */
    method FetchExercises(db: Db, fail: bool)
      requires Valid()
      modifies this`exercises, this`exerciseLoads, this`loadOrder, this`loadingExercises
      ensures Valid()
      ensures fail ==> exercises == old(exercises) && exerciseLoads == old(exerciseLoads) && loadOrder == old(loadOrder)
      ensures !fail ==> exercises == ExercisesOf(db.exercises, workoutId)
      ensures !fail ==> exerciseLoads == InitialForms(exercises) && loadOrder == KeyOrder(exercises)
    {
      loadingExercises := true;
      if !fail {
        ShowExercises(ExercisesOf(db.exercises, workoutId));
      }
      loadingExercises := false;
    }

    /** The fetched exercises replace the list, and every entry of the form starts empty. */
    method ShowExercises(data: seq<ExerciseRow>)
      requires Consistent()
      modifies this`exercises, this`exerciseLoads, this`loadOrder
      ensures Consistent()
      ensures exercises == data && exerciseLoads == InitialForms(data) && loadOrder == KeyOrder(data)
    {
      var forms, order := InitialLoadsFor(data);
      exercises, exerciseLoads, loadOrder := data, forms, order;
    }

    /**
     * Load the "last time" values from the completed session that started
     * last. When either query fails, or no session is completed, the map
     * stays as it was.
     */
    method FetchPreviousLoads(db: Db, failSessionQuery: bool, failLoadsQuery: bool)
      requires Valid()
      modifies this`previousLoads
      ensures Valid()
      ensures var latest := if failSessionQuery then None else LatestCompleted(db.sessions, workoutId);
        previousLoads == if latest.Some? && !failLoadsQuery
          then LastTimeMap(LoadsOfSession(db.loads, latest.value.id)) else old(previousLoads)
    {
      var latest := if failSessionQuery then None else LatestCompleted(db.sessions, workoutId);
      if latest.Some? && !failLoadsQuery {
        previousLoads := CollectPreviousLoads(LoadsOfSession(db.loads, latest.value.id));
      }
    }

    /** An input of the form changed: that field of that exercise's entry, nothing else. */
    method UpdateExerciseLoad(exerciseId: Id, field: LoadField, value: string)
      requires Valid() && exerciseId in exerciseLoads
      modifies this`exerciseLoads
      ensures Valid()
      ensures exerciseLoads.Keys == old(exerciseLoads).Keys
      ensures GetField(exerciseLoads[exerciseId], field) == value
      ensures forall other :: other != field ==>
        GetField(exerciseLoads[exerciseId], other) == GetField(old(exerciseLoads)[exerciseId], other)
      ensures forall id :: id in exerciseLoads && id != exerciseId ==> exerciseLoads[id] == old(exerciseLoads)[id]
      ensures exerciseLoads == old(exerciseLoads)[exerciseId := SetField(old(exerciseLoads)[exerciseId], field, value)]
    {
      exerciseLoads := exerciseLoads[exerciseId := SetField(exerciseLoads[exerciseId], field, value)];
    }

    /** The session-notes text area changed. */
    method SetNotes(text: string)
      modifies this`notes
      ensures notes == text
    {
      notes := text;
    }

    /** The rows `saveExerciseLoads` would insert for the current form. */
    function PendingLoads(sessionId: Id): seq<LoadRow>
      reads this
      requires Consistent()
    {
      LoadsToSave(sessionId, FormsInOrder(exerciseLoads, loadOrder))
    }

    /**
     * Insert a session row started now. On success the controller holds the
     * new session and reports its identifier and start time upward; on
     * failure neither happens.
     */
    method HandleStartWorkout(db: Db, now: Timestamp, newId: Id, fail: bool) returns (reported: Option<(Id, Timestamp)>)
      requires Valid()
      modifies this`session, db`sessions
      ensures Valid()
      ensures reported == if fail then None else Some((newId, now))
      ensures session == if fail then old(session) else Some(NewSessionRow(newId, workoutId, now))
      ensures db.sessions == if fail then old(db.sessions) else old(db.sessions) + [NewSessionRow(newId, workoutId, now)]
      ensures !fail ==> Phase() == (if isFinished then Finished else InProgress)
    {
      var row := NewSessionRow(newId, workoutId, now);
      var ok := db.InsertSession(row, fail);
      if !ok {
        return None;
      }
      session := Some(row);
      reported := Some((row.id, row.startedAt));
    }

    /** `saveExerciseLoads`: one batch insert, skipped when nothing was typed. */
    method SaveExerciseLoads(db: Db, sessionId: Id, fail: bool) returns (ok: bool)
      requires Consistent()
      modifies db`loads
      ensures var rows := PendingLoads(sessionId);
        && ok == (rows == [] || !fail)
        && db.loads == if rows != [] && !fail then old(db.loads) + rows else old(db.loads)
    {
      var rows := LoadsToSave(sessionId, FormsInOrder(exerciseLoads, loadOrder));
      if |rows| > 0 {
        ok := db.InsertLoads(rows, fail);
      } else {
        ok := true;
      }
    }

    /**
     * Finish: insert the loads, then close the session row. Only when both
     * writes succeed is the session finished, with the elapsed time frozen;
     * without a session nothing happens.
     */
    method HandleFinishWorkout(db: Db, now: Timestamp, failInsert: bool, failUpdate: bool) returns (finished: bool)
      requires Valid()
      modifies this`isFinishing, this`isFinished, this`finalDuration, db`loads, db`sessions
      ensures Valid()
      ensures old(session).None? ==>
        && !finished && db.loads == old(db.loads) && db.sessions == old(db.sessions)
        && isFinished == old(isFinished) && finalDuration == old(finalDuration)
      ensures old(session).Some? ==>
        var id := session.value.id;
        var rows := PendingLoads(id);
        && finished == ((rows == [] || !failInsert) && !failUpdate)
        && db.loads == (if rows != [] && !failInsert then old(db.loads) + rows else old(db.loads))
        && db.sessions == (if finished then UpdateWhereId(old(db.sessions), id, Close(now, NullIfEmpty(notes)))
                           else old(db.sessions))
        && isFinished == (old(isFinished) || finished)
        && finalDuration == (if finished then elapsedSeconds else old(finalDuration))
      ensures finished ==> Phase() == Finished
      ensures !finished ==> Phase() == old(Phase())
    {
      finished := false;
      if session.None? {
        return;
      }
      var id := session.value.id;
      isFinishing := true;
      var saved := SaveExerciseLoads(db, id, failInsert);
      if saved {
        var closed := db.UpdateSession(id, Close(now, NullIfEmpty(notes)), failUpdate);
        if closed {
          finalDuration := elapsedSeconds;
          isFinished := true;
          finished := true;
        }
      }
      isFinishing := false;
    }

    /** Save the session notes again from the summary; local state does not change. */
    method HandleUpdateNotes(db: Db, fail: bool) returns (saved: bool)
      modifies db`sessions
      ensures session.None? ==> !saved && db.sessions == old(db.sessions)
      ensures session.Some? ==> saved == !fail
      ensures session.Some? ==> db.sessions == if saved
        then UpdateWhereId(old(db.sessions), session.value.id, SessionChange.SetNotes(NullIfEmpty(notes))) else old(db.sessions)
    {
      saved := false;
      if session.None? {
        return;
      }
      saved := db.UpdateSession(session.value.id, SessionChange.SetNotes(NullIfEmpty(notes)), fail);
    }

    /** The start prompt before any session, the summary once finished, the running clock otherwise. */
    function Screen(): (s: Screen)
      reads this
      ensures s.StartPrompt? <==> session.None? && sessionStartTime.None?
      ensures s.Summary? ==> isFinished && s.totalDuration == FormatTime(finalDuration)
      ensures s.Running? ==> !isFinished && s.elapsed == FormatTime(elapsedSeconds)
    {
      if session.None? && sessionStartTime.None? then StartPrompt
      else if isFinished then Summary(FormatTime(finalDuration))
      else Running(FormatTime(elapsedSeconds))
    }

    /** The "Last time" hint beside an exercise, when the previous session recorded a load for it. */
    function LastTimeHint(exerciseId: Id): (hint: Option<string>)
      reads this
      ensures hint.Some? <==> exerciseId in previousLoads && previousLoads[exerciseId] != ""
      ensures hint.Some? ==> hint.value == previousLoads[exerciseId]
    {
      if exerciseId in previousLoads && previousLoads[exerciseId] != "" then Some(previousLoads[exerciseId]) else None
    }
  }

  /**
   * Finishing again after the closing update failed inserts the same load
   * rows a second time: the first insert is not undone when the update fails.
   */
  method RetryAfterFailedClose(controller: ActiveSession, db: Db, firstTry: Timestamp, secondTry: Timestamp)
      returns (finished: bool)
    requires controller.Valid() && controller.session.Some?
    modifies controller`isFinishing, controller`isFinished, controller`finalDuration, db`loads, db`sessions
    ensures finished && controller.Phase() == Finished
    ensures var rows := controller.PendingLoads(controller.session.value.id);
      db.loads == old(db.loads) + rows + rows
  {
    var first := controller.HandleFinishWorkout(db, firstTry, false, true);
    finished := controller.HandleFinishWorkout(db, secondTry, false, false);
  }

  /**
   * Finish and look at the rows written: each is filed under the session's
   * identifier and is for one of the listed exercises, and an entry with
   * input gets its row unless the insert failed.
   */
  method FinishWrites(controller: ActiveSession, db: Db, exerciseId: Id, now: Timestamp, failInsert: bool, failUpdate: bool)
      returns (finished: bool)
    requires controller.Valid() && controller.session.Some?
    modifies controller`isFinishing, controller`isFinished, controller`finalDuration, db`loads, db`sessions
    ensures |old(db.loads)| <= |db.loads| && db.loads[..|old(db.loads)|] == old(db.loads)
    ensures RowsUnder(db.loads[|old(db.loads)|..], controller.session.value.id, IdsOf(controller.exercises))
    ensures exerciseId in controller.exerciseLoads && HasInput(controller.exerciseLoads[exerciseId]) && !failInsert ==>
      HasRowFor(db.loads[|old(db.loads)|..], exerciseId)
    ensures !failInsert && !failUpdate ==> finished
    ensures !failInsert && !failUpdate ==>
      db.sessions == UpdateWhereId(old(db.sessions), controller.session.value.id, Close(now, NullIfEmpty(controller.notes)))
  {
    var id := controller.session.value.id;
    var forms, order := controller.exerciseLoads, controller.loadOrder;
    var rows := LoadsToSave(id, FormsInOrder(forms, order));
    assert RowsUnder(rows, id, forms.Keys) by {
      SavedRowsOfKeys(id, forms, order);
    }
    if exerciseId in forms && HasInput(forms[exerciseId]) && !failInsert {
      assert HasRowFor(rows, exerciseId) by {
        SavedIfInput(id, forms, order, exerciseId);
      }
    }
    var before := db.loads;
    finished := controller.HandleFinishWorkout(db, now, failInsert, failUpdate);
    var added := if rows != [] && !failInsert then rows else [];
    assert db.loads == before + added;
    assert db.loads[|before|..] == added;
  }

  /** Type one value into the form, then finish. */
  method TypeAndFinish(controller: ActiveSession, db: Db, typed: Id, field: LoadField, value: string,
                       now: Timestamp, failInsert: bool, failUpdate: bool)
      returns (finished: bool)
    requires controller.Valid() && controller.session.Some?
    modifies controller`exerciseLoads, controller`isFinishing, controller`isFinished, controller`finalDuration
    modifies db`loads, db`sessions
    ensures |old(db.loads)| <= |db.loads| && db.loads[..|old(db.loads)|] == old(db.loads)
    ensures RowsUnder(db.loads[|old(db.loads)|..], controller.session.value.id, IdsOf(controller.exercises))
    ensures typed in IdsOf(controller.exercises) && value != "" && !failInsert ==>
      HasRowFor(db.loads[|old(db.loads)|..], typed)
    ensures !failInsert && !failUpdate ==> finished
    ensures !failInsert && !failUpdate ==>
      db.sessions == UpdateWhereId(old(db.sessions), controller.session.value.id, Close(now, NullIfEmpty(controller.notes)))
  {
    if typed in controller.exerciseLoads {
      controller.UpdateExerciseLoad(typed, field, value);
      assert GetField(controller.exerciseLoads[typed], field) == value;
    }
    finished := FinishWrites(controller, db, typed, now, failInsert, failUpdate);
  }
}
