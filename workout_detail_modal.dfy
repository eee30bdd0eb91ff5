/**
 * The workout detail view: three tabs over one workout, and the identifier
 * and start time of the session in progress, kept here so that the session
 * survives the active-session controller being unmounted by a tab switch.
 */
module WorkoutDetailModalComponent {
  import opened Rows
  import opened Timer
  import opened Store
  import opened ExerciseLoads
  import opened ActiveSessionComponent

  datatype Tab = ExercisesTab | SessionTab | HistoryTab

  /** What the view renders: nothing without a workout, else the dialog with its banner and tab. */
  datatype View = Hidden | Shown(open: bool, banner: bool, tab: Tab)

  class WorkoutDetailModal {
    // what the page passes down
    var workout: Option<Workout>
    var open: bool
    // the view's own state
    var exercises: seq<ExerciseRow>
    var loading: bool
    var activeTab: Tab
    var activeSessionId: Option<Id>
    var sessionStartTime: Option<Timestamp>

    constructor (workout: Option<Workout>, open: bool)
      ensures this.workout == workout && this.open == open
      ensures exercises == [] && !loading && activeTab == ExercisesTab
      ensures activeSessionId.None? && sessionStartTime.None?
    {
      this.workout := workout;
      this.open := open;
      exercises := [];
      loading := false;
      activeTab := ExercisesTab;
      activeSessionId := None;
      sessionStartTime := None;
    }

    /** Load the workout's exercises in position order; a failed query keeps the old list. */
    method FetchExercises(db: Db, fail: bool)
      modifies this`exercises, this`loading
      ensures workout.None? ==> exercises == old(exercises) && loading == old(loading)
      ensures workout.Some? ==> !loading
      ensures workout.Some? ==> exercises == if fail then old(exercises) else ExercisesOf(db.exercises, workout.value.id)
    {
      if workout.None? {
        return;
      }
      loading := true;
      if !fail {
        exercises := ExercisesOf(db.exercises, workout.value.id);
      }
      loading := false;
    }

    /**
     * New props from the page. Opening with a workout fetches its exercises
     * and goes back to the exercises tab; the kept session is not touched.
     * The effect runs only when the workout or the open flag changed.
     */
    method OnPropsChange(workout: Option<Workout>, open: bool, db: Db, fail: bool)
      requires workout != this.workout || open != this.open
      modifies this`workout, this`open, this`exercises, this`loading, this`activeTab
      ensures this.workout == workout && this.open == open
      ensures activeSessionId == old(activeSessionId) && sessionStartTime == old(sessionStartTime)
      ensures workout.Some? && open ==> activeTab == ExercisesTab && !loading
      ensures workout.Some? && open ==>
        exercises == if fail then old(exercises) else ExercisesOf(db.exercises, workout.value.id)
      ensures !(workout.Some? && open) ==>
        activeTab == old(activeTab) && exercises == old(exercises) && loading == old(loading)
    {
      this.workout := workout;
      this.open := open;
      if workout.Some? && open {
        FetchExercises(db, fail);
        activeTab := ExercisesTab;
      }
    }

    /** A tab button: that tab, and nothing else changes. */
    method SelectTab(tab: Tab)
      modifies this`activeTab
      ensures activeTab == tab
      ensures activeSessionId == old(activeSessionId) && sessionStartTime == old(sessionStartTime)
    {
      activeTab := tab;
    }

    /** The controller reported a started session: keep its identifier and start time. */
    method HandleSessionStart(sessionId: Id, startTime: Timestamp)
      modifies this`activeSessionId, this`sessionStartTime
      ensures activeSessionId == Some(sessionId) && sessionStartTime == Some(startTime)
      ensures activeTab == old(activeTab)
    {
      activeSessionId := Some(sessionId);
      sessionStartTime := Some(startTime);
    }

    /** The controller closed a finished session: forget it and show the history. */
    method HandleSessionComplete()
      modifies this`activeSessionId, this`sessionStartTime, this`activeTab
      ensures activeSessionId.None? && sessionStartTime.None?
      ensures activeTab == HistoryTab
      ensures !ShowsBanner()
    {
      activeSessionId := None;
      sessionStartTime := None;
      activeTab := HistoryTab;
    }

    /** The "in progress" banner. */
    predicate ShowsBanner()
      reads this
    {
      SessionKept(activeSessionId, sessionStartTime)
    }

    function View(): (v: View)
      reads this
      ensures v.Hidden? <==> workout.None?
      ensures v.Shown? ==> v.open == open && v.tab == activeTab
      ensures v.Shown? ==> (v.banner <==> activeSessionId.Some? && activeSessionId.value != "" && sessionStartTime.Some?)
    {
      if workout.None? then Hidden else Shown(open, ShowsBanner(), activeTab)
    }
  }

  /**
   * Start a session on the session tab, switch to another tab and back:
   * the controller mounted again restores the same session, with the same
   * start time, so its clock reads the same as the old one would.
   */
  method StartSwitchAndReturn(modal: WorkoutDetailModal, db: Db, now: Timestamp, newId: Id, other: Tab, later: Timestamp)
      returns (restored: ActiveSession)
    requires modal.workout.Some? && newId != ""
    modifies modal, db`sessions
    ensures fresh(restored)
    ensures modal.workout == old(modal.workout)
    ensures db.sessions == old(db.sessions) + [NewSessionRow(newId, modal.workout.value.id, now)]
    ensures modal.activeTab == SessionTab && modal.ShowsBanner()
    ensures restored.session.Some? && restored.session.value.id == newId && restored.session.value.startedAt == now
    ensures restored.elapsedSeconds == Elapsed(now, later)
  {
    var controller := new ActiveSession(modal.workout.value.id, modal.activeSessionId, modal.sessionStartTime);
    var reported := controller.HandleStartWorkout(db, now, newId, false);
    modal.HandleSessionStart(reported.value.0, reported.value.1);
    modal.SelectTab(other);
    modal.SelectTab(SessionTab);
    restored := new ActiveSession(modal.workout.value.id, modal.activeSessionId, modal.sessionStartTime);
    restored.Tick(later);
  }

  /**
   * Finish the session in the controller, then close its summary: only a
   * finished session is forgotten by the detail view, which then shows the
   * history; after a failed finish the view keeps the session.
   */
  method FinishAndClose(modal: WorkoutDetailModal, controller: ActiveSession, db: Db, now: Timestamp, failInsert: bool, failUpdate: bool)
      returns (finished: bool)
    requires controller.Valid()
    modifies modal`activeSessionId, modal`sessionStartTime, modal`activeTab
    modifies controller`isFinishing, controller`isFinished, controller`finalDuration, db`loads, db`sessions
    ensures controller.Valid()
    ensures finished ==> controller.Phase() == Finished && !modal.ShowsBanner() && modal.activeTab == HistoryTab
    ensures !finished ==>
      && modal.activeSessionId == old(modal.activeSessionId)
      && modal.sessionStartTime == old(modal.sessionStartTime)
      && modal.activeTab == old(modal.activeTab)
  {
    finished := controller.HandleFinishWorkout(db, now, failInsert, failUpdate);
    if finished {
      modal.HandleSessionComplete();
    }
  }

  /**
   * The page keeps the detail view mounted while it closes one workout and
   * opens another, and nothing clears the kept session on the way: the
   * banner still shows, and a controller mounted for the new workout
   * rebuilds the old session as a session of the new workout.
   */
  method ReopenWithOther(modal: WorkoutDetailModal, db: Db, other: Workout, fail: bool)
      returns (restored: ActiveSession)
    requires modal.workout.Some? && modal.open && modal.ShowsBanner()
    modifies modal
    ensures fresh(restored) && restored.Valid()
    ensures modal.workout == Some(other) && modal.open && modal.ShowsBanner()
    ensures modal.activeSessionId == old(modal.activeSessionId) && modal.sessionStartTime == old(modal.sessionStartTime)
    ensures restored.session.Some? && restored.session.value.id == old(modal.activeSessionId).value
    ensures restored.session.value.workoutId == other.id
    ensures restored.exercises == ExercisesOf(db.exercises, other.id) && restored.notes == ""
  {
    modal.OnPropsChange(None, false, db, fail);
    modal.OnPropsChange(Some(other), true, db, fail);
    restored := new ActiveSession(other.id, modal.activeSessionId, modal.sessionStartTime);
    restored.FetchExercises(db, false);
  }

  /**
   * Carry on after `ReopenWithOther`: once the new workout's exercises are
   * loaded and a value is typed for `typed`, a finish writes the loads of
   * the new workout's exercises under the old session's identifier and
   * closes that session.
   */
  method KeptAcrossWorkouts(modal: WorkoutDetailModal, db: Db, other: Workout, fail: bool,
                            typed: Id, field: LoadField, value: string,
                            now: Timestamp, failInsert: bool, failUpdate: bool)
      returns (restored: ActiveSession, finished: bool)
    requires modal.workout.Some? && modal.open && modal.ShowsBanner()
    modifies modal, db`loads, db`sessions
    ensures fresh(restored)
    ensures modal.workout == Some(other) && modal.open && modal.ShowsBanner()
    ensures restored.session.Some? && restored.session.value.id == old(modal.activeSessionId).value
    ensures restored.session.value.workoutId == other.id
    ensures |old(db.loads)| <= |db.loads| && db.loads[..|old(db.loads)|] == old(db.loads)
    ensures RowsUnder(db.loads[|old(db.loads)|..], old(modal.activeSessionId).value, IdsOf(ExercisesOf(db.exercises, other.id)))
    ensures typed in IdsOf(ExercisesOf(db.exercises, other.id)) && value != "" && !failInsert ==>
      HasRowFor(db.loads[|old(db.loads)|..], typed)
    ensures !failInsert && !failUpdate ==>
      finished && db.sessions == UpdateWhereId(old(db.sessions), old(modal.activeSessionId).value, Close(now, None))
  {
    restored := ReopenWithOther(modal, db, other, fail);
    finished := TypeAndFinish(restored, db, typed, field, value, now, failInsert, failUpdate);
  }
}
