/**
 * The row shapes of the four tables the client reads and writes
 * (workouts, workout_exercises, workout_sessions,
 * workout_session_exercise_loads). Timestamps are integer milliseconds.
 */
module Rows {
  import opened Text

  datatype Option<T> = None | Some(value: T)

  type Id = string

  /** Milliseconds since the epoch, as `new Date(iso).getTime()` gives them. */
  type Timestamp = int

  datatype Workout = Workout(
    id: Id,
    name: string,
    style: Option<string>,
    description: Option<string>,
    estDurationMinutes: Option<int>,
    createdAt: Timestamp)

  datatype ExerciseRow = ExerciseRow(
    id: Id,
    workoutId: Id,
    position: int,
    exerciseName: string,
    sets: Option<int>,
    reps: Option<int>,
    timeSeconds: Option<int>,
    restSeconds: Option<int>,
    loadPrescription: Option<string>,
    notes: Option<string>)

  /** A session is in progress exactly while `endedAt` is None. */
  datatype SessionRow = SessionRow(
    id: Id,
    userId: Option<Id>,
    workoutId: Id,
    startedAt: Timestamp,
    endedAt: Option<Timestamp>,
    rpe: Option<int>,
    notes: Option<string>)

  /** A recorded load; `repsCompleted` holds what `parseInt` gave the client. */
  datatype LoadRow = LoadRow(
    sessionId: Id,
    exerciseId: Id,
    loadUsed: Option<string>,
    repsCompleted: Option<JsNumber>,
    timeSeconds: Option<int>,
    notes: Option<string>)

  /** `text || null`: the empty string is stored as null. */
  function NullIfEmpty(text: string): (r: Option<string>)
    ensures r.None? <==> text == ""
    ensures r.Some? ==> r.value == text
  {
    if text == "" then None else Some(text)
  }
}
