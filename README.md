# workout-vault: active session, session history and workout detail, in Dafny

This project models the three stateful React components of the workout-vault
client and proves properties of that model:

- **The active-session controller** (`ActiveSession`). It starts a session row.
  Its one-second clock shows `floor((now - start) / 1000)` seconds, formatted
  as `M:SS` or `H:MM:SS`. It keeps a per-exercise form (load used, reps done,
  notes) keyed by exercise id, plus a "last time" hint drawn from the most
  recent completed session. Finishing takes two store writes: a batch insert
  of the filled-in loads, then the update that closes the session.
- **The session history list** (`SessionHistory`). It shows the ten most
  recently started completed sessions with whole-minute durations and their
  loads. It has an expand/collapse set and a single-slot notes editor.
- **The workout detail view** (`WorkoutDetailModal`). It has three tabs. It
  keeps the id and start time of the session in progress, so the session
  survives the controller being unmounted by a tab switch.

The remote table store is the class `Store.Db`, an in-memory copy of three of
its tables. Queries are pure selections over a table. Every write takes a
`fail` flag: a failed write leaves the tables unchanged, and the caller takes
the error path the source takes. The clock (`now`), the ids the store assigns,
and the outcome of every request are inputs. Timestamps are integer
milliseconds.

JavaScript semantics are written out where they matter:

- `%` truncates toward zero (`Timer.JsRem`).
- `Math.floor` of a division by a positive constant is Dafny's `/`.
- `toString` and `padStart(2, '0')` are modelled.
- `text || null` is `Rows.NullIfEmpty`.
- `parseInt` without a radix (`Text.ParseInt`) skips leading ASCII white
  space and reads an optional sign. It then reads a hexadecimal numeral after
  a `0x` or `0X` prefix, and the leading decimal digits otherwise. With no
  digit it gives `NaN`.
- A JavaScript object keeps its string keys in insertion order, so the form
  map is a `map` plus the key order `loadOrder`. `Object.values` follows that
  order (`ExerciseLoads.FormsInOrder`). Keys that look like array indices
  would come first instead; the keys here are exercise UUIDs, never such keys.

Where the written description of the system and the code differ, the model
follows the code:

- **Invalid reps text.** The insert row carries `NaN` from `parseInt`, not
  "no value"; only empty text becomes null. How the client library encodes
  `NaN` in the request is not modelled.
- **History loads.** They are fetched for every listed session as soon as the
  list loads, not lazily on expand.
- **History order.** The list is ordered by start time, non-increasing.
  Sessions that started at the same millisecond may tie, so the order is not
  strict.

Three consequences of the code are stated as members:

- `ActiveSessionComponent.RetryAfterFailedClose`: a finish whose closing
  update failed has already inserted the loads. Finishing again inserts the
  same load rows a second time.
- `WorkoutDetailModalComponent.KeptAcrossWorkouts`: the page keeps the detail
  view mounted when it closes one workout and opens another, and nothing
  clears the kept session. The banner still shows, and a controller mounted
  for the second workout rebuilds the first workout's session as one of the
  second workout. Finishing it writes loads of the second workout's
  exercises under the first session's identifier and closes that session.
- `SessionHistoryComponent.SavedNotesShowAsStored`: after a save, the local
  list holds the typed text (possibly `""`) while the store holds it or null.
  The list shows the same note either way.

Modules, one per file:

| file | module | contents |
|---|---|---|
| `text.dfy` | `Text` | decimal digits, `toString`, `padStart`, `split(':')`, `parseInt` |
| `rows.dfy` | `Rows` | the row shapes of the four tables, `Option`, `text \|\| null` |
| `ordering.dfy` | `Ordering` | filter, sort by an integer key, `limit` |
| `store.dfy` | `Store` | the queries the components issue, and the `Db` class with failable writes |
| `timer.dfy` | `Timer` | elapsed seconds and `formatTime` |
| `exercise_loads.dfy` | `ExerciseLoads` | the per-exercise form, the load rows saved at finish, the "last time" map |
| `active_session.dfy` | `ActiveSessionComponent` | the controller class |
| `session_history.dfy` | `SessionHistoryComponent` | the history class |
| `workout_detail_modal.dfy` | `WorkoutDetailModalComponent` | the detail-view class and the hand-offs between it and the controller |

## Model

| member | source | states |
|---|---|---|
| Rows.NullIfEmpty | src/components/ActiveSession.tsx:150-152 | `text \|\| null` is null exactly for the empty string and otherwise the text itself |
| Text.ParseIntOfNatToString | src/components/ActiveSession.tsx:151 | reps typed as a decimal numeral are stored as that number |
| Text.ParseInt | src/components/ActiveSession.tsx:151 | `parseInt` without a radix; no contract of its own, its behaviour is stated by the three lemmas below |
| Text.ParseIntWithoutDigits | src/components/ActiveSession.tsx:151 | reps text whose first character after leading white space and at most one sign is not a decimal digit is stored as `NaN`, not null |
| Text.ParseIntOfHexDigits | src/components/ActiveSession.tsx:151 | reps text `0x` or `0X` followed by hexadecimal digits is read in base 16, and with no digit after the prefix is `NaN` |
| Text.ParseIntHexExample | src/components/ActiveSession.tsx:151 | reps typed as `0x1F` are stored as 31 |
| Text.IntToString | src/components/ActiveSession.tsx:188-190 | `toString` of an integer is non-empty and, for a non-negative one, the decimal numeral |
| Text.PadStart2 | src/components/ActiveSession.tsx:188-190 | `padStart(2, '0')` leaves text of two or more characters as it is and otherwise left-fills it with zeros to length two |
| Text.DigitsValueOfNatToString | src/components/ActiveSession.tsx:188-190 | the decimal `toString` of a count reads back as that count |
| Text.NatToStringCanonical | src/components/ActiveSession.tsx:188-190 | `toString` of a positive count has no leading zero |
| Ordering.Filter | src/components/SessionHistory.tsx:30-34 | the `.eq` and `.not` filters keep exactly the rows that match, and no more rows than there were |
| Ordering.FilterMultiset | src/components/SessionHistory.tsx:30-34 | a filter keeps every matching row as often as the table has it and drops every other |
| Ordering.SortBy | src/components/SessionHistory.tsx:35 | `.order` returns the same rows, each as often, sorted by the key |
| Ordering.InsertBy | src/components/SessionHistory.tsx:35 | inserting one row into rows sorted by the key keeps them sorted and adds just that row |
| Ordering.Take | src/components/SessionHistory.tsx:36 | `.limit(n)` returns a prefix of the rows, of length `n` or all of them when there are fewer |
| Store.ExercisesOf | src/components/ActiveSession.tsx:71-75 | the exercise query returns exactly the workout's exercise rows, each as often as in the table, in ascending position |
| Store.CompletedSessions | src/components/SessionHistory.tsx:30-36 | the history query as filter, newest-first sort and limit; no contract of its own, stated by the next row |
| Store.CompletedSessionsSelects | src/components/SessionHistory.tsx:30-36 | the history query returns at most `limit` rows, only completed sessions of the workout, none more often than the table holds it, start time non-increasing; any completed session left out started no later than the last row kept, and then the list is full |
| Store.NewestFirstHead | src/components/ActiveSession.tsx:101-110 | the newest-first completed sessions of the workout are empty exactly when it has none, and otherwise start with a completed session of the workout that started no earlier than any other |
| Store.LatestCompleted | src/components/ActiveSession.tsx:101-110 | the `.limit(1).single()` query gives no session exactly when the workout has no completed session, and otherwise a completed session of the workout with the greatest start time |
| Store.LoadsOfSession | src/components/ActiveSession.tsx:113-116 | the loads query returns exactly the load rows of that session, each as often as the table holds it |
| Store.UpdateWhereId | src/components/ActiveSession.tsx:229-235 | an update by id keeps the number of rows; the next row states what it changes |
| Store.UpdateWhereIdFrame | src/components/ActiveSession.tsx:229-235 | an update by id changes only the rows with that id and, in them, only `notes` and, when closing, `ended_at`; an update matching no row changes nothing |
| Store.Db.InsertSession | src/components/ActiveSession.tsx:200-211 | a session insert appends the row on success and leaves the table unchanged on error |
| Store.Db.InsertLoads | src/components/ActiveSession.tsx:155-160 | the batch insert of loads is all or nothing |
| Store.Db.UpdateSession | src/components/ActiveSession.tsx:229-237 | a session update applies the change by id on success and leaves the table unchanged on error |
| Timer.Elapsed | src/components/ActiveSession.tsx:175 | the elapsed value is the whole number of seconds in the interval, rounded down |
| Timer.ElapsedBounds | src/components/ActiveSession.tsx:173-175 | the elapsed value is non-negative once the start is past, and below 3600 within an hour of it |
| Timer.ElapsedMonotonic | src/components/ActiveSession.tsx:173-175 | the elapsed value never decreases as time passes |
| Timer.AfterTicksDependsOnlyOnLast | src/components/ActiveSession.tsx:168-180 | after any number of timer firings the shown value depends only on the stored start and the last firing |
| Timer.JsRem | src/components/ActiveSession.tsx:184-185 | JavaScript `%`: Euclidean for non-negative dividends, otherwise a result in `(-b, 0]`; in both cases it differs from the dividend by a multiple of `b`, which fixes it |
| Timer.FormatTime | src/components/ActiveSession.tsx:182-191 | `formatTime`; no contract of its own, its output is stated by the FormatTime lemmas below |
| Timer.ClockFieldsExact | src/components/ActiveSession.tsx:183-185 | for a non-negative count, `hrs*3600 + mins*60 + secs` is the count, with minutes and seconds in `[0, 60)`, and hours are positive exactly from 3600 seconds on |
| Timer.PaddedField | src/components/ActiveSession.tsx:188-190 | a minutes or seconds field prints as exactly two digits that read back as its value |
| Timer.FormatTimeFields | src/components/ActiveSession.tsx:182-191 | the formatted time is the hours, padded minutes and padded seconds joined by colons from 3600 seconds on, and the minutes and padded seconds below that |
| Timer.FormatTimeShape | src/components/ActiveSession.tsx:182-191 | from 3600 seconds on the text is `H:MM:SS` with unpadded hours without a leading zero, and otherwise `M:SS`; minutes and seconds after a colon are two digits |
| Timer.FormatTimeRoundTrip | src/components/ActiveSession.tsx:182-191 | reading the fields of the formatted time back recovers the seconds |
| ExerciseLoads.SetField | src/components/ActiveSession.tsx:132-140 | an edit sets exactly that field and keeps the other fields and the entry's exercise id |
| ExerciseLoads.KeyOrder | src/components/ActiveSession.tsx:81-89 | the key order of the object the `forEach` builds; stated by KeyOrderWellFormed and InitialFormsSnoc |
| ExerciseLoads.InitialForms | src/components/ActiveSession.tsx:81-89 | after a fetch the form has exactly the fetched ids as keys, each with its own id and three empty fields |
| ExerciseLoads.KeyOrderWellFormed | src/components/ActiveSession.tsx:81-89 | the keys are recorded once each, in first-assignment order, and every entry carries its key as exercise id |
| ExerciseLoads.InitialFormsSnoc | src/components/ActiveSession.tsx:82-89 | one more `forEach` step assigns an empty entry under that exercise's id, and records the key only when it is new |
| ExerciseLoads.InitialLoadsFor | src/components/ActiveSession.tsx:81-89 | the `forEach` builds the initial form and its key order |
| ExerciseLoads.FormsInOrder | src/components/ActiveSession.tsx:145 | `Object.values` lists the entries in key order |
| ExerciseLoads.ToLoadRow | src/components/ActiveSession.tsx:147-153 | the insert row of one entry; stated by ToLoadRowFields |
| ExerciseLoads.LoadsToSave | src/components/ActiveSession.tsx:145-153 | the filter and map of the save never yields more rows than entries |
| ExerciseLoads.ToLoadRowFields | src/components/ActiveSession.tsx:147-153 | a saved row carries the session id and the entry's exercise id; empty load and notes become null; empty reps become null and digit reps their number |
| ExerciseLoads.LoadsToSaveSelects | src/components/ActiveSession.tsx:145-153 | every saved row carries the session id and is the row of an entry with some non-empty field; every such entry has its row saved; nothing is saved exactly when every entry is empty |
| ExerciseLoads.SavedRowsFromEntries | src/components/ActiveSession.tsx:145-153 | every saved row carries the session id and is the row of an entry with input |
| ExerciseLoads.EntriesWithInputSaved | src/components/ActiveSession.tsx:145-153 | every entry with input has its row saved |
| ExerciseLoads.SavedRowsOfKeys | src/components/ActiveSession.tsx:145-153 | every saved row is filed under the session id and is for a key of the form |
| ExerciseLoads.SavedRowOrigin | src/components/ActiveSession.tsx:145-153 | the exercise id of a saved row is that of an entry with input |
| ExerciseLoads.LoadsToSaveDistinct | src/components/ActiveSession.tsx:145-153 | entries with distinct exercise ids give rows with distinct exercise ids |
| ExerciseLoads.FormsInOrderDistinct | src/components/ActiveSession.tsx:145 | `Object.values` of the form lists one entry per key, with distinct exercise ids |
| ExerciseLoads.SavedIfInput | src/components/ActiveSession.tsx:145-155 | an exercise whose entry has input has a saved row |
| ExerciseLoads.InputIfSaved | src/components/ActiveSession.tsx:145-155 | an exercise with a saved row has an entry with input |
| ExerciseLoads.SavedExerciseAt | src/components/ActiveSession.tsx:145-155 | an exercise has a saved row exactly when it has an entry with some input |
| ExerciseLoads.SavedExercises | src/components/ActiveSession.tsx:145-155 | from the form: at most one row per entry, distinct exercise ids, and an exercise has a row exactly when it has an entry with some input |
| ExerciseLoads.DistinctCardinality | src/components/ActiveSession.tsx:145-155 | a list of distinct ids has as many ids as elements |
| ExerciseLoads.LastTimeMap | src/components/ActiveSession.tsx:120-125 | the map the `forEach` fills; stated by LastTimeMapAt and LastTimeMapSelects |
| ExerciseLoads.LastTimeMapAt | src/components/ActiveSession.tsx:120-125 | for one exercise: it has a hint exactly when some load of it has a non-empty load text, and the hint is the last such text |
| ExerciseLoads.LastTimeMapSelects | src/components/ActiveSession.tsx:120-125 | the "last time" map keeps only loads with non-empty load text, keyed by exercise id, the later row winning |
| ExerciseLoads.CollectPreviousLoads | src/components/ActiveSession.tsx:120-125 | the `forEach` builds exactly that map |
| ActiveSessionComponent.NewSessionRow | src/components/ActiveSession.tsx:198-206 | a new session starts now, for this workout and the placeholder user, not ended |
| ActiveSessionComponent.RestoredSession | src/components/ActiveSession.tsx:46-58 | a session is rebuilt exactly when a non-empty id and a start time were kept, with that id and start time, in progress |
| ActiveSessionComponent.ActiveSession.constructor | src/components/ActiveSession.tsx:34-58 | mounting starts from empty state and restores a kept session |
| ActiveSessionComponent.ActiveSession.ReceiveProps | src/components/ActiveSession.tsx:46-58 | when a prop changed, the new props rebuild the session when both are set and keep it otherwise |
| ActiveSessionComponent.ActiveSession.Tick | src/components/ActiveSession.tsx:168-177 | a timer firing shows the elapsed seconds since the kept start; without a start time nothing changes |
| ActiveSessionComponent.ActiveSession.FetchExercises | src/components/ActiveSession.tsx:68-96 | on success the list is the workout's exercises and the form is reset, and on error both are kept; loading ends either way |
| ActiveSessionComponent.ActiveSession.ShowExercises | src/components/ActiveSession.tsx:78-90 | the fetched list replaces the exercises and the form starts empty for each of them |
| ActiveSessionComponent.ActiveSession.FetchPreviousLoads | src/components/ActiveSession.tsx:98-130 | the hints come from the latest completed session; with no such session or a failed query they are unchanged |
| ActiveSessionComponent.ActiveSession.UpdateExerciseLoad | src/components/ActiveSession.tsx:132-140 | an edit changes that field of that entry only; every other field and entry and the key set are unchanged |
| ActiveSessionComponent.ActiveSession.SetNotes | src/components/ActiveSession.tsx:419-420 | the notes text area sets the notes |
| ActiveSessionComponent.ActiveSession.HandleStartWorkout | src/components/ActiveSession.tsx:193-218 | on success the session is held, the new row is in the store, and the id and start time are reported; on error none of these happen |
| ActiveSessionComponent.ActiveSession.SaveExerciseLoads | src/components/ActiveSession.tsx:142-166 | no insert is issued when no entry has input; otherwise one batch insert whose error aborts the finish |
| ActiveSessionComponent.ActiveSession.HandleFinishWorkout | src/components/ActiveSession.tsx:220-248 | without a session nothing happens; otherwise the session is finished, and the duration frozen, exactly when the load insert (if any) and the closing update, which sets the end and the notes or null, both succeed; on failure it is not finished, no close is written, and `isFinishing` is reset |
| ActiveSessionComponent.ActiveSession.HandleUpdateNotes | src/components/ActiveSession.tsx:250-269 | the notes, or null, are written to the session by id; without a session nothing is written |
| ActiveSessionComponent.ActiveSession.Screen | src/components/ActiveSession.tsx:275-337 | the start prompt when there is neither a session nor a start time, the summary with the frozen duration once finished, and the running clock otherwise |
| ActiveSessionComponent.ActiveSession.LastTimeHint | src/components/ActiveSession.tsx:362-366 | the hint is shown exactly for exercises with a non-empty previous load |
| ActiveSessionComponent.FinishWrites | src/components/ActiveSession.tsx:220-248 | a finish only appends loads, each filed under the session's id and for a listed exercise; an entry with input gets its row unless the insert fails; with both writes successful the session is closed |
| ActiveSessionComponent.TypeAndFinish | src/components/ActiveSession.tsx:132-248 | typing a non-empty value for a listed exercise and finishing writes a row for it unless the insert fails, and only rows under the session's id for listed exercises |
| ActiveSessionComponent.RetryAfterFailedClose | src/components/ActiveSession.tsx:220-247 | finishing again after the close failed inserts the pending load rows twice |
| SessionHistoryComponent.DurationMinutes | src/components/SessionHistory.tsx:41-49 | the listed duration is the whole number of minutes in the interval, rounded down |
| SessionHistoryComponent.DurationBounds | src/components/SessionHistory.tsx:41-49 | a session that did not end before its start lasts a non-negative number of minutes |
| SessionHistoryComponent.FortyTwoAndAHalfMinutes | src/components/SessionHistory.tsx:41-49 | 42 min 30 s is listed as 42 |
| SessionHistoryComponent.DurationOf | src/components/SessionHistory.tsx:41-49 | a session has a duration exactly when it has ended |
| SessionHistoryComponent.Entries | src/components/SessionHistory.tsx:38-69 | one listed entry per selected row |
| SessionHistoryComponent.EntryAt | src/components/SessionHistory.tsx:38-69 | each entry holds its row, that row's duration, and that session's loads unless its load query failed |
| SessionHistoryComponent.FailedLoadIsolated | src/components/SessionHistory.tsx:62-67 | a failed load query empties that session's loads only; the other entries and the list's length and order are unchanged |
| SessionHistoryComponent.HistoryShown | src/components/SessionHistory.tsx:28-69 | the list shows the rows of the history query: at most ten completed sessions of the workout, none more often than stored, newest first, each with a duration; an entry whose load query succeeded lists exactly that session's loads and one whose query failed lists none |
| SessionHistoryComponent.NotesOrEmpty | src/components/SessionHistory.tsx:119 | the editor starts from the notes, or from the empty string when there are none |
| SessionHistoryComponent.ShownNotes | src/components/SessionHistory.tsx:226-230 | a note line is shown exactly for non-empty notes |
| SessionHistoryComponent.SavedNotesShowAsStored | src/components/SessionHistory.tsx:127-134 | the locally kept text and the stored text-or-null show the same note and open the editor on the same text |
| SessionHistoryComponent.ReplaceNotes | src/components/SessionHistory.tsx:133-135 | the local list after a save keeps its length; the next row states what changes |
| SessionHistoryComponent.ReplaceNotesFrame | src/components/SessionHistory.tsx:133-135 | a save replaces the notes of the entries with that id only; every other entry, all other fields, and the length and order are unchanged |
| SessionHistoryComponent.Toggled | src/components/SessionHistory.tsx:79-89 | toggling removes the id if present and adds it otherwise; other ids are unchanged |
| SessionHistoryComponent.ToggleTwice | src/components/SessionHistory.tsx:79-89 | toggling twice restores the set |
| SessionHistoryComponent.SessionHistory.constructor | src/components/SessionHistory.tsx:18-22 | the list starts empty and loading, with the editor closed and nothing expanded |
| SessionHistoryComponent.SessionHistory.FetchSessions | src/components/SessionHistory.tsx:28-77 | on success the list is the selected sessions with durations and loads, and on error it is kept; loading ends either way |
| SessionHistoryComponent.SessionHistory.ToggleSessionExpanded | src/components/SessionHistory.tsx:79-89 | the copied set with the id toggled replaces the expanded set |
| SessionHistoryComponent.SessionHistory.HandleEditSession | src/components/SessionHistory.tsx:117-120 | the single editing slot holds that session, with the buffer set to its notes or `''` |
| SessionHistoryComponent.SessionHistory.SetEditNotes | src/components/SessionHistory.tsx:203 | the editor's text area sets the buffer |
| SessionHistoryComponent.SessionHistory.HandleSaveNotes | src/components/SessionHistory.tsx:122-142 | on success the buffer, or null, is stored, the local entry takes the buffer and the editor closes; on error the list and the slot are unchanged |
| SessionHistoryComponent.SessionHistory.HandleCancelEdit | src/components/SessionHistory.tsx:144-147 | the slot and the buffer are cleared and the list is not touched |
| WorkoutDetailModalComponent.WorkoutDetailModal.constructor | src/components/WorkoutDetailModal.tsx:25-29 | the view starts on the exercises tab with no session kept |
| WorkoutDetailModalComponent.WorkoutDetailModal.FetchExercises | src/components/WorkoutDetailModal.tsx:38-56 | with a workout the list is its exercises on success and kept on error, and loading ends; without a workout nothing happens |
| WorkoutDetailModalComponent.WorkoutDetailModal.OnPropsChange | src/components/WorkoutDetailModal.tsx:31-36 | when the workout or the open flag changed, opening with a workout fetches its exercises and resets the tab to exercises; the kept session id and start time are not touched |
| WorkoutDetailModalComponent.WorkoutDetailModal.SelectTab | src/components/WorkoutDetailModal.tsx:103-132 | a tab button sets that tab only; the kept session is preserved |
| WorkoutDetailModalComponent.WorkoutDetailModal.HandleSessionStart | src/components/WorkoutDetailModal.tsx:58-61 | a reported start is kept as the active session id and start time |
| WorkoutDetailModalComponent.WorkoutDetailModal.HandleSessionComplete | src/components/WorkoutDetailModal.tsx:63-67 | completion clears the id and the start time, hides the banner, and switches to the history tab |
| WorkoutDetailModalComponent.WorkoutDetailModal.ShowsBanner | src/components/WorkoutDetailModal.tsx:76 | the banner condition `activeSessionId && sessionStartTime`; its contract is View's |
| WorkoutDetailModalComponent.WorkoutDetailModal.View | src/components/WorkoutDetailModal.tsx:69-76 | nothing is rendered without a workout; otherwise the banner is shown exactly when a non-empty id and a start time are kept |
| WorkoutDetailModalComponent.StartSwitchAndReturn | src/components/WorkoutDetailModal.tsx:206-215 | a session started on the session tab survives a switch to another tab and back; the remounted controller restores its id and start time, and its clock reads as before |
| WorkoutDetailModalComponent.ReopenWithOther | src/components/WorkoutDetailModal.tsx:31-36 | closing one workout and opening another keeps the first workout's session and banner, and a controller for the second workout rebuilds that session as one of the second workout, with the second workout's exercises |
| WorkoutDetailModalComponent.KeptAcrossWorkouts | src/components/WorkoutDetailModal.tsx:31-36 | after that, a finish only appends loads; every load written is filed under the first session's id and is for one of the second workout's exercises, a typed exercise of that workout gets its row unless the insert fails, and with both writes successful the first session is closed |
| WorkoutDetailModalComponent.FinishAndClose | src/components/ActiveSession.tsx:271-273 | closing the summary of a finished session clears the kept session and shows the history; after a failed finish the view keeps the session |

## Left out

- The store client and the network are not modelled. Each request's outcome is a `fail` input, and the ids and timestamps the store assigns are inputs.
- The start-up check of the store's address and key is not modelled; it is configuration.
- Rendering, styling, `alert` and `console` are not modelled; only the state the handlers change is.
- The wiring of the effects that fetch when a session appears (src/components/ActiveSession.tsx:61-66) is not modelled; the fetches are methods that a caller invokes.
- The scheduling of the one-second interval and its clean-up are not modelled. Each firing is a call to `Tick` with the current time.
- Parsing of ISO timestamps is not modelled; timestamps are integer milliseconds.
- `formatDate` and `formatTime` of the history list (src/components/SessionHistory.tsx:91-115) are not modelled; they depend on the locale and the calendar.
- The insert row carries `NaN` for reps text without digits; JSON has no `NaN`, and how the client library encodes it in the request is not modelled.
- `Store.LoadsOfSession`: the loads queries (src/components/ActiveSession.tsx:113-116, src/components/SessionHistory.tsx:54-60) have no `.order`, so the store may return the rows in any order. The model returns them in table order, and with it decides which of two loads of one exercise `LastTimeMap` keeps; two such loads arise when a finish is retried after a failed close.
- Form keys are exercise UUIDs. JavaScript lists integer-like keys first, in numeric order, which the key order `loadOrder` does not model.
- `Text.ParseInt` is not exact for numerals beyond 2^53, where `parseInt` loses precision. It also treats only ASCII white space as space.
- The `Promise.all` fan-out of the history loads is treated as a sequential map. Which load queries fail is the input `failedLoads`.
- No crash between the two writes of a finish is modelled; each write either happens or fails.
- The exercise joined to each history load (`exercise:workout_exercises(*)`) is not modelled; history loads are plain load rows.
- Load rows carry no row id of their own, because the store assigns it and nothing here reads it.
- `ActiveSessionComponent.ActiveSession.UpdateExerciseLoad`: requires the exercise id to be a key of the form. The inputs are rendered only for fetched exercises, and these are exactly the keys. The source would create a partial entry for an unknown id.
- The controller's form, notes and hints are lost when the controller is unmounted by a tab switch; only the session id and start time are kept by the detail view, and the model reflects that (a remount starts from empty state).
- `src/pages/WorkoutVaultPage.tsx`, `src/components/WorkoutCard.tsx` and `src/components/ui/simple-dialog.tsx` are not part of this model. They hold a catalog fetch, selection setters and view markup.
- `capacitor.config.ts` is not part of this model; it is app-shell configuration.
- `src/lib/database.types.ts` gives the row shapes in `Rows` and has no behaviour.
