/**
 * The session history list of one workout: the ten most recent completed
 * sessions with their durations and recorded loads, an expand/collapse set,
 * and a single-slot notes editor.
 */
module SessionHistoryComponent {
  import opened Rows
  import opened Store

  /** A listed session: its row, its whole-minute duration, and the loads recorded in it. */
  datatype HistoryEntry = HistoryEntry(session: SessionRow, duration: Option<int>, loads: seq<LoadRow>)

  /** `Math.floor((ended - started) / 60000)`, with timestamps in milliseconds. */
  function DurationMinutes(startedAt: Timestamp, endedAt: Timestamp): (d: int)
    ensures d * 60000 <= endedAt - startedAt < d * 60000 + 60000
  {
    (endedAt - startedAt) / 60000
  }

  /** A session that did not end before it started lasts a non-negative number of minutes. */
  lemma {:induction false} DurationBounds(startedAt: Timestamp, endedAt: Timestamp)
    ensures endedAt >= startedAt ==> DurationMinutes(startedAt, endedAt) >= 0
  {
  }

  /** Forty-two and a half minutes are listed as 42 min. */
  lemma {:induction false} FortyTwoAndAHalfMinutes(startedAt: Timestamp)
    ensures DurationMinutes(startedAt, startedAt + 42 * 60000 + 30 * 1000) == 42
  {
  }

  /** A session has a duration exactly when it has ended. */
  function DurationOf(s: SessionRow): (d: Option<int>)
    ensures d.Some? <==> s.endedAt.Some?
    ensures d.Some? ==> d.value * 60000 <= s.endedAt.value - s.startedAt < d.value * 60000 + 60000
  {
    if s.endedAt.Some? then
      DurationBounds(s.startedAt, s.endedAt.value);
      Some(DurationMinutes(s.startedAt, s.endedAt.value))
    else None
  }

  /**
   * The listed entries for the selected rows: the row, its duration, and its
   * loads, except that the entries at the indices in `failedLoads` (whose
   * load query failed) get no loads.
   */
  function Entries(rows: seq<SessionRow>, loadTable: seq<LoadRow>, failedLoads: set<nat>): (r: seq<HistoryEntry>)
    ensures |r| == |rows|
  {
    seq(|rows|, i requires 0 <= i < |rows| =>
      HistoryEntry(rows[i], DurationOf(rows[i]),
        if i in failedLoads then [] else LoadsOfSession(loadTable, rows[i].id)))
  }

  /**
   * A failed load query for one session empties that session's loads and
   * changes nothing else: not the other entries, not the length or order.
   */
  lemma {:induction false} FailedLoadIsolated(rows: seq<SessionRow>, loadTable: seq<LoadRow>, failedLoads: set<nat>, k: nat)
    requires k < |rows|
    ensures var before := Entries(rows, loadTable, failedLoads);
      var after := Entries(rows, loadTable, failedLoads + {k});
      && |after| == |before|
      && after[k] == before[k].(loads := [])
      && (forall i :: 0 <= i < |before| && i != k ==> after[i] == before[i])
  {
  }

  /**
   * The list the history shows: the rows of the history query (completed
   * sessions of this workout only, newest first, at most `HistoryLimit`, none
   * more often than the table holds it), every one with a duration; an entry
   * whose load query succeeded lists exactly its session's loads, one whose
   * query failed lists none.
   */
  lemma {:induction false} HistoryShown(table: seq<SessionRow>, loadTable: seq<LoadRow>, workoutId: Id, failedLoads: set<nat>)
    ensures var rows := CompletedSessions(table, workoutId, HistoryLimit);
      var entries := Entries(rows, loadTable, failedLoads);
      && |entries| == |rows| <= HistoryLimit
      && multiset(rows) <= multiset(table)
      && (forall i :: 0 <= i < |entries| ==>
            && entries[i].session == rows[i]
            && entries[i].session in table
            && IsCompletedFor(entries[i].session, workoutId)
            && entries[i].duration.Some?
            && (forall l :: l in entries[i].loads ==> l in loadTable && l.sessionId == entries[i].session.id)
            && (i !in failedLoads ==> entries[i].loads == LoadsOfSession(loadTable, entries[i].session.id))
            && (i in failedLoads ==> entries[i].loads == []))
      && (forall i, j :: 0 <= i < j < |entries| ==> entries[i].session.startedAt >= entries[j].session.startedAt)
  {
    var rows := CompletedSessions(table, workoutId, HistoryLimit);
    CompletedSessionsSelects(table, workoutId, HistoryLimit);
    var entries := Entries(rows, loadTable, failedLoads);
    forall i | 0 <= i < |entries|
      ensures && entries[i].session == rows[i]
              && entries[i].session in table
              && IsCompletedFor(entries[i].session, workoutId)
              && entries[i].duration.Some?
              && (forall l :: l in entries[i].loads ==> l in loadTable && l.sessionId == entries[i].session.id)
              && (i !in failedLoads ==> entries[i].loads == LoadsOfSession(loadTable, entries[i].session.id))
              && (i in failedLoads ==> entries[i].loads == [])
    {
      EntryAt(rows, loadTable, failedLoads, i);
      assert rows[i] in rows;
    }
  }

  /** The entry at one index: that row, its duration, and its loads unless its load query failed. */
  lemma {:induction false} EntryAt(rows: seq<SessionRow>, loadTable: seq<LoadRow>, failedLoads: set<nat>, i: nat)
    requires i < |rows|
    ensures var e := Entries(rows, loadTable, failedLoads)[i];
      && e.session == rows[i]
      && e.duration == DurationOf(rows[i])
      && e.duration.Some? == rows[i].endedAt.Some?
      && e.loads == if i in failedLoads then [] else LoadsOfSession(loadTable, rows[i].id)
  {
  }

  /** `session.notes || ''`: the text the editor starts from. */
  function NotesOrEmpty(notes: Option<string>): (text: string)
    ensures notes.None? ==> text == ""
    ensures notes.Some? ==> text == notes.value
  {
    if notes.Some? then notes.value else ""
  }

  /** The note line a listed session shows (`session.notes && ...`): none for null or empty notes. */
  function ShownNotes(notes: Option<string>): (shown: Option<string>)
    ensures shown.Some? <==> notes.Some? && notes.value != ""
    ensures shown.Some? ==> shown.value == notes.value
  {
    if notes.Some? && notes.value != "" then notes else None
  }

  /**
   * After a save the local list holds the typed text while the store holds
   * it or null; either way the list shows the same note a reload would.
   */
  lemma {:induction false} SavedNotesShowAsStored(text: string)
    ensures ShownNotes(Some(text)) == ShownNotes(NullIfEmpty(text))
    ensures NotesOrEmpty(Some(text)) == NotesOrEmpty(NullIfEmpty(text))
  {
  }

  /** The local list after a save: that session's notes replaced, every entry kept in place. */
  function ReplaceNotes(entries: seq<HistoryEntry>, id: Id, text: string): (r: seq<HistoryEntry>)
    ensures |r| == |entries|
  {
    seq(|entries|, i requires 0 <= i < |entries| =>
      if entries[i].session.id == id then entries[i].(session := entries[i].session.(notes := Some(text)))
      else entries[i])
  }

  /**
   * Saving rewrites the notes of the entries with that id and nothing else
   * in them; all other entries, the length and the order are unchanged.
   */
  lemma {:induction false} ReplaceNotesFrame(entries: seq<HistoryEntry>, id: Id, text: string)
    ensures var r := ReplaceNotes(entries, id, text);
      && |r| == |entries|
      && (forall i :: 0 <= i < |entries| && entries[i].session.id != id ==> r[i] == entries[i])
      && (forall i :: 0 <= i < |entries| && entries[i].session.id == id ==>
            && r[i].session.notes == Some(text)
            && r[i].session.(notes := entries[i].session.notes) == entries[i].session
            && r[i].duration == entries[i].duration
            && r[i].loads == entries[i].loads)
  {
  }

  /** A set copied, then `delete(id)` if it has `id` and `add(id)` otherwise. */
  function Toggled(s: set<Id>, id: Id): (r: set<Id>)
    ensures id in r <==> id !in s
    ensures forall x :: x != id ==> (x in r <==> x in s)
  {
    if id in s then s - {id} else s + {id}
  }

  /** Toggling the same session twice restores the expanded set. */
  lemma {:induction false} ToggleTwice(s: set<Id>, id: Id)
    ensures Toggled(Toggled(s, id), id) == s
  {
  }

  class SessionHistory {
    const workoutId: Id
    var sessions: seq<HistoryEntry>
    var loading: bool
    /** The one session whose notes are being edited, if any. */
    var editingSessionId: Option<Id>
    var editNotes: string
    var expandedSessions: set<Id>

    constructor (workoutId: Id)
      ensures this.workoutId == workoutId
      ensures sessions == [] && loading
      ensures editingSessionId.None? && editNotes == "" && expandedSessions == {}
    {
      this.workoutId := workoutId;
      sessions := [];
      loading := true;
      editingSessionId := None;
      editNotes := "";
      expandedSessions := {};
    }

    /**
     * Load the list. When the session query fails the list stays as it
     * was; a failed load query only empties that session's loads.
     * Loading ends either way.
     */
    method FetchSessions(db: Db, fail: bool, failedLoads: set<nat>)
      modifies this`sessions, this`loading
      ensures !loading
      ensures sessions == if fail then old(sessions)
        else Entries(CompletedSessions(db.sessions, workoutId, HistoryLimit), db.loads, failedLoads)
    {
      if !fail {
        var rows := CompletedSessions(db.sessions, workoutId, HistoryLimit);
        sessions := Entries(rows, db.loads, failedLoads);
      }
      loading := false;
    }

    /** Show or hide one session's loads; no other session changes. */
    method ToggleSessionExpanded(sessionId: Id)
      modifies this`expandedSessions
      ensures expandedSessions == Toggled(old(expandedSessions), sessionId)
      ensures sessionId in expandedSessions <==> sessionId !in old(expandedSessions)
    {
      var newSet := expandedSessions;
      if sessionId in newSet {
        newSet := newSet - {sessionId};
      } else {
        newSet := newSet + {sessionId};
      }
      expandedSessions := newSet;
    }

    /** Open the editor on one session, replacing any other being edited. */
    method HandleEditSession(entry: HistoryEntry)
      modifies this`editingSessionId, this`editNotes
      ensures editingSessionId == Some(entry.session.id)
      ensures editNotes == NotesOrEmpty(entry.session.notes)
    {
      editingSessionId := Some(entry.session.id);
      editNotes := NotesOrEmpty(entry.session.notes);
    }

    /** The editor's text area changed. */
    method SetEditNotes(text: string)
      modifies this`editNotes
      ensures editNotes == text
    {
      editNotes := text;
    }

    /**
     * Store the edited notes (null when empty). On success the local entry
     * takes the typed text and the editor closes; on failure nothing
     * changes, the editor included. The buffer is kept either way.
     */
    method HandleSaveNotes(db: Db, sessionId: Id, fail: bool) returns (saved: bool)
      modifies db`sessions, this`sessions, this`editingSessionId
      ensures saved == !fail
      ensures db.sessions == if saved
        then UpdateWhereId(old(db.sessions), sessionId, SessionChange.SetNotes(NullIfEmpty(editNotes)))
        else old(db.sessions)
      ensures sessions == if saved then ReplaceNotes(old(sessions), sessionId, editNotes) else old(sessions)
      ensures editingSessionId == if saved then None else old(editingSessionId)
    {
      saved := db.UpdateSession(sessionId, SessionChange.SetNotes(NullIfEmpty(editNotes)), fail);
      if !saved {
        return;
      }
      sessions := ReplaceNotes(sessions, sessionId, editNotes);
      editingSessionId := None;
    }

    /** Close the editor and clear its buffer; the list is not touched. */
    method HandleCancelEdit()
      modifies this`editingSessionId, this`editNotes
      ensures editingSessionId.None? && editNotes == ""
    {
      editingSessionId := None;
      editNotes := "";
    }
  }
}
