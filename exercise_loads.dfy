/**
 * The active session's per-exercise form state (load used, reps done,
 * notes, all as typed text), the load rows built from it when the session
 * is finished, and the "last time" loads read back from a previous session.
 */
module ExerciseLoads {
  import opened Rows
  import opened Text

  /** The form entry of one exercise (ExerciseLoadData). */
  datatype LoadForm = LoadForm(exerciseId: Id, loadUsed: string, repsCompleted: string, notes: string)

  /** The three fields an input of the form edits. */
  datatype LoadField = LoadUsedField | RepsCompletedField | NotesField

  function EmptyForm(id: Id): LoadForm {
    LoadForm(id, "", "", "")
  }

  function GetField(f: LoadForm, field: LoadField): string {
    match field
    case LoadUsedField => f.loadUsed
    case RepsCompletedField => f.repsCompleted
    case NotesField => f.notes
  }

  /** `{ ...entry, [field]: value }`: that field becomes `value`, nothing else changes. */
  function SetField(f: LoadForm, field: LoadField, value: string): (g: LoadForm)
    ensures GetField(g, field) == value
    ensures forall other :: other != field ==> GetField(g, other) == GetField(f, other)
    ensures g.exerciseId == f.exerciseId
  {
    match field
    case LoadUsedField => f.(loadUsed := value)
    case RepsCompletedField => f.(repsCompleted := value)
    case NotesField => f.(notes := value)
  }

  function IdsOf(exercises: seq<ExerciseRow>): set<Id> {
    set e | e in exercises :: e.id
  }

  /** The form map right after the exercises were fetched: every id, all fields empty. */
  function InitialForms(exercises: seq<ExerciseRow>): (forms: map<Id, LoadForm>)
    ensures forms.Keys == IdsOf(exercises)
    ensures forall id :: id in forms ==> forms[id] == EmptyForm(id)
  {
    map id | id in IdsOf(exercises) :: EmptyForm(id)
  }

  /**
   * The order in which a JavaScript object filled by assignments in turn
   * lists its keys: first occurrences, in order.
   */
  function KeyOrder(exercises: seq<ExerciseRow>): seq<Id>
  {
    if exercises == [] then []
    else
      var order := KeyOrder(exercises[..|exercises| - 1]);
      var id := exercises[|exercises| - 1].id;
      if id in order then order else order + [id]
  }

  predicate Distinct(ids: seq<Id>) {
    forall i, j :: 0 <= i < j < |ids| ==> ids[i] != ids[j]
  }

  /** A form map together with its key order, each entry filed under its own exercise id. */
  predicate WellFormed(forms: map<Id, LoadForm>, order: seq<Id>) {
    && Distinct(order)
    && (forall id :: id in order ==> id in forms)
    && (forall id :: id in forms ==> id in order)
    && (forall id :: id in forms ==> forms[id].exerciseId == id)
  }

  lemma {:induction false} KeyOrderWellFormed(exercises: seq<ExerciseRow>)
    ensures WellFormed(InitialForms(exercises), KeyOrder(exercises))
  {
    if exercises != [] {
      var init := exercises[..|exercises| - 1];
      KeyOrderWellFormed(init);
      assert exercises == init + [exercises[|exercises| - 1]];
      assert IdsOf(exercises) == IdsOf(init) + {exercises[|exercises| - 1].id};
    }
  }

  /** One more assignment `initialLoads[e.id] = ...`: the entry is (re)set, a new key goes last. */
  lemma {:induction false} InitialFormsSnoc(exercises: seq<ExerciseRow>, e: ExerciseRow)
    ensures InitialForms(exercises + [e]) == InitialForms(exercises)[e.id := EmptyForm(e.id)]
    ensures KeyOrder(exercises + [e]) ==
      if e.id in InitialForms(exercises) then KeyOrder(exercises) else KeyOrder(exercises) + [e.id]
  {
    var all := exercises + [e];
    assert all[..|all| - 1] == exercises;
    assert IdsOf(all) == IdsOf(exercises) + {e.id};
    KeyOrderWellFormed(exercises);
  }

  /** The `forEach` that fills `initialLoads` after the exercises were fetched. */
  method InitialLoadsFor(exercises: seq<ExerciseRow>) returns (forms: map<Id, LoadForm>, order: seq<Id>)
    ensures forms == InitialForms(exercises) && order == KeyOrder(exercises)
    ensures WellFormed(forms, order)
  {
    forms, order := map[], [];
    for i := 0 to |exercises|
      invariant forms == InitialForms(exercises[..i])
      invariant order == KeyOrder(exercises[..i])
    {
      var id := exercises[i].id;
      assert exercises[..i + 1] == exercises[..i] + [exercises[i]];
      InitialFormsSnoc(exercises[..i], exercises[i]);
      if id !in forms {
        order := order + [id];
      }
      forms := forms[id := EmptyForm(id)];
    }
    assert exercises[..|exercises|] == exercises;
    KeyOrderWellFormed(exercises);
  }

  /** `Object.values(exerciseLoads)`: the entries in key order. */
  function FormsInOrder(forms: map<Id, LoadForm>, order: seq<Id>): (values: seq<LoadForm>)
    requires forall id :: id in order ==> id in forms
    ensures |values| == |order|
    ensures forall i :: 0 <= i < |order| ==> values[i] == forms[order[i]]
  {
    seq(|order|, i requires 0 <= i < |order| => forms[order[i]])
  }

  /** `load.loadUsed || load.repsCompleted || load.notes`: something was typed. */
  predicate HasInput(f: LoadForm) {
    f.loadUsed != "" || f.repsCompleted != "" || f.notes != ""
  }

  /** The insert row for one entry: empty text becomes null, reps go through `parseInt`. */
  function ToLoadRow(sessionId: Id, f: LoadForm): LoadRow {
    LoadRow(
      sessionId,
      f.exerciseId,
      NullIfEmpty(f.loadUsed),
      if f.repsCompleted == "" then None else Some(ParseInt(f.repsCompleted)),
      None,
      NullIfEmpty(f.notes))
  }

  lemma {:induction false} ToLoadRowFields(sessionId: Id, f: LoadForm)
    ensures var row := ToLoadRow(sessionId, f);
      && row.sessionId == sessionId && row.exerciseId == f.exerciseId
      && (row.loadUsed.None? <==> f.loadUsed == "")
      && (row.loadUsed.Some? ==> row.loadUsed.value == f.loadUsed)
      && (row.notes.None? <==> f.notes == "")
      && (row.notes.Some? ==> row.notes.value == f.notes)
      && (row.repsCompleted.None? <==> f.repsCompleted == "")
      && row.timeSeconds.None?
      && (forall n: nat :: f.repsCompleted == NatToString(n) ==> row.repsCompleted == Some(Finite(n)))
  {
    forall n: nat | f.repsCompleted == NatToString(n)
      ensures ToLoadRow(sessionId, f).repsCompleted == Some(Finite(n))
    {
      ParseIntOfNatToString(n);
    }
  }

  /** The filter and map of `saveExerciseLoads`: one row per entry with input, in order. */
  function LoadsToSave(sessionId: Id, forms: seq<LoadForm>): (rows: seq<LoadRow>)
    ensures |rows| <= |forms|
  {
    if forms == [] then []
    else
      var first := if HasInput(forms[0]) then [ToLoadRow(sessionId, forms[0])] else [];
      first + LoadsToSave(sessionId, forms[1..])
  }

  /**
   * Every saved row carries the session id and comes from an entry with
   * input; every entry with input gets its row; no input means no row at all.
   */
  lemma {:induction false} LoadsToSaveSelects(sessionId: Id, forms: seq<LoadForm>)
    ensures var rows := LoadsToSave(sessionId, forms);
      && (forall row :: row in rows ==>
            row.sessionId == sessionId
            && exists k :: 0 <= k < |forms| && HasInput(forms[k]) && row == ToLoadRow(sessionId, forms[k]))
      && (forall k :: 0 <= k < |forms| && HasInput(forms[k]) ==> ToLoadRow(sessionId, forms[k]) in rows)
      && (rows == [] <==> forall k :: 0 <= k < |forms| ==> !HasInput(forms[k]))
  {
    SavedRowsFromEntries(sessionId, forms);
    EntriesWithInputSaved(sessionId, forms);
    var rows := LoadsToSave(sessionId, forms);
    if rows != [] {
      assert rows[0] in rows;
    }
  }

  /** Every saved row is the row of some entry with input. */
  lemma {:induction false} SavedRowsFromEntries(sessionId: Id, forms: seq<LoadForm>)
    ensures forall row :: row in LoadsToSave(sessionId, forms) ==>
      row.sessionId == sessionId
      && exists k :: 0 <= k < |forms| && HasInput(forms[k]) && row == ToLoadRow(sessionId, forms[k])
  {
    if forms != [] {
      var tail := forms[1..];
      SavedRowsFromEntries(sessionId, tail);
      forall row | row in LoadsToSave(sessionId, tail)
        ensures exists k :: 0 <= k < |forms| && HasInput(forms[k]) && row == ToLoadRow(sessionId, forms[k])
      {
        var j :| 0 <= j < |tail| && HasInput(tail[j]) && row == ToLoadRow(sessionId, tail[j]);
        assert forms[j + 1] == tail[j];
      }
    }
  }

  /** Every entry with input has its row saved. */
  lemma {:induction false} EntriesWithInputSaved(sessionId: Id, forms: seq<LoadForm>)
    ensures forall k :: 0 <= k < |forms| && HasInput(forms[k]) ==> ToLoadRow(sessionId, forms[k]) in LoadsToSave(sessionId, forms)
  {
    if forms != [] {
      var tail := forms[1..];
      EntriesWithInputSaved(sessionId, tail);
      forall k | 1 <= k < |forms| && HasInput(forms[k]) ensures ToLoadRow(sessionId, forms[k]) in LoadsToSave(sessionId, tail) {
        assert tail[k - 1] == forms[k];
      }
    }
  }

  /** The exercise id of every saved row is that of one of the entries. */
  lemma {:induction false} SavedRowOrigin(sessionId: Id, forms: seq<LoadForm>, row: LoadRow)
    requires row in LoadsToSave(sessionId, forms)
    ensures exists k :: 0 <= k < |forms| && HasInput(forms[k]) && row.exerciseId == forms[k].exerciseId
  {
    LoadsToSaveSelects(sessionId, forms);
    var k :| 0 <= k < |forms| && HasInput(forms[k]) && row == ToLoadRow(sessionId, forms[k]);
  }

  /** No two rows are for the same exercise. */
  predicate DistinctExercises(rows: seq<LoadRow>)
  {
    forall i, j :: 0 <= i < j < |rows| ==> rows[i].exerciseId != rows[j].exerciseId
  }

  /** Entries for distinct exercises give rows for distinct exercises. */
  lemma {:induction false} LoadsToSaveDistinct(sessionId: Id, forms: seq<LoadForm>)
    requires forall i, j :: 0 <= i < j < |forms| ==> forms[i].exerciseId != forms[j].exerciseId
    ensures DistinctExercises(LoadsToSave(sessionId, forms))
  {
    if forms != [] {
      var tail := forms[1..];
      assert forall i, j :: 0 <= i < j < |tail| ==> tail[i].exerciseId != tail[j].exerciseId by {
        forall i, j | 0 <= i < j < |tail| ensures tail[i].exerciseId != tail[j].exerciseId {
          assert tail[i] == forms[i + 1] && tail[j] == forms[j + 1];
        }
      }
      LoadsToSaveDistinct(sessionId, tail);
      var rest := LoadsToSave(sessionId, tail);
      var first := if HasInput(forms[0]) then [ToLoadRow(sessionId, forms[0])] else [];
      var rows := LoadsToSave(sessionId, forms);
      assert rows == first + rest;
      forall i, j | 0 <= i < |first| && 0 <= j < |rest| ensures first[i].exerciseId != rest[j].exerciseId {
        SavedRowOrigin(sessionId, tail, rest[j]);
        var k :| 0 <= k < |tail| && HasInput(tail[k]) && rest[j].exerciseId == tail[k].exerciseId;
        assert tail[k] == forms[k + 1];
        assert first[i] == ToLoadRow(sessionId, forms[0]);
      }
      PrependDistinct(first, rest);
    }
  }

  /** At most one row in front of rows with distinct exercises, for another exercise, keeps them distinct. */
  lemma {:induction false} PrependDistinct(first: seq<LoadRow>, rest: seq<LoadRow>)
    requires |first| <= 1
    requires DistinctExercises(rest)
    requires forall i, j :: 0 <= i < |first| && 0 <= j < |rest| ==> first[i].exerciseId != rest[j].exerciseId
    ensures DistinctExercises(first + rest)
  {
    var rows := first + rest;
    var n := |first|;
    forall i, j | 0 <= i < j < |rows| ensures rows[i].exerciseId != rows[j].exerciseId {
      assert rows[j] == rest[j - n];
      if i >= n {
        assert rows[i] == rest[i - n];
      }
    }
  }

  /** A well-formed form lists as many entries as it has keys, with distinct exercise ids. */
  lemma {:induction false} FormsInOrderDistinct(forms: map<Id, LoadForm>, order: seq<Id>)
    requires WellFormed(forms, order)
    ensures var values := FormsInOrder(forms, order);
      && |values| == |forms|
      && forall i, j :: 0 <= i < j < |values| ==> values[i].exerciseId != values[j].exerciseId
  {
    var values := FormsInOrder(forms, order);
    assert |forms| == |order| by {
      DistinctCardinality(order);
      assert forms.Keys == set id | id in order;
    }
    forall i, j | 0 <= i < j < |values| ensures values[i].exerciseId != values[j].exerciseId {
      assert values[i].exerciseId == order[i] && values[j].exerciseId == order[j];
    }
  }

  /** An exercise has a saved row exactly when its entry has input. */
  lemma {:induction false} SavedExerciseAt(sessionId: Id, forms: map<Id, LoadForm>, order: seq<Id>, id: Id)
    requires WellFormed(forms, order)
    ensures var rows := LoadsToSave(sessionId, FormsInOrder(forms, order));
      (exists row :: row in rows && row.exerciseId == id) <==> id in forms && HasInput(forms[id])
  {
    if id in forms && HasInput(forms[id]) {
      SavedIfInput(sessionId, forms, order, id);
    }
    if exists row :: row in LoadsToSave(sessionId, FormsInOrder(forms, order)) && row.exerciseId == id {
      InputIfSaved(sessionId, forms, order, id);
    }
  }

  lemma {:induction false} SavedIfInput(sessionId: Id, forms: map<Id, LoadForm>, order: seq<Id>, id: Id)
    requires WellFormed(forms, order) && id in forms && HasInput(forms[id])
    ensures exists row :: row in LoadsToSave(sessionId, FormsInOrder(forms, order)) && row.exerciseId == id
  {
    var values := FormsInOrder(forms, order);
    LoadsToSaveSelects(sessionId, values);
    var k :| 0 <= k < |order| && order[k] == id;
    assert values[k] == forms[id];
    ToLoadRowFields(sessionId, values[k]);
    assert ToLoadRow(sessionId, values[k]) in LoadsToSave(sessionId, values);
  }

  /** Every row is filed under `sessionId` and is for one of `ids`. */
  predicate RowsUnder(rows: seq<LoadRow>, sessionId: Id, ids: set<Id>) {
    forall row :: row in rows ==> row.sessionId == sessionId && row.exerciseId in ids
  }

  /** Some row is for `exerciseId`. */
  predicate HasRowFor(rows: seq<LoadRow>, exerciseId: Id) {
    exists row :: row in rows && row.exerciseId == exerciseId
  }

  /** Every saved row carries the session id and the key of an entry of the form. */
  lemma {:induction false} SavedRowsOfKeys(sessionId: Id, forms: map<Id, LoadForm>, order: seq<Id>)
    requires WellFormed(forms, order)
    ensures RowsUnder(LoadsToSave(sessionId, FormsInOrder(forms, order)), sessionId, forms.Keys)
  {
    var values := FormsInOrder(forms, order);
    SavedRowsFromEntries(sessionId, values);
    forall row | row in LoadsToSave(sessionId, values)
      ensures row.exerciseId in forms
    {
      var k :| 0 <= k < |values| && HasInput(values[k]) && row == ToLoadRow(sessionId, values[k]);
      assert values[k] == forms[order[k]];
    }
  }

  lemma {:induction false} InputIfSaved(sessionId: Id, forms: map<Id, LoadForm>, order: seq<Id>, id: Id)
    requires WellFormed(forms, order)
    requires exists row :: row in LoadsToSave(sessionId, FormsInOrder(forms, order)) && row.exerciseId == id
    ensures id in forms && HasInput(forms[id])
  {
    var values := FormsInOrder(forms, order);
    var row :| row in LoadsToSave(sessionId, values) && row.exerciseId == id;
    SavedRowOrigin(sessionId, values, row);
    var k :| 0 <= k < |values| && HasInput(values[k]) && row.exerciseId == values[k].exerciseId;
    assert values[k] == forms[order[k]];
  }

  /**
   * For the form map of the active session: an exercise gets exactly one
   * load row if anything was typed for it, and none otherwise.
   */
  lemma {:induction false} SavedExercises(sessionId: Id, forms: map<Id, LoadForm>, order: seq<Id>)
    requires WellFormed(forms, order)
    ensures var rows := LoadsToSave(sessionId, FormsInOrder(forms, order));
      && |rows| <= |forms|
      && (forall i, j :: 0 <= i < j < |rows| ==> rows[i].exerciseId != rows[j].exerciseId)
      && (forall id :: (exists row :: row in rows && row.exerciseId == id) <==> id in forms && HasInput(forms[id]))
  {
    var values := FormsInOrder(forms, order);
    FormsInOrderDistinct(forms, order);
    LoadsToSaveDistinct(sessionId, values);
    forall id ensures (exists row :: row in LoadsToSave(sessionId, values) && row.exerciseId == id)
                      <==> id in forms && HasInput(forms[id]) {
      SavedExerciseAt(sessionId, forms, order, id);
    }
  }

  lemma {:induction false} DistinctCardinality(ids: seq<Id>)
    requires Distinct(ids)
    ensures |set id | id in ids| == |ids|
  {
    if ids != [] {
      var last := ids[|ids| - 1];
      var init := ids[..|ids| - 1];
      DistinctCardinality(init);
      assert ids == init + [last];
      assert (set id | id in ids) == (set id | id in init) + {last};
      assert last !in init;
    }
  }

  /** `if (load.load_used)`: a load was recorded (not null, not empty). */
  predicate HasLoad(l: LoadRow) {
    l.loadUsed.Some? && l.loadUsed.value != ""
  }

  /** The "last time" map filled by assignments in turn: a later row for the same exercise wins. */
  function LastTimeMap(loads: seq<LoadRow>): map<Id, string>
  {
    if loads == [] then map[]
    else
      var m := LastTimeMap(loads[..|loads| - 1]);
      var l := loads[|loads| - 1];
      if HasLoad(l) then m[l.exerciseId := l.loadUsed.value] else m
  }

  /** A row with a recorded load for `id`, and no later row for `id` records one. */
  predicate LastLoadAt(loads: seq<LoadRow>, id: Id, i: int) {
    && 0 <= i < |loads| && loads[i].exerciseId == id && HasLoad(loads[i])
    && forall j :: i < j < |loads| && loads[j].exerciseId == id ==> !HasLoad(loads[j])
  }

  lemma {:induction false} LastTimeMapAt(loads: seq<LoadRow>, id: Id)
    ensures var m := LastTimeMap(loads);
      && (id in m <==> exists i :: 0 <= i < |loads| && loads[i].exerciseId == id && HasLoad(loads[i]))
      && (id in m ==> exists i :: LastLoadAt(loads, id, i) && loads[i].loadUsed.value == m[id])
  {
    if loads != [] {
      var n := |loads| - 1;
      var init := loads[..n];
      LastTimeMapAt(init, id);
      var m0, m := LastTimeMap(init), LastTimeMap(loads);
      var last := loads[n];
      assert forall i :: 0 <= i < n ==> loads[i] == init[i];
      if HasLoad(last) && last.exerciseId == id {
        assert LastLoadAt(loads, id, n);
      } else {
        assert m == m0 || (id != last.exerciseId && m == m0[last.exerciseId := last.loadUsed.value]);
        if id in m0 {
          var i :| LastLoadAt(init, id, i) && init[i].loadUsed.value == m0[id];
          assert LastLoadAt(loads, id, i);
        }
        if exists i :: 0 <= i < |loads| && loads[i].exerciseId == id && HasLoad(loads[i]) {
          var i :| 0 <= i < |loads| && loads[i].exerciseId == id && HasLoad(loads[i]);
          assert init[i] == loads[i];
        }
      }
    }
  }

  /**
   * An exercise is in the map exactly when some row records a load for it,
   * and its value is the (non-empty) load of the last such row.
   */
  lemma {:induction false} LastTimeMapSelects(loads: seq<LoadRow>)
    ensures var m := LastTimeMap(loads);
      && (forall id :: id in m <==> exists i :: 0 <= i < |loads| && loads[i].exerciseId == id && HasLoad(loads[i]))
      && (forall id :: id in m ==> m[id] != "" && exists i :: LastLoadAt(loads, id, i) && loads[i].loadUsed.value == m[id])
  {
    forall id {
      LastTimeMapAt(loads, id);
    }
  }

  /** The `forEach` that fills `previousLoadsMap` from the previous session's loads. */
  method CollectPreviousLoads(loads: seq<LoadRow>) returns (m: map<Id, string>)
    ensures m == LastTimeMap(loads)
  {
    m := map[];
    for i := 0 to |loads|
      invariant m == LastTimeMap(loads[..i])
    {
      assert loads[..i + 1][..i] == loads[..i];
      var l := loads[i];
      if l.loadUsed.Some? && l.loadUsed.value != "" {
        m := m[l.exerciseId := l.loadUsed.value];
      }
    }
    assert loads[..|loads|] == loads;
  }
}
