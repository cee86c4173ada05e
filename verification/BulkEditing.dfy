/**
 * The unsaved-changes ledger of the bulk-editing recipe of the data grid.
 *
 * Edits and deletions are not applied to the server at once: the ledger
 * remembers, per row id, the pending row (`unsavedRows`) and the row as it was
 * before its first unsaved change (`rowsBeforeChange`). The user can discard
 * one row, discard everything, or save. Calls to the grid's
 * `apiRef.current.updateRows` are recorded, in order, in `updateRowsCalls`.
 */
module BulkEditing {
  import opened Wrappers
  import opened ObjectKeys

  /** Row ids, as object keys: strings that are not array indices. */
  type RowId = string

  /** A grid row: its id, its cell values and the optional `_action` marker. */
  datatype Row = Row(id: RowId, values: map<string, string>, action: Option<string>)

  /** `row._action === 'delete'`. */
  predicate IsPendingDelete(row: Row) {
    row.action == Some("delete")
  }

  /** `{ ...row, _action: 'delete' }`. */
  function MarkedForDelete(row: Row): (r: Row)
    ensures IsPendingDelete(r)
    ensures r.id == row.id && r.values == row.values
  {
    row.(action := Some("delete"))
  }

  /** `rows.filter((row) => row._action === 'delete')`. */
  function PendingDeletes(rows: seq<Row>): (r: seq<Row>)
    ensures |r| <= |rows|
    ensures forall x :: x in r <==> x in rows && IsPendingDelete(x)
  {
    if rows == [] then []
    else if IsPendingDelete(rows[0]) then [rows[0]] + PendingDeletes(rows[1..])
    else PendingDeletes(rows[1..])
  }

  /** The batch that saving submits is non-empty exactly when some pending row is a deletion. */
  lemma PendingDeletesNonEmpty(m: map<RowId, Row>, keys: seq<RowId>)
    requires forall id :: id in m <==> id in keys
    ensures |PendingDeletes(Values(m, keys))| > 0
        <==> exists id :: id in m && IsPendingDelete(m[id])
  {
    var rows := Values(m, keys);
    var deletes := PendingDeletes(rows);
    if |deletes| > 0 {
      var x := deletes[0];
      assert x in rows && IsPendingDelete(x);
      var i :| 0 <= i < |rows| && rows[i] == x;
      assert keys[i] in m && m[keys[i]] == x;
    }
    if exists id :: id in m && IsPendingDelete(m[id]) {
      var id :| id in m && IsPendingDelete(m[id]);
      var i :| 0 <= i < |keys| && keys[i] == id;
      assert rows[i] == m[id];
    }
  }

  /** Each row is stored under its own id. */
  predicate StoredUnderOwnId(rows: map<RowId, Row>)
  {
    forall id :: id in rows ==> rows[id].id == id
  }

  /** The ledger invariant, on the values of its fields. */
  ghost predicate LedgerInvariant(unsaved: map<RowId, Row>, before: map<RowId, Row>, keys: seq<RowId>, flag: bool)
  {
    && unsaved.Keys == before.Keys
    && OrderOf(keys, unsaved)
    && flag == (unsaved != map[])
    && StoredUnderOwnId(unsaved)
    && StoredUnderOwnId(before)
  }

  /** An edit or a delete of row `row.id`, whose snapshot is `snapshot`, keeps the invariant. */
  lemma ChangeKeepsInvariant(unsaved: map<RowId, Row>, before: map<RowId, Row>, keys: seq<RowId>, flag: bool, row: Row, snapshot: Row)
    requires LedgerInvariant(unsaved, before, keys, flag)
    requires row.id == snapshot.id
    ensures LedgerInvariant(unsaved[row.id := row], if row.id in before then before else before[row.id := snapshot],
                            Inserted(keys, row.id), true)
  {
    AssignKeepsOrder(unsaved, keys, row.id, row);
  }

  /** Discarding row `id` keeps the invariant; the flag says whether any key is left. */
  lemma DiscardKeepsInvariant(unsaved: map<RowId, Row>, before: map<RowId, Row>, keys: seq<RowId>, flag: bool, id: RowId)
    requires LedgerInvariant(unsaved, before, keys, flag)
    ensures LedgerInvariant(unsaved - {id}, before - {id}, Without(keys, id), unsaved - {id} != map[])
  {
    DeleteKeepsOrder(unsaved, keys, id);
  }

  class UnsavedChanges {
    /** Pending row per id: the edited row, or a copy marked `_action: 'delete'`. */
    var unsavedRows: map<RowId, Row>
    /** The row as it was before its first unsaved change, written once per id. */
    var rowsBeforeChange: map<RowId, Row>
    /**
     * The key order of both objects. They gain and lose the same ids at the
     * same moments, so they enumerate their keys in the same order: the order
     * in which the rows were first changed since they were last saved or discarded.
     */
    var keyOrder: seq<RowId>
    /** React state: enables the Save and "Discard all changes" buttons. */
    var hasUnsavedRows: bool
    /** React state: a save is in flight. */
    var isSaving: bool
    /** The batches passed to `apiRef.current.updateRows`, oldest first. */
    var updateRowsCalls: seq<seq<Row>>

    /** Both objects have the same ids in the same order, each row is stored under its own id, and the flag mirrors "something is pending". */
    ghost predicate Valid()
      reads this
    {
      LedgerInvariant(unsavedRows, rowsBeforeChange, keyOrder, hasUnsavedRows)
    }

    /** The initial `useState(false)` flags and the empty `unsavedChangesRef`. */
    constructor ()
      ensures Valid()
      ensures unsavedRows == map[] && rowsBeforeChange == map[] && keyOrder == []
      ensures !hasUnsavedRows && !isSaving && updateRowsCalls == []
    {
      unsavedRows, rowsBeforeChange, keyOrder := map[], map[], [];
      hasUnsavedRows, isSaving := false, false;
      updateRowsCalls := [];
    }

    /** The per-row "Discard changes" action is enabled only for a row with a pending entry. */
    predicate CanDiscardRow(id: RowId)
      reads this
    {
      id in unsavedRows
    }

    /** The Save button: disabled without pending changes, and a loading button while a save is in flight. */
    predicate CanSave()
      reads this
    {
      hasUnsavedRows && !isSaving
    }

    /** "Discard all changes" is enabled when something is pending and no save is in flight. */
    predicate CanDiscardAll()
      reads this
    {
      hasUnsavedRows && !isSaving
    }

    /** `getRowClassName`: the style class of a row. */
    function RowClassName(id: RowId): (r: string)
      reads this
      ensures r == "row--removed" <==> id in unsavedRows && IsPendingDelete(unsavedRows[id])
      ensures r == "row--edited" <==> id in unsavedRows && !IsPendingDelete(unsavedRows[id])
      ensures r == "" <==> id !in unsavedRows
    {
      if id in unsavedRows then
        if IsPendingDelete(unsavedRows[id]) then "row--removed" else "row--edited"
      else ""
    }

    /** The per-row "Discard changes" action; `enabled` is false when the action is disabled. */
    method DiscardRow(id: RowId) returns (enabled: bool)
      requires Valid()
      modifies this
      ensures Valid()
      ensures enabled == old(CanDiscardRow(id))
      ensures enabled ==> && unsavedRows == old(unsavedRows) - {id}
                          && rowsBeforeChange == old(rowsBeforeChange) - {id}
                          && keyOrder == Without(old(keyOrder), id)
                          && updateRowsCalls == old(updateRowsCalls) + [[old(rowsBeforeChange)[id]]]
      ensures !enabled ==> && unsavedRows == old(unsavedRows)
                           && rowsBeforeChange == old(rowsBeforeChange)
                           && keyOrder == old(keyOrder)
                           && updateRowsCalls == old(updateRowsCalls)
      ensures isSaving == old(isSaving)
      ensures RowClassName(id) == ""
    {
      enabled := id in unsavedRows;
      if enabled {
        updateRowsCalls := updateRowsCalls + [[rowsBeforeChange[id]]];
        DiscardKeepsInvariant(unsavedRows, rowsBeforeChange, keyOrder, hasUnsavedRows, id);
        rowsBeforeChange := rowsBeforeChange - {id};
        unsavedRows := unsavedRows - {id};
        keyOrder := Without(keyOrder, id);
        // `Object.keys(unsavedRows).length > 0`: some key is left
        hasUnsavedRows := unsavedRows != map[];
      }
    }

    /** The per-row "Delete" action on the displayed `row` with id `id`. */
    method DeleteRow(id: RowId, row: Row)
      requires Valid()
      requires row.id == id
      modifies this
      ensures Valid()
      ensures unsavedRows == old(unsavedRows)[id := MarkedForDelete(row)]
      ensures rowsBeforeChange == if id in old(rowsBeforeChange) then old(rowsBeforeChange)
                                  else old(rowsBeforeChange)[id := row]
      ensures keyOrder == Inserted(old(keyOrder), id)
      ensures hasUnsavedRows
      ensures updateRowsCalls == old(updateRowsCalls) + [[row]]
      ensures isSaving == old(isSaving)
      ensures RowClassName(id) == "row--removed"
    {
      ChangeKeepsInvariant(unsavedRows, rowsBeforeChange, keyOrder, hasUnsavedRows, MarkedForDelete(row), row);
      unsavedRows := unsavedRows[id := MarkedForDelete(row)];
      keyOrder := Inserted(keyOrder, id);
      if id !in rowsBeforeChange {
        rowsBeforeChange := rowsBeforeChange[id := row];
      }
      hasUnsavedRows := true;
      updateRowsCalls := updateRowsCalls + [[row]];
    }

    /** `processRowUpdate`: the grid commits an edit of `oldRow` into `newRow`. */
    method ProcessRowUpdate(newRow: Row, oldRow: Row) returns (r: Row)
      requires Valid()
      requires newRow.id == oldRow.id
      modifies this
      ensures Valid()
      ensures r == newRow
      ensures unsavedRows == old(unsavedRows)[newRow.id := newRow]
      ensures rowsBeforeChange == if newRow.id in old(rowsBeforeChange) then old(rowsBeforeChange)
                                  else old(rowsBeforeChange)[newRow.id := oldRow]
      ensures keyOrder == Inserted(old(keyOrder), newRow.id)
      ensures hasUnsavedRows
      ensures updateRowsCalls == old(updateRowsCalls) && isSaving == old(isSaving)
    {
      var rowId := newRow.id;
      ChangeKeepsInvariant(unsavedRows, rowsBeforeChange, keyOrder, hasUnsavedRows, newRow, oldRow);
      unsavedRows := unsavedRows[rowId := newRow];
      keyOrder := Inserted(keyOrder, rowId);
      if rowId !in rowsBeforeChange {
        rowsBeforeChange := rowsBeforeChange[rowId := oldRow];
      }
      hasUnsavedRows := true;
      r := newRow;
    }

    /** `discardChanges`: every snapshot goes back to the grid, in key order, and the ledger is emptied. */
    method DiscardAll()
      requires Valid()
      modifies this
      ensures Valid()
      ensures updateRowsCalls == old(updateRowsCalls) + [Values(old(rowsBeforeChange), old(keyOrder))]
      ensures unsavedRows == map[] && rowsBeforeChange == map[] && keyOrder == [] && !hasUnsavedRows
      ensures isSaving == old(isSaving)
    {
      hasUnsavedRows := false;
      updateRowsCalls := updateRowsCalls + [Values(rowsBeforeChange, keyOrder)];
      unsavedRows, rowsBeforeChange, keyOrder := map[], map[], [];
    }

    /** The part of `saveChanges` before the simulated server round trip. */
    method StartSave()
      requires Valid()
      modifies this`isSaving
      ensures Valid() && isSaving
    {
      isSaving := true;
    }

    /** The part of `saveChanges` after the round trip: only deletions go to the grid, then the ledger is emptied. */
    method FinishSave()
      requires Valid()
      modifies this
      ensures Valid()
      ensures !isSaving
      ensures (exists id :: id in old(unsavedRows) && IsPendingDelete(old(unsavedRows)[id]))
              ==> updateRowsCalls == old(updateRowsCalls) + [PendingDeletes(Values(old(unsavedRows), old(keyOrder)))]
      ensures !(exists id :: id in old(unsavedRows) && IsPendingDelete(old(unsavedRows)[id]))
              ==> updateRowsCalls == old(updateRowsCalls)
      ensures unsavedRows == map[] && rowsBeforeChange == map[] && keyOrder == [] && !hasUnsavedRows
    {
      isSaving := false;
      var rowsToDelete := PendingDeletes(Values(unsavedRows, keyOrder));
      PendingDeletesNonEmpty(unsavedRows, keyOrder);
      if |rowsToDelete| > 0 {
        updateRowsCalls := updateRowsCalls + [rowsToDelete];
      }
      hasUnsavedRows := false;
      unsavedRows, rowsBeforeChange, keyOrder := map[], map[], [];
    }

    /** `saveChanges` with the server round trip taken as one atomic step. */
    method SaveChanges()
      requires Valid()
      modifies this
      ensures Valid()
      ensures !isSaving
      ensures (exists id :: id in old(unsavedRows) && IsPendingDelete(old(unsavedRows)[id]))
              ==> updateRowsCalls == old(updateRowsCalls) + [PendingDeletes(Values(old(unsavedRows), old(keyOrder)))]
      ensures !(exists id :: id in old(unsavedRows) && IsPendingDelete(old(unsavedRows)[id]))
              ==> updateRowsCalls == old(updateRowsCalls)
      ensures unsavedRows == map[] && rowsBeforeChange == map[] && keyOrder == [] && !hasUnsavedRows
    {
      StartSave();
      FinishSave();
    }

    /** A click on the Save button: `saveChanges` runs exactly when the button is enabled. */
    method ClickSave() returns (enabled: bool)
      requires Valid()
      modifies this
      ensures Valid()
      ensures enabled == old(CanSave())
      ensures enabled ==> unsavedRows == map[] && rowsBeforeChange == map[] && keyOrder == [] && !hasUnsavedRows && !isSaving
      ensures enabled && (exists id :: id in old(unsavedRows) && IsPendingDelete(old(unsavedRows)[id]))
              ==> updateRowsCalls == old(updateRowsCalls) + [PendingDeletes(Values(old(unsavedRows), old(keyOrder)))]
      ensures !(enabled && exists id :: id in old(unsavedRows) && IsPendingDelete(old(unsavedRows)[id]))
              ==> updateRowsCalls == old(updateRowsCalls)
      ensures !enabled ==> unsavedRows == old(unsavedRows) && rowsBeforeChange == old(rowsBeforeChange)
                           && keyOrder == old(keyOrder) && isSaving == old(isSaving)
    {
      enabled := CanSave();
      if enabled {
        SaveChanges();
      }
    }

    /** A click on "Discard all changes": `discardChanges` runs exactly when the button is enabled. */
    method ClickDiscardAll() returns (enabled: bool)
      requires Valid()
      modifies this
      ensures Valid()
      ensures enabled == old(CanDiscardAll())
      ensures enabled ==> && updateRowsCalls == old(updateRowsCalls) + [Values(old(rowsBeforeChange), old(keyOrder))]
                          && unsavedRows == map[] && rowsBeforeChange == map[] && keyOrder == [] && !hasUnsavedRows
      ensures !enabled ==> && unsavedRows == old(unsavedRows) && rowsBeforeChange == old(rowsBeforeChange)
                           && keyOrder == old(keyOrder) && updateRowsCalls == old(updateRowsCalls)
      ensures isSaving == old(isSaving)
    {
      enabled := CanDiscardAll();
      if enabled {
        DiscardAll();
      }
    }
  }

  /** Over the ledger's key order, `Object.values` of either object lists each of its rows once. */
  lemma LedgerValuesListEachOnce(ledger: UnsavedChanges)
    requires ledger.Valid()
    ensures |Values(ledger.rowsBeforeChange, ledger.keyOrder)| == |ledger.rowsBeforeChange.Keys|
    ensures forall id :: id in ledger.rowsBeforeChange ==>
      ledger.rowsBeforeChange[id] in Values(ledger.rowsBeforeChange, ledger.keyOrder)
    ensures |Values(ledger.unsavedRows, ledger.keyOrder)| == |ledger.unsavedRows.Keys|
    ensures forall id :: id in ledger.unsavedRows ==>
      ledger.unsavedRows[id] in Values(ledger.unsavedRows, ledger.keyOrder)
  {
    ValuesListEachOnce(ledger.unsavedRows, ledger.keyOrder);
    ValuesListEachOnce(ledger.rowsBeforeChange, ledger.keyOrder);
  }

  /**
   * Two edits of a row followed by a per-row discard hand the grid the row as
   * it was before the FIRST edit: the snapshot is never overwritten.
   */
  method DiscardAfterTwoEdits(original: Row, first: Row, second: Row) returns (submitted: seq<seq<Row>>)
    requires first.id == original.id && second.id == original.id
    ensures submitted == [[original]]
  {
    var ledger := new UnsavedChanges();
    var _ := ledger.ProcessRowUpdate(first, original);
    var _ := ledger.ProcessRowUpdate(second, first);
    var enabled := ledger.DiscardRow(original.id);
    assert enabled;
    submitted := ledger.updateRowsCalls;
  }

  /** The ledger after edits of row a, then row b, then row a again: a keeps the first place. */
  method EditTwoRowsThenFirstAgain(a0: Row, a1: Row, a2: Row, b0: Row, b1: Row) returns (ledger: UnsavedChanges)
    requires a1.id == a0.id && a2.id == a0.id && b1.id == b0.id && a0.id != b0.id
    ensures fresh(ledger) && ledger.Valid()
    ensures ledger.keyOrder == [a0.id, b0.id]
    ensures ledger.rowsBeforeChange == map[a0.id := a0, b0.id := b0]
    ensures ledger.hasUnsavedRows && !ledger.isSaving && ledger.updateRowsCalls == []
  {
    ledger := new UnsavedChanges();
    var _ := ledger.ProcessRowUpdate(a1, a0);
    assert ledger.keyOrder == [a0.id] && ledger.rowsBeforeChange == map[a0.id := a0];
    var _ := ledger.ProcessRowUpdate(b1, b0);
    assert b0.id !in [a0.id];
    assert ledger.keyOrder == [a0.id, b0.id] && ledger.rowsBeforeChange == map[a0.id := a0, b0.id := b0];
    var _ := ledger.ProcessRowUpdate(a2, a1);
  }

  /**
   * Edit row a, then row b, then row a again, and discard everything: the grid
   * gets both rows as they were before their first edit, a first, because the
   * key of a keeps the place it got at the first edit.
   */
  method DiscardAllInFirstEditOrder(a0: Row, a1: Row, a2: Row, b0: Row, b1: Row) returns (submitted: seq<seq<Row>>)
    requires a1.id == a0.id && a2.id == a0.id && b1.id == b0.id && a0.id != b0.id
    ensures submitted == [[a0, b0]]
  {
    var ledger := EditTwoRowsThenFirstAgain(a0, a1, a2, b0, b1);
    var enabled := ledger.ClickDiscardAll();
    assert enabled;
    submitted := ledger.updateRowsCalls;
    assert Values(map[a0.id := a0, b0.id := b0], [a0.id, b0.id]) == [a0, b0];
  }

  /** The ledger after an edit of a row and then a delete of the edited row. */
  method EditThenDelete(original: Row, edited: Row) returns (ledger: UnsavedChanges)
    requires edited.id == original.id
    ensures fresh(ledger) && ledger.Valid()
    ensures ledger.unsavedRows == map[edited.id := MarkedForDelete(edited)] && ledger.keyOrder == [edited.id]
    ensures ledger.hasUnsavedRows && !ledger.isSaving && ledger.updateRowsCalls == [[edited]]
  {
    ledger := new UnsavedChanges();
    var _ := ledger.ProcessRowUpdate(edited, original);
    ledger.DeleteRow(edited.id, edited);
  }

  /**
   * Editing a row, deleting it and saving: the delete re-renders the edited
   * row, and saving submits it once more, marked for deletion.
   */
  method SaveAfterEditAndDelete(original: Row, edited: Row) returns (submitted: seq<seq<Row>>)
    requires edited.id == original.id
    ensures submitted == [[edited], [MarkedForDelete(edited)]]
  {
    var ledger := EditThenDelete(original, edited);
    var marked := MarkedForDelete(edited);
    assert Values(ledger.unsavedRows, ledger.keyOrder) == [marked];
    assert PendingDeletes([marked]) == [marked];
    assert edited.id in ledger.unsavedRows && IsPendingDelete(ledger.unsavedRows[edited.id]);
    var enabled := ledger.ClickSave();
    assert enabled;
    submitted := ledger.updateRowsCalls;
  }
}
