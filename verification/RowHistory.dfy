/** What a row stores after any number of setter calls, through the insert and through the update
    statement, and after a trip through JSON. */
module RowHistory {
  import opened Text
  import opened Wrappers
  import opened Schema
  import opened InsertStatement
  import opened JsonRows
  import opened RowCheck
  import opened Records

  /** One setter call; `None` is the call that sets a column to null. */
  datatype Edit = Edit(column: nat, value: Option<Cell>)

  predicate Within(edits: seq<Edit>, n: nat) {
    forall i :: 0 <= i < |edits| ==> edits[i].column < n
  }

  function Apply(row: Row, e: Edit): Row
    requires e.column < |row.dirty| == |row.cells|
  {
    Row(row.dirty[e.column := true], row.cells[e.column := e.value])
  }

  function Edited(row: Row, edits: seq<Edit>): (r: Row)
    requires |row.dirty| == |row.cells| && Within(edits, |row.dirty|)
    ensures |r.dirty| == |r.cells| == |row.dirty|
  {
    if edits == [] then row else Apply(Edited(row, edits[..|edits| - 1]), edits[|edits| - 1])
  }

  /** The last value given to column `i`, if it was given any. */
  function LastFor(edits: seq<Edit>, i: nat): Option<Option<Cell>> {
    if edits == [] then None
    else
      var last := edits[|edits| - 1];
      if last.column == i then Some(last.value) else LastFor(edits[..|edits| - 1], i)
  }

  lemma {:induction false} EditedHolds(row: Row, edits: seq<Edit>, i: nat)
    requires i < |row.dirty| == |row.cells| && Within(edits, |row.dirty|)
    ensures var r, last := Edited(row, edits), LastFor(edits, i);
            && r.dirty[i] == (row.dirty[i] || last.Some?)
            && r.cells[i] == if last.Some? then last.value else row.cells[i]
  {
    if edits != [] { EditedHolds(row, edits[..|edits| - 1], i); }
  }

  /** Does a row edited this way list a column? */
  predicate EditsList(t: Table, edits: seq<Edit>) {
    exists i :: 0 <= i < |t.columns| && (!t.columns[i].kind.Plain? || LastFor(edits, i).Some?)
  }

  /** Inserting a new row stores, in every column the caller may set, the last value it was given,
      and the default in every other column. The database takes it unless the table has only plain
      columns and none was set. */
  lemma InsertStoresEdits(t: Table, edits: seq<Edit>)
    requires DistinctNames(t.columns) && Within(edits, |t.columns|)
    ensures var stored := StoredRow(t, Edited(BlankRow(|t.columns|), edits));
            && (stored.Some? <==> EditsList(t, edits))
            && (stored.Some? ==>
                  forall i :: 0 <= i < |t.columns| ==>
                    AssignedTo(stored.value, t.columns[i].name) ==
                    if LastFor(edits, i).Some? && !t.columns[i].kind.Auto?
                    then Given(LastFor(edits, i).value) else ByDefault)
  {
    var row := Edited(BlankRow(|t.columns|), edits);
    hide Execute, Args, RowInsert;
    InsertMeaning(t, row.dirty, row.cells);
    forall i | 0 <= i < |t.columns|
      ensures row.dirty[i] == LastFor(edits, i).Some?
      ensures row.dirty[i] ==> row.cells[i] == LastFor(edits, i).value
    {
      EditedHolds(BlankRow(|t.columns|), edits, i);
    }
  }

  // ---------- the update ----------

  lemma {:induction false} BoundFronts(columns: seq<Column>, dirty: seq<bool>, i: nat, n: nat)
    requires i <= n <= |columns| == |dirty|
    ensures BoundNames(columns, dirty, i) <= BoundNames(columns, dirty, n)
    ensures |BoundNames(columns, dirty, n)| == BoundCount(columns, dirty, n)
    ensures |BoundNames(columns, dirty, i)| == BoundCount(columns, dirty, i)
  {
    if i < n {
      BoundFronts(columns, dirty, i, n - 1);
    } else if n > 0 {
      BoundFronts(columns, dirty, i - 1, n - 1);
    }
  }

  /** The columns of an update and the values bound to it have the same length, and each bound
      column stands where its own value does, which is also its placeholder in the insert. */
  lemma UpdateAlignment(t: Table, dirty: seq<bool>, cells: seq<Option<Cell>>, i: nat)
    requires i < |t.columns| == |dirty| == |cells| && Bound(t.columns[i], dirty[i])
    ensures var names, args := BoundNames(t.columns, dirty, |dirty|), Args(t.columns, dirty, cells, |dirty|);
            var ins, p := RowInsert(t, dirty), |Names(t.columns, dirty, i)|;
            var k := BoundCount(t.columns, dirty, i);
            && |names| == |args| && k < |args|
            && names[k] == t.columns[i].name && args[k] == cells[i]
            && p < |ins.columns| == |ins.values| && ins.columns[p] == names[k] && ins.values[p] == Placeholder(k + 1)
  {
    Alignment(t, dirty, cells, i);
    SameLength(t.columns, dirty, cells, |dirty|);
    BoundFronts(t.columns, dirty, i + 1, |dirty|);
    BoundFronts(t.columns, dirty, i, |dirty|);
  }

  predicate WritesAt(
      columns: seq<Column>, names: seq<string>, args: seq<Option<Cell>>, k: nat, i: nat, value: Option<Cell>)
    requires i < |columns|
  {
    k < |names| == |args| && names[k] == columns[i].name && args[k] == value
  }

  /** The column a position of the update belongs to. */
  lemma {:induction false} BoundColumn(columns: seq<Column>, dirty: seq<bool>, n: nat, k: nat) returns (i: nat)
    requires n <= |columns| == |dirty| && k < |BoundNames(columns, dirty, n)|
    ensures i < n && Bound(columns[i], dirty[i]) && BoundNames(columns, dirty, n)[k] == columns[i].name
  {
    if k < |BoundNames(columns, dirty, n - 1)| {
      i := BoundColumn(columns, dirty, n - 1, k);
    } else {
      i := n - 1;
    }
  }

  /** Updating a row read from the database writes the last value of every column that was set and
      may be set, and no other column. */
  lemma UpdateWritesEdits(t: Table, row: Row, edits: seq<Edit>, i: nat)
    requires Fits(row, t.columns) && DistinctNames(t.columns) && Within(edits, |t.columns|) && i < |t.columns|
    requires forall j :: 0 <= j < |row.dirty| ==> !row.dirty[j]
    ensures var r := Edited(row, edits);
            var names, args := BoundNames(t.columns, r.dirty, |r.dirty|), Args(t.columns, r.dirty, r.cells, |r.dirty|);
            if LastFor(edits, i).Some? && !t.columns[i].kind.Auto?
            then WritesAt(t.columns, names, args, BoundCount(t.columns, r.dirty, i), i, LastFor(edits, i).value)
            else t.columns[i].name !in names
  {
    var r := Edited(row, edits);
    EditedHolds(row, edits, i);
    if Bound(t.columns[i], r.dirty[i]) {
      UpdateAlignment(t, r.dirty, r.cells, i);
    } else {
      var names := BoundNames(t.columns, r.dirty, |r.dirty|);
      forall k | 0 <= k < |names| ensures names[k] != t.columns[i].name {
        var j := BoundColumn(t.columns, r.dirty, |r.dirty|, k);
      }
    }
  }

  // ---------- through JSON ----------

  /** Inserting a copy made through masqueraded JSON stores every cell of the original, in every
      column but an automatic key. */
  lemma CopyThroughJson(t: Table, cells: seq<Option<Cell>>, aliases: seq<string>, calendar: Calendar)
    requires DistinctNames(t.columns) && |aliases| == |t.columns|
    requires WellTyped(t.columns, cells) && AllDifferent(aliases)
    requires AllSurvive(cells, calendar)
    ensures var copy := RowFrom(t.columns, aliases, Visible(ObjectOf(cells, aliases, calendar, |cells|)), calendar);
            && copy.Some? && Fits(copy.value, t.columns)
            && var stored := StoredRow(t, copy.value);
            && (stored.Some? <==> t.columns != [])
            && (stored.Some? ==>
                  forall i :: 0 <= i < |t.columns| ==>
                    AssignedTo(stored.value, t.columns[i].name) ==
                    if t.columns[i].kind.Auto? then ByDefault else Given(cells[i]))
  {
    hide RowFrom, Execute, Args, RowInsert, ObjectOf, Visible;
    MasqueradedRoundTrip(t.columns, cells, aliases, calendar);
    var json := ObjectOf(cells, aliases, calendar, |cells|);
    assert Visible(json) == json;
    var copy := RowFrom(t.columns, aliases, json, calendar).value;
    InsertMeaning(t, copy.dirty, copy.cells);
    assert t.columns != [] ==> Listed(t.columns[0], copy.dirty[0]);
  }

  /** The object under the column names is the masqueraded object under them. */
  lemma {:induction false} WholeIsMasqueraded(
      cells: seq<Option<Cell>>, columns: seq<Column>, calendar: Calendar, n: nat)
    requires n <= |cells| == |columns| && forall i :: 0 <= i < |columns| ==> columns[i].name != ""
    ensures WholeObject(cells, columns, calendar, n) == ObjectOf(cells, ColumnNames(columns), calendar, n)
  {
    if n > 0 { WholeIsMasqueraded(cells, columns, calendar, n - 1); }
  }
}
