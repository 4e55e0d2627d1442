/** The check a JSON object passes before a row is inserted from it, and what it is worth. */
module RowCheck {
  import opened Text
  import opened Wrappers
  import opened Schema
  import opened InsertStatement
  import opened JsonRows

  predicate IsType(value: Json, t: Type) {
    match t
    case TextType => value.String?
    case TimestampType => value.String?
    case BoolType => value.Boolean?
    case Int64Type => value.Integer? && IsInt64(value.number)
  }

  /** `strlen` counts up to the first NUL. */
  function StringLength(text: string): nat { Find(text, {'\0'}, 0) }

  function CannotBeNull(name: string): string { "The " + name + " column cannot be null" }

  /** The complaint about a value given for column `c`, if any. */
  function FieldError(c: Column, name: string, value: Json, isForCreation: bool): Option<string> {
    if value.Null? then (if c.notNull then Some(CannotBeNull(name)) else None)
    else if c.kind.Auto? && isForCreation then Some("The automatic primary key cannot be set")
    else if !IsType(value, c.type_) then Some("Type error in the " + name + " field")
    else if c.limit > 0 && c.type_.TextType? && StringLength(value.text) > c.limit then
      Some("String length exceeds limit for the " + name + " field (the maximum value is " + Decimal(c.limit) + ")")
    else None
  }

  predicate Required(c: Column) { c.notNull && c.kind.Plain? }

  function CreationError(c: Column, json: Object): Option<string> {
    if c.name in json then FieldError(c, c.name, json[c.name], true)
    else if Required(c) then Some(CannotBeNull(c.name))
    else None
  }

  predicate Accepted(t: Table, json: Object) {
    forall i :: 0 <= i < |t.columns| ==> CreationError(t.columns[i], json).None?
  }

  /** The complaint is about the first column that has one. */
  method ValidateJsonForCreation(t: Table, json: Object, err: string) returns (ok: bool, err': string)
    ensures ok <==> Accepted(t, json)
    ensures ok ==> err' == err
    ensures !ok ==> exists i :: 0 <= i < |t.columns| && CreationError(t.columns[i], json) == Some(err')
                                && forall j :: 0 <= j < i ==> CreationError(t.columns[j], json).None?
  {
    for i := 0 to |t.columns|
      invariant forall j :: 0 <= j < i ==> CreationError(t.columns[j], json).None?
    {
      var c := t.columns[i];
      if c.name in json {
        var error := FieldError(c, c.name, json[c.name], true);
        if error.Some? {
          return false, error.value;
        }
      } else if Required(c) {
        return false, CannotBeNull(c.name);
      }
    }
    return true, err;
  }

  /** Reading a field that passed the check does not throw; what it gives has the column's type and
      respects its length, and is missing only for a null or a timestamp the calendar cannot read. */
  lemma FieldIsSound(c: Column, value: Json, calendar: Calendar)
    requires FieldError(c, c.name, value, true).None?
    ensures var field := FieldOf(value, c.type_, calendar);
            && field.Converts?
            && (field.cell.None? <==>
                  value.Null? || (c.type_.TimestampType? && ReadMicros(value.text, calendar).None?))
            && (field.cell.Some? ==> HasType(field.cell.value, c.type_))
            && (field.cell.Some? && field.cell.value.TextCell? && c.limit > 0 ==>
                  StringLength(field.cell.value.text) <= c.limit)
            && (value.Null? ==> !c.notNull)
  {
  }

  /** Timestamp texts the calendar cannot read, under columns that may not be null. */
  predicate Unreadable(c: Column, json: Object, calendar: Calendar) {
    && c.notNull && c.type_.TimestampType? && c.name in json && json[c.name].String?
    && ReadMicros(json[c.name].text, calendar).None?
  }

  lemma AcceptedField(t: Table, json: Object, calendar: Calendar, row: Row, i: nat)
    requires Accepted(t, json) && i < |t.columns|
    ensures !ThrowsAt(t.columns, ColumnNames(t.columns), json, calendar, i)
    ensures ReadFrom(row, t.columns, ColumnNames(t.columns), json, calendar) ==>
              var c, cell := t.columns[i], row.cells[i];
              && (row.dirty[i] <==> c.name in json)
              && (Required(c) ==> row.dirty[i])
              && (c.kind.Auto? && c.notNull ==> !row.dirty[i])
              && (cell.Some? ==> HasType(cell.value, c.type_))
              && (c.notNull && row.dirty[i] ==> (cell == None <==> Unreadable(c, json, calendar)))
              && (Unreadable(c, json, calendar) ==> row.dirty[i])
  {
    var c := t.columns[i];
    assert CreationError(c, json).None?;
    if c.name in json {
      FieldIsSound(c, json[c.name], calendar);
    }
    if ReadFrom(row, t.columns, ColumnNames(t.columns), json, calendar) {
      assert ReadsAt(row, t.columns, ColumnNames(t.columns), json, calendar, i);
    }
  }

  /** The row the database stores for an accepted object. */
  function StoredRow(t: Table, row: Row): Option<map<string, Assigned>>
    requires Fits(row, t.columns)
  {
    Execute(RowInsert(t, row.dirty), Args(t.columns, row.dirty, row.cells, |row.dirty|))
  }

  lemma AcceptedNeverThrows(t: Table, json: Object, calendar: Calendar)
    requires Accepted(t, json)
    ensures RowFrom(t.columns, ColumnNames(t.columns), json, calendar).Some?
  {
    forall i | 0 <= i < |t.columns| ensures !ThrowsAt(t.columns, ColumnNames(t.columns), json, calendar, i) {
      AcceptedField(t, json, calendar, Row([], []), i);
    }
  }

  /** A required column is given its cell, and a column that may not be null is given null only
      where its timestamp cannot be read. */
  predicate GivenAsChecked(
    c: Column, json: Object, calendar: Calendar, stored: map<string, Assigned>, cell: Option<Cell>)
  {
    && (Required(c) ==> c.name in stored && stored[c.name] == Given(cell))
    && (c.notNull ==>
          (AssignedTo(stored, c.name) == Given(None) <==> Unreadable(c, json, calendar) && !c.kind.Auto?))
  }

  /** Does the insert of an accepted object list a column? */
  predicate GivesColumn(t: Table, json: Object) {
    exists i :: 0 <= i < |t.columns| && (!t.columns[i].kind.Plain? || t.columns[i].name in json)
  }

  /** An accepted object always makes a row: it throws nowhere and its cells are well typed. Its
      insert is executed unless the table has only plain columns and the object gives none; every
      required column is then given an explicit value, and a column that may not be null is given
      null only under a timestamp text the calendar cannot read. */
  lemma AcceptedRow(t: Table, json: Object, calendar: Calendar)
    requires Accepted(t, json) && DistinctNames(t.columns)
    ensures var built := RowFrom(t.columns, ColumnNames(t.columns), json, calendar);
            && built.Some? && Fits(built.value, t.columns) && WellTyped(t.columns, built.value.cells)
            && var stored := StoredRow(t, built.value);
            && (stored.Some? <==> GivesColumn(t, json))
            && (stored.Some? ==>
                  forall i :: 0 <= i < |t.columns| ==>
                    GivenAsChecked(t.columns[i], json, calendar, stored.value, built.value.cells[i]))
  {
    hide Execute, Args, RowInsert, RowFrom;
    AcceptedNeverThrows(t, json, calendar);
    var row := RowFrom(t.columns, ColumnNames(t.columns), json, calendar).value;
    RowFromIff(t.columns, ColumnNames(t.columns), json, calendar, row);
    InsertMeaning(t, row.dirty, row.cells);
    forall i | 0 <= i < |t.columns|
      ensures Required(t.columns[i]) ==> row.dirty[i]
      ensures row.dirty[i] <==> t.columns[i].name in json
      ensures row.cells[i].Some? ==> HasType(row.cells[i].value, t.columns[i].type_)
      ensures t.columns[i].notNull && row.dirty[i] ==>
                (row.cells[i] == None <==> Unreadable(t.columns[i], json, calendar))
      ensures Unreadable(t.columns[i], json, calendar) ==> row.dirty[i]
    {
      AcceptedField(t, json, calendar, row, i);
    }
  }

  predicate LosesTime(c: Column, json: Object, calendar: Calendar) {
    !c.kind.Auto? && Unreadable(c, json, calendar)
  }

  predicate IsGivenNull(t: Table, stored: map<string, Assigned>, i: nat)
    requires i < |t.columns|
  {
    t.columns[i].notNull && AssignedTo(stored, t.columns[i].name) == Given(None)
  }

  /** No column that may not be null is given null exactly when every timestamp among them can be
      read; so never for a column of another type. */
  lemma NoNullIff(t: Table, json: Object, calendar: Calendar)
    requires Accepted(t, json) && DistinctNames(t.columns)
    ensures var built := RowFrom(t.columns, ColumnNames(t.columns), json, calendar);
            && built.Some? && Fits(built.value, t.columns)
            && var stored := StoredRow(t, built.value);
            && (stored.Some? <==> GivesColumn(t, json))
            && ((stored.Some? && exists i :: 0 <= i < |t.columns| && IsGivenNull(t, stored.value, i))
                <==> exists i :: 0 <= i < |t.columns| && LosesTime(t.columns[i], json, calendar))
  {
    AcceptedRow(t, json, calendar);
    hide StoredRow, AssignedTo, RowFrom, Fits, WellTyped;
    var built := RowFrom(t.columns, ColumnNames(t.columns), json, calendar).value;
    if StoredRow(t, built).Some? {
      var stored := StoredRow(t, built).value;
      forall i | 0 <= i < |t.columns|
        ensures IsGivenNull(t, stored, i) <==> LosesTime(t.columns[i], json, calendar)
      {
        assert GivenAsChecked(t.columns[i], json, calendar, stored, built.cells[i]);
      }
    }
  }

  // ---------- exactly what is accepted ----------

  /** A text fits if what stands before its first NUL does. */
  predicate WithinLimit(cell: Cell, limit: nat) {
    cell.TextCell? && limit > 0 ==> |Before(cell.text, {'\0'})| <= limit
  }

  /** What is written for some cell of the column; for a timestamp, any text. */
  ghost predicate WrittenFor(value: Json, c: Column, calendar: Calendar) {
    if c.type_.TimestampType? then value.String?
    else exists cell :: HasType(cell, c.type_) && WithinLimit(cell, c.limit) && value == JsonOf(Some(cell), calendar)
  }

  ghost predicate EntryAllowed(c: Column, json: Object, calendar: Calendar) {
    if c.name !in json then !(c.notNull && c.kind.Plain?)
    else if json[c.name] == Null then !c.notNull
    else !c.kind.Auto? && WrittenFor(json[c.name], c, calendar)
  }

  lemma LengthBeforeNul(text: string)
    ensures StringLength(text) == |Before(text, {'\0'})|
  {
    FindIsFirst(text, {'\0'}, 0, StringLength(text));
    assert text[0..] == text;
    CutAtCursor(text, {'\0'}, 0, StringLength(text));
  }

  lemma EntryAllowedIff(c: Column, json: Object, calendar: Calendar)
    ensures CreationError(c, json).None? <==> EntryAllowed(c, json, calendar)
  {
    if c.name in json && json[c.name] != Null && !c.kind.Auto? {
      var value := json[c.name];
      match value {
        case String(text) =>
          LengthBeforeNul(text);
          assert c.type_.TextType? && WithinLimit(TextCell(text), c.limit) ==> WrittenFor(value, c, calendar);
        case Boolean(flag) =>
          assert c.type_.BoolType? ==>
                   HasType(BoolCell(flag), c.type_) && value == JsonOf(Some(BoolCell(flag)), calendar);
        case Integer(n) =>
          assert c.type_.Int64Type? && IsInt64(n) ==>
                   HasType(IntCell(n), c.type_) && value == JsonOf(Some(IntCell(n)), calendar);
        case _ =>
      }
    }
  }

  /** Exactly which objects are accepted: every required column is there, a null stands only where it
      may, an automatic key is not given, and everything else is what is written for some cell. */
  lemma AcceptedIff(t: Table, json: Object, calendar: Calendar)
    ensures Accepted(t, json) <==> forall i :: 0 <= i < |t.columns| ==> EntryAllowed(t.columns[i], json, calendar)
  {
    forall i | 0 <= i < |t.columns|
      ensures CreationError(t.columns[i], json).None? <==> EntryAllowed(t.columns[i], json, calendar)
    {
      EntryAllowedIff(t.columns[i], json, calendar);
    }
  }

  /** Every cell that may not be null is set, and every text is within its limit. */
  predicate Complete(columns: seq<Column>, cells: seq<Option<Cell>>) {
    |columns| == |cells|
    && forall i :: 0 <= i < |columns| ==>
         if cells[i].None? then !columns[i].notNull else WithinLimit(cells[i].value, columns[i].limit)
  }

  /** What a complete row of a table without automatic key is written as is accepted. */
  lemma WrittenIsAccepted(t: Table, cells: seq<Option<Cell>>, calendar: Calendar)
    requires DistinctNames(t.columns) && forall i :: 0 <= i < |t.columns| ==> !t.columns[i].kind.Auto?
    requires WellTyped(t.columns, cells) && Complete(t.columns, cells)
    ensures Accepted(t, WholeObject(cells, t.columns, calendar, |cells|))
  {
    var json := WholeObject(cells, t.columns, calendar, |cells|);
    WholeHolds(cells, t.columns, calendar, |cells|);
    AcceptedIff(t, json, calendar);
    forall i | 0 <= i < |t.columns| ensures EntryAllowed(t.columns[i], json, calendar) {
      if cells[i].Some? {
        assert HasType(cells[i].value, t.columns[i].type_) && WithinLimit(cells[i].value, t.columns[i].limit);
      }
    }
  }
}
