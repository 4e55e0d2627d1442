/** Rows from and to JSON objects, and the check a JSON object passes before a row is made of it. */
module JsonRows {
  import opened Text
  import opened Wrappers
  import opened Schema
  import opened InsertStatement
  import Timestamp

  /** `Compound` is an array or an object. */
  datatype Json =
    | Null
    | Boolean(flag: bool)
    | Integer(number: int)
    | String(text: string)
    | Compound

  type Object = map<string, Json>

  /** The calendar functions: `read` gives the whole seconds of a text and what was left unread. */
  datatype Calendar = Calendar(read: string -> Option<(int, string)>, write: int -> string)

  function ReadMicros(text: string, calendar: Calendar): Option<int> {
    var read := calendar.read(text);
    if read.None? then None else Some(Timestamp.Reading(read.value.0, read.value.1))
  }

  // ---------- one field ----------

  /** A conversion may throw; a timestamp text the calendar does not read leaves the cell unset. */
  datatype Conversion = Throws | Converts(cell: Option<Cell>)

  function AsString(value: Json): Option<string>
    requires !value.Null?
  {
    match value
    case Boolean(flag) => Some(if flag then "true" else "false")
    case Integer(n) => Some(if n < 0 then "-" + Decimal(-n) else Decimal(n))
    case String(text) => Some(text)
    case Compound => None
  }

  function Convert(value: Json, t: Type, calendar: Calendar): Conversion
    requires !value.Null?
  {
    match t
    case TextType =>
      var text := AsString(value);
      if text.None? then Throws else Converts(Some(TextCell(text.value)))
    case BoolType =>
      (match value
       case Boolean(flag) => Converts(Some(BoolCell(flag)))
       case Integer(n) => Converts(Some(BoolCell(n != 0)))
       case _ => Throws)
    case Int64Type =>
      (match value
       case Boolean(flag) => Converts(Some(IntCell(if flag then 1 else 0)))
       case Integer(n) => if IsInt64(n) then Converts(Some(IntCell(n))) else Throws
       case _ => Throws)
    case TimestampType =>
      var text := AsString(value);
      if text.None? then Throws
      else
        var micros := ReadMicros(text.value, calendar);
        Converts(if micros.None? then None else Some(TimestampCell(micros.value)))
  }

  /** A null marks the column and sets nothing. */
  function FieldOf(value: Json, t: Type, calendar: Calendar): Conversion {
    if value.Null? then Converts(None) else Convert(value, t, calendar)
  }

  function JsonOf(cell: Option<Cell>, calendar: Calendar): Json {
    match cell
    case None => Null
    case Some(TextCell(text)) => String(text)
    case Some(BoolCell(flag)) => Boolean(flag)
    case Some(IntCell(n)) => Integer(n)
    case Some(TimestampCell(micros)) => String(calendar.write(micros))
  }

  /** What each type makes of each kind of value: text is kept, truth values and integers are turned
      into one another and into text, and nothing else is. */
  lemma Conversions(calendar: Calendar, flag: bool, n: int, text: string)
    ensures Convert(String(text), TextType, calendar) == Converts(Some(TextCell(text)))
    ensures Convert(Boolean(true), TextType, calendar) == Converts(Some(TextCell("true")))
    ensures Convert(Boolean(false), TextType, calendar) == Converts(Some(TextCell("false")))
    ensures n >= 0 ==> Convert(Integer(n), TextType, calendar) == Converts(Some(TextCell(Decimal(n))))
    ensures n > 0 ==> Convert(Integer(-n), TextType, calendar) == Converts(Some(TextCell("-" + Decimal(n))))
    ensures Convert(Boolean(flag), BoolType, calendar) == Converts(Some(BoolCell(flag)))
    ensures Convert(Integer(n), BoolType, calendar) == Converts(Some(BoolCell(n != 0)))
    ensures Convert(Integer(n), Int64Type, calendar) ==
            if -9223372036854775808 <= n <= 9223372036854775807 then Converts(Some(IntCell(n))) else Throws
    ensures Convert(Boolean(true), Int64Type, calendar) == Converts(Some(IntCell(1)))
    ensures Convert(Boolean(false), Int64Type, calendar) == Converts(Some(IntCell(0)))
    ensures Convert(String(text), BoolType, calendar) == Convert(String(text), Int64Type, calendar) == Throws
    ensures forall t :: Convert(Compound, t, calendar) == Throws
  {
  }

  /** A timestamp text read up to a fraction of `m` microseconds is that many behind its seconds. */
  lemma TimestampIsRead(text: string, seconds: int, m: nat, calendar: Calendar)
    requires m < 1000000 && calendar.read(text) == Some((seconds, Timestamp.FractionText(m)))
    ensures FieldOf(String(text), TimestampType, calendar) == Converts(Some(TimestampCell(seconds * 1000000 + m)))
  {
    Timestamp.FractionRoundTrip(seconds, m);
  }

  // ---------- a whole row ----------

  datatype Row = Row(dirty: seq<bool>, cells: seq<Option<Cell>>)

  predicate Fits(row: Row, columns: seq<Column>) {
    |row.dirty| == |row.cells| == |columns|
  }

  /** A cell holds a value of its column's type. */
  predicate WellTyped(columns: seq<Column>, cells: seq<Option<Cell>>) {
    |columns| == |cells|
    && forall i :: 0 <= i < |cells| && cells[i].Some? ==> HasType(cells[i].value, columns[i].type_)
  }

  /** Does reading column `i` under the name `names[i]` throw? */
  predicate ThrowsAt(columns: seq<Column>, names: seq<string>, json: Object, calendar: Calendar, i: nat)
    requires i < |columns| == |names|
  {
    names[i] in json && FieldOf(json[names[i]], columns[i].type_, calendar).Throws?
  }

  /** What column `i` of a row read under `names` holds. */
  predicate ReadsAt(row: Row, columns: seq<Column>, names: seq<string>, json: Object, calendar: Calendar, i: nat)
    requires Fits(row, columns) && i < |columns| == |names|
  {
    if names[i] in json
    then row.dirty[i] && FieldOf(json[names[i]], columns[i].type_, calendar) == Converts(row.cells[i])
    else !row.dirty[i] && row.cells[i] == None
  }

  /** `row` is what the constructor builds from `json` under `names`. */
  predicate ReadFrom(row: Row, columns: seq<Column>, names: seq<string>, json: Object, calendar: Calendar)
    requires |columns| == |names|
  {
    Fits(row, columns) && forall i :: 0 <= i < |columns| ==> ReadsAt(row, columns, names, json, calendar, i)
  }

  function CellAt(columns: seq<Column>, names: seq<string>, json: Object, calendar: Calendar, i: nat): Option<Cell>
    requires i < |columns| == |names| && !ThrowsAt(columns, names, json, calendar, i)
  {
    if names[i] in json then FieldOf(json[names[i]], columns[i].type_, calendar).cell else None
  }

  /** The row the constructor builds, `None` where it throws. */
  function RowFrom(columns: seq<Column>, names: seq<string>, json: Object, calendar: Calendar): Option<Row>
    requires |columns| == |names|
  {
    if exists i :: 0 <= i < |columns| && ThrowsAt(columns, names, json, calendar, i) then None
    else
      Some(Row(seq(|columns|, i requires 0 <= i < |columns| => names[i] in json),
               seq(|columns|, i requires 0 <= i < |columns| && !ThrowsAt(columns, names, json, calendar, i) =>
                 CellAt(columns, names, json, calendar, i))))
  }

  lemma RowFromIff(columns: seq<Column>, names: seq<string>, json: Object, calendar: Calendar, row: Row)
    requires |columns| == |names|
    ensures RowFrom(columns, names, json, calendar) == Some(row) <==> ReadFrom(row, columns, names, json, calendar)
  {
    var built := RowFrom(columns, names, json, calendar);
    if ReadFrom(row, columns, names, json, calendar) {
      forall i | 0 <= i < |columns|
        ensures !ThrowsAt(columns, names, json, calendar, i)
        ensures row.dirty[i] == (names[i] in json) && row.cells[i] == CellAt(columns, names, json, calendar, i)
      {
        assert ReadsAt(row, columns, names, json, calendar, i);
      }
      assert row.dirty == built.value.dirty && row.cells == built.value.cells;
    } else if built == Some(row) {
      forall i | 0 <= i < |columns| ensures ReadsAt(row, columns, names, json, calendar, i) {
        assert !ThrowsAt(columns, names, json, calendar, i);
      }
    }
  }

  function ColumnNames(columns: seq<Column>): (names: seq<string>)
    ensures |names| == |columns|
    ensures forall i :: 0 <= i < |names| ==> names[i] == columns[i].name
  {
    seq(|columns|, i requires 0 <= i < |columns| => columns[i].name)
  }

  /** The empty name stands for a column that is not exchanged; an entry under it is not looked at. */
  function Visible(json: Object): Object { json - {""} }

  /** The object the first `n` columns are written to; an empty alias writes nothing. */
  function ObjectOf(cells: seq<Option<Cell>>, aliases: seq<string>, calendar: Calendar, n: nat): Object
    requires n <= |cells| == |aliases|
  {
    if n == 0 then map[]
    else
      var front := ObjectOf(cells, aliases, calendar, n - 1);
      if aliases[n - 1] == "" then front else front[aliases[n - 1] := JsonOf(cells[n - 1], calendar)]
  }

  /** The object under the column names, the empty one included. */
  function WholeObject(cells: seq<Option<Cell>>, columns: seq<Column>, calendar: Calendar, n: nat): Object
    requires n <= |cells| == |columns|
  {
    if n == 0 then map[]
    else WholeObject(cells, columns, calendar, n - 1)[columns[n - 1].name := JsonOf(cells[n - 1], calendar)]
  }

  lemma {:induction false} WholeHolds(cells: seq<Option<Cell>>, columns: seq<Column>, calendar: Calendar, n: nat)
    requires n <= |cells| == |columns| && DistinctNames(columns)
    ensures var json := WholeObject(cells, columns, calendar, n);
            && (forall i :: 0 <= i < n ==>
                  columns[i].name in json && json[columns[i].name] == JsonOf(cells[i], calendar))
            && (forall name :: name in json ==> NameAmong(columns, n, name))
  {
    if n > 0 {
      WholeHolds(cells, columns, calendar, n - 1);
      var front := WholeObject(cells, columns, calendar, n - 1);
      forall name | name in WholeObject(cells, columns, calendar, n) ensures NameAmong(columns, n, name) {
        if name in front {
          assert NameAmong(columns, n - 1, name);
          var i :| 0 <= i < n - 1 && columns[i].name == name;
        } else {
          assert columns[n - 1].name == name;
        }
      }
    }
  }

  // ---------- round trip ----------

  predicate Distinct(aliases: seq<string>) {
    forall i, j :: 0 <= i < j < |aliases| && aliases[i] == aliases[j] ==> aliases[i] == ""
  }

  lemma {:induction false} ObjectHolds(cells: seq<Option<Cell>>, aliases: seq<string>, calendar: Calendar, n: nat)
    requires n <= |cells| == |aliases| && Distinct(aliases)
    ensures var json := ObjectOf(cells, aliases, calendar, n);
            && "" !in json
            && (forall i :: 0 <= i < n && aliases[i] != "" ==>
                  aliases[i] in json && json[aliases[i]] == JsonOf(cells[i], calendar))
  {
    if n > 0 { ObjectHolds(cells, aliases, calendar, n - 1); }
  }

  /** A timestamp survives its text. */
  predicate Keeps(calendar: Calendar, micros: int) {
    ReadMicros(calendar.write(micros), calendar) == Some(micros)
  }

  /** A cell that is read back from what it is written as. */
  predicate Survives(cell: Option<Cell>, calendar: Calendar) {
    cell.Some? && cell.value.TimestampCell? ==> Keeps(calendar, cell.value.micros)
  }

  lemma FieldRoundTrip(cell: Option<Cell>, t: Type, calendar: Calendar)
    requires cell.Some? ==> HasType(cell.value, t)
    ensures var back := FieldOf(JsonOf(cell, calendar), t, calendar);
            back.Converts? && (back.cell == cell <==> Survives(cell, calendar))
  {
  }

  /** Reading a masqueraded object back never throws, marks exactly the columns that have an alias,
      and restores their cells: all but the timestamps whose text the calendar reads differently. */
  lemma MasqueradedRoundTrip(columns: seq<Column>, cells: seq<Option<Cell>>, aliases: seq<string>, calendar: Calendar)
    requires |columns| == |aliases| && WellTyped(columns, cells) && Distinct(aliases)
    ensures var json := ObjectOf(cells, aliases, calendar, |cells|);
            var built := RowFrom(columns, aliases, json, calendar);
            && Visible(json) == json && built.Some? && Fits(built.value, columns)
            && forall i :: 0 <= i < |columns| ==>
                 && built.value.dirty[i] == (aliases[i] != "")
                 && (aliases[i] == "" ==> built.value.cells[i] == None)
                 && (aliases[i] != "" ==> (built.value.cells[i] == cells[i] <==> Survives(cells[i], calendar)))
  {
    var json := ObjectOf(cells, aliases, calendar, |cells|);
    ObjectHolds(cells, aliases, calendar, |cells|);
    forall i | 0 <= i < |columns|
      ensures !ThrowsAt(columns, aliases, json, calendar, i)
      ensures CellAt(columns, aliases, json, calendar, i) == cells[i] <==>
                if aliases[i] == "" then cells[i] == None else Survives(cells[i], calendar)
      ensures aliases[i] == "" ==> CellAt(columns, aliases, json, calendar, i) == None
    {
      FieldRoundTrip(cells[i], columns[i].type_, calendar);
    }
  }

  /** Every column is marked and every cell is as it was. */
  predicate Restored(columns: seq<Column>, cells: seq<Option<Cell>>, aliases: seq<string>, calendar: Calendar)
    requires |columns| == |cells| == |aliases|
  {
    var all := seq(|columns|, i => true);
    RowFrom(columns, aliases, ObjectOf(cells, aliases, calendar, |cells|), calendar) == Some(Row(all, cells))
  }

  predicate AllDifferent(aliases: seq<string>) {
    (forall i :: 0 <= i < |aliases| ==> aliases[i] != "")
    && forall i, j :: 0 <= i < j < |aliases| ==> aliases[i] != aliases[j]
  }

  ghost predicate RestoresAll(columns: seq<Column>, aliases: seq<string>, calendar: Calendar)
    requires |columns| == |aliases|
  {
    forall cells :: WellTyped(columns, cells) && AllSurvive(cells, calendar) ==>
                      Restored(columns, cells, aliases, calendar)
  }

  predicate AllSurvive(cells: seq<Option<Cell>>, calendar: Calendar) {
    forall i :: 0 <= i < |cells| ==> Survives(cells[i], calendar)
  }

  function SomeCell(t: Type, micros: int): (cell: Cell)
    ensures HasType(cell, t)
    ensures cell.TimestampCell? ==> cell.micros == micros
  {
    match t
    case TextType => TextCell("")
    case BoolType => BoolCell(false)
    case Int64Type => IntCell(0)
    case TimestampType => TimestampCell(micros)
  }

  /** Exactly which aliases restore every row whose timestamps survive their text. All that is asked
      of the calendar is that some timestamp does. */
  lemma RestoresAllIff(columns: seq<Column>, aliases: seq<string>, calendar: Calendar)
    requires |columns| == |aliases| && exists micros :: Keeps(calendar, micros)
    ensures RestoresAll(columns, aliases, calendar) <==> AllDifferent(aliases)
  {
    if AllDifferent(aliases) {
      forall cells | WellTyped(columns, cells) && AllSurvive(cells, calendar)
        ensures Restored(columns, cells, aliases, calendar) {
        DifferentRestore(columns, cells, aliases, calendar);
      }
    } else if i :| 0 <= i < |aliases| && aliases[i] == "" {
      EmptyLoses(columns, aliases, calendar, i);
    } else {
      var i, j :| 0 <= i < j < |aliases| && aliases[i] == aliases[j];
      var micros :| Keeps(calendar, micros);
      SharedLoses(columns, aliases, calendar, i, j, micros);
    }
  }

  lemma DifferentRestore(columns: seq<Column>, cells: seq<Option<Cell>>, aliases: seq<string>, calendar: Calendar)
    requires |columns| == |aliases| && WellTyped(columns, cells) && AllDifferent(aliases)
    requires AllSurvive(cells, calendar)
    ensures Restored(columns, cells, aliases, calendar)
  {
    var row := Row(seq(|columns|, i => true), cells);
    var json := ObjectOf(cells, aliases, calendar, |cells|);
    ObjectHolds(cells, aliases, calendar, |cells|);
    forall i | 0 <= i < |columns| ensures ReadsAt(row, columns, aliases, json, calendar, i) {
      FieldRoundTrip(cells[i], columns[i].type_, calendar);
    }
    RowFromIff(columns, aliases, json, calendar, row);
  }

  lemma {:induction false} NoEmptyKey(cells: seq<Option<Cell>>, aliases: seq<string>, calendar: Calendar, n: nat)
    requires n <= |cells| == |aliases|
    ensures "" !in ObjectOf(cells, aliases, calendar, n)
  {
    if n > 0 { NoEmptyKey(cells, aliases, calendar, n - 1); }
  }

  lemma EmptyLoses(columns: seq<Column>, aliases: seq<string>, calendar: Calendar, i: nat)
    requires i < |columns| == |aliases| && aliases[i] == ""
    ensures !RestoresAll(columns, aliases, calendar)
  {
    var cells := seq(|columns|, k => None);
    NoEmptyKey(cells, aliases, calendar, |cells|);
    var row := Row(seq(|columns|, k => true), cells);
    var json := ObjectOf(cells, aliases, calendar, |cells|);
    assert !ReadsAt(row, columns, aliases, json, calendar, i);
    RowFromIff(columns, aliases, json, calendar, row);
    assert WellTyped(columns, cells) && AllSurvive(cells, calendar);
    assert !Restored(columns, cells, aliases, calendar);
  }

  /** The last column written under a name is the one read back. */
  lemma {:induction false} NullStays(cells: seq<Option<Cell>>, aliases: seq<string>, calendar: Calendar, j: nat, n: nat)
    requires j < n <= |cells| == |aliases| && aliases[j] != ""
    requires forall k :: j <= k < n ==> cells[k] == None
    ensures var json := ObjectOf(cells, aliases, calendar, n); aliases[j] in json && json[aliases[j]] == Null
  {
    if j < n - 1 { NullStays(cells, aliases, calendar, j, n - 1); }
  }

  lemma SharedLoses(
      columns: seq<Column>, aliases: seq<string>, calendar: Calendar, i: nat, j: nat, micros: int)
    requires Keeps(calendar, micros)
    requires i < j < |columns| == |aliases| && aliases[i] == aliases[j] != ""
    ensures !RestoresAll(columns, aliases, calendar)
  {
    var value := Some(SomeCell(columns[i].type_, micros));
    var cells := seq(|columns|, k => if k == i then value else None);
    NullStays(cells, aliases, calendar, j, |cells|);
    var row := Row(seq(|columns|, k => true), cells);
    var json := ObjectOf(cells, aliases, calendar, |cells|);
    assert !ReadsAt(row, columns, aliases, json, calendar, i);
    RowFromIff(columns, aliases, json, calendar, row);
    assert WellTyped(columns, cells) && AllSurvive(cells, calendar);
    assert !Restored(columns, cells, aliases, calendar);
  }

  /** A timestamp in a row is the seconds and the microseconds of its text. */
  lemma TimestampInRow(
      columns: seq<Column>, names: seq<string>, json: Object, calendar: Calendar, i: nat, seconds: int, m: nat)
    requires i < |columns| == |names| && columns[i].type_.TimestampType?
    requires names[i] in json && json[names[i]].String? && m < 1000000
    requires calendar.read(json[names[i]].text) == Some((seconds, Timestamp.FractionText(m)))
    ensures var built := RowFrom(columns, names, json, calendar);
            built.Some? ==>
              && Fits(built.value, columns) && built.value.dirty[i]
              && built.value.cells[i] == Some(TimestampCell(seconds * 1000000 + m))
  {
    TimestampIsRead(json[names[i]].text, seconds, m, calendar);
  }
}
