/** A row object: its cells and dirty flags, the statements it writes, and the JSON it is made of
    and turned into. One loop over the columns stands for the unrolled code of each table. */
module Records {
  import opened Text
  import opened Wrappers
  import opened Schema
  import opened InsertStatement
  import opened JsonRows

  /** Every text followed by a comma, the way the statement grows. */
  function Trailing(parts: seq<string>): string {
    if parts == [] then "" else Trailing(parts[..|parts| - 1]) + parts[|parts| - 1] + ","
  }

  /** What appending one part and a comma does to the text. */
  lemma AppendPart(head: string, parts: seq<string>, part: string)
    ensures head + Trailing(parts + [part]) == head + Trailing(parts) + part + ","
  {
    assert (parts + [part])[..|parts|] == parts;
  }

  lemma {:induction false} JoinSnoc(parts: seq<string>, part: string)
    requires parts != []
    ensures Join(parts + [part], ",") == Join(parts, ",") + "," + part
  {
    if |parts| > 1 {
      JoinSnoc(parts[1..], part);
      assert (parts + [part])[1..] == parts[1..] + [part];
    } else {
      assert (parts + [part])[1..] == [part];
    }
  }

  lemma {:induction false} TrailingIsJoin(parts: seq<string>)
    requires parts != []
    ensures Trailing(parts) == Join(parts, ",") + ","
  {
    var front, last := parts[..|parts| - 1], parts[|parts| - 1];
    assert parts == front + [last];
    if front != [] {
      TrailingIsJoin(front);
      JoinSnoc(front, last);
    }
  }

  /** Before either loop nothing is listed. */
  lemma NothingListed(head: string, columns: seq<Column>, dirty: seq<bool>)
    requires |columns| == |dirty|
    ensures Names(columns, dirty, 0) == [] && SlotTexts(Slots(columns, dirty, 0)) == []
    ensures head + Trailing([]) == head && !NeedSelection(columns, dirty, 0)
  {
  }

  /** One turn of the first loop. */
  lemma NameStep(head: string, columns: seq<Column>, dirty: seq<bool>, i: nat)
    requires i < |columns| == |dirty|
    ensures var before, after := Names(columns, dirty, i), Names(columns, dirty, i + 1);
            if Listed(columns[i], dirty[i])
            then |after| == |before| + 1 && head + Trailing(after) == head + Trailing(before) + columns[i].name + ","
            else after == before
    ensures NeedSelection(columns, dirty, i + 1) <==>
              NeedSelection(columns, dirty, i) || columns[i].kind.Auto? || (columns[i].kind.Defaulted? && !dirty[i])
  {
    hide Trailing;
    AppendPart(head, Names(columns, dirty, i), columns[i].name);
  }

  /** One turn of the second loop. */
  lemma SlotStep(head: string, columns: seq<Column>, dirty: seq<bool>, i: nat)
    requires i < |columns| == |dirty|
    ensures var before, after := SlotTexts(Slots(columns, dirty, i)), SlotTexts(Slots(columns, dirty, i + 1));
            var sql := head + Trailing(before);
            if Bound(columns[i], dirty[i])
            then head + Trailing(after) == sql + "$" + Decimal(BoundCount(columns, dirty, i) + 1) + ","
            else if Listed(columns[i], dirty[i]) then head + Trailing(after) == sql + "default,"
            else after == before
  {
    hide Trailing, Decimal;
    var before, s := Slots(columns, dirty, i), SlotFor(columns, dirty, i);
    assert SlotTexts(before + [s]) == SlotTexts(before) + [SlotText(s)];
    AppendPart(head, SlotTexts(before), SlotText(s));
    assert !Listed(columns[i], dirty[i]) ==> Slots(columns, dirty, i + 1) == before;
  }

  /** Overwriting the last comma closes the list of names. */
  lemma CloseNames(head: string, names: seq<string>)
    ensures var sql := head + Trailing(names);
            var closed := head + Join(names, ",") + VALUES;
            if names == [] then closed == sql + ") values ("
            else sql != "" && closed == sql[|sql| - 1 := ')'] + " values ("
  {
    if names != [] {
      TrailingIsJoin(names);
      var sql := head + Trailing(names);
      assert sql == head + Join(names, ",") + ",";
      assert sql[|sql| - 1 := ')'] == head + Join(names, ",") + ")";
    }
  }

  /** Cutting the last comma off closes the list of values and leaves only the end to be written. */
  lemma CloseValues(ins: Insert, head: string)
    requires head == INSERT + ins.table + " (" + Join(ins.columns, ",") + VALUES
    ensures var sql := head + Trailing(SlotTexts(ins.values));
            PrintInsert(ins) == (if ins.values == [] then sql else sql[..|sql| - 1])
                                + if ins.returning then RETURNING else ")"
  {
    hide SlotText;
    if ins.values != [] { TrailingIsJoin(SlotTexts(ins.values)); }
  }

  function BlankRow(n: nat): Row {
    Row(seq(n, i => false), seq(n, i => None))
  }

  function BoundNames(columns: seq<Column>, dirty: seq<bool>, n: nat): seq<string>
    requires n <= |columns| == |dirty|
  {
    if n == 0 then []
    else BoundNames(columns, dirty, n - 1) + if Bound(columns[n - 1], dirty[n - 1]) then [columns[n - 1].name] else []
  }

  class Record {
    const table: Table
    const dirty: array<bool>
    const cells: array<Option<Cell>>

    ghost predicate Valid() {
      dirty.Length == cells.Length == |table.columns|
    }

    ghost function State(): (row: Row)
      reads dirty, cells
      ensures |row.dirty| == dirty.Length && |row.cells| == cells.Length
    {
      Row(dirty[..], cells[..])
    }

    constructor (t: Table)
      ensures Valid() && fresh(dirty) && fresh(cells)
      ensures table == t && State() == BlankRow(|t.columns|)
    {
      table := t;
      dirty := new bool[|t.columns|](i => false);
      cells := new Option<Cell>[|t.columns|](i => None);
    }

    method Set(i: nat, value: Cell)
      requires Valid() && i < |table.columns| && HasType(value, table.columns[i].type_)
      modifies dirty, cells
      ensures State() == Row(old(dirty[..])[i := true], old(cells[..])[i := Some(value)])
    {
      cells[i] := Some(value);
      dirty[i] := true;
    }

    /** Only a column that may be null has this setter. */
    method SetToNull(i: nat)
      requires Valid() && i < |table.columns| && !table.columns[i].notNull
      modifies dirty, cells
      ensures State() == Row(old(dirty[..])[i := true], old(cells[..])[i := None])
    {
      cells[i] := None;
      dirty[i] := true;
    }

    // ---------- statements ----------

    method SqlForInserting() returns (sql: string, needSelection: bool)
      requires Valid()
      ensures sql == PrintInsert(RowInsert(table, dirty[..]))
      ensures needSelection == RowInsert(table, dirty[..]).returning
    {
      hide Trailing, SlotTexts, SlotText, Decimal, Join, NeedSelection, PrintInsert, Names, Slots;
      var n := |table.columns|;
      ghost var columns, mask := table.columns, dirty[..];
      sql := INSERT + table.name + " (";
      ghost var head := sql;
      var parametersCount := 0;
      needSelection := false;
      NothingListed(head, columns, mask);
      for i := 0 to n
        invariant sql == head + Trailing(Names(columns, mask, i))
        invariant parametersCount == |Names(columns, mask, i)|
        invariant needSelection == NeedSelection(columns, mask, i)
      {
        NameStep(head, columns, mask, i);
        if !table.columns[i].kind.Plain? || dirty[i] {
          sql := sql + table.columns[i].name + ",";
          parametersCount := parametersCount + 1;
        }
        if table.columns[i].kind.Auto? || (table.columns[i].kind.Defaulted? && !dirty[i]) {
          needSelection := true;
        }
      }
      ghost var names := Names(columns, mask, n);
      CloseNames(head, names);
      if parametersCount > 0 {
        sql := sql[|sql| - 1 := ')'];
        sql := sql + " values (";
      } else {
        sql := sql + ") values (";
      }
      head := head + Join(names, ",") + VALUES;
      assert sql == head;
      var placeholder := 1;
      NothingListed(head, columns, mask);
      for i := 0 to n
        invariant sql == head + Trailing(SlotTexts(Slots(columns, mask, i)))
        invariant placeholder == BoundCount(columns, mask, i) + 1
      {
        SlotStep(head, columns, mask, i);
        if dirty[i] && !table.columns[i].kind.Auto? {
          sql := sql + "$" + Decimal(placeholder) + ",";
          placeholder := placeholder + 1;
        } else if !table.columns[i].kind.Plain? {
          sql := sql + "default,";
        }
      }
      SameLength(columns, mask, seq(n, i => None), n);
      CloseValues(RowInsert(table, mask), head);
      if parametersCount > 0 {
        sql := sql[..|sql| - 1];
      }
      if needSelection {
        sql := sql + ") returning *";
      } else {
        sql := sql + ")";
      }
    }

    /** The bound values, in the order of the placeholders. */
    method OutputArgs() returns (args: seq<Option<Cell>>)
      requires Valid()
      ensures args == Args(table.columns, dirty[..], cells[..], |table.columns|)
    {
      args := [];
      for i := 0 to |table.columns|
        invariant args == Args(table.columns, dirty[..], cells[..], i)
      {
        if dirty[i] && !table.columns[i].kind.Auto? {
          args := args + [cells[i]];
        }
      }
    }

    method UpdateColumns() returns (names: seq<string>)
      requires Valid()
      ensures names == BoundNames(table.columns, dirty[..], |table.columns|)
    {
      names := [];
      for i := 0 to |table.columns|
        invariant names == BoundNames(table.columns, dirty[..], i)
      {
        if dirty[i] && !table.columns[i].kind.Auto? {
          names := names + [table.columns[i].name];
        }
      }
    }

    method UpdateArgs() returns (args: seq<Option<Cell>>)
      requires Valid()
      ensures args == Args(table.columns, dirty[..], cells[..], |table.columns|)
    {
      args := [];
      for i := 0 to |table.columns|
        invariant args == Args(table.columns, dirty[..], cells[..], i)
      {
        if dirty[i] && !table.columns[i].kind.Auto? {
          args := args + [cells[i]];
        }
      }
    }

    // ---------- JSON ----------

    /** `None` where the constructor of the source throws. */
    static method FromJson(t: Table, json: Object, calendar: Calendar) returns (r: Option<Record>)
      ensures var built := RowFrom(t.columns, ColumnNames(t.columns), json, calendar);
              if built.None? then r.None?
              else r.Some? && fresh(r.value) && r.value.Valid() && r.value.table == t && r.value.State() == built.value
    {
      var record := new Record(t);
      for i := 0 to |t.columns|
        invariant fresh(record) && fresh(record.dirty) && fresh(record.cells)
        invariant record.Valid() && record.table == t
        invariant ReadUpTo(record.State(), t.columns, ColumnNames(t.columns), json, calendar, i)
      {
        ghost var before := record.State();
        var name := t.columns[i].name;
        if name in json {
          record.dirty[i] := true;
          if !json[name].Null? {
            var field := Convert(json[name], t.columns[i].type_, calendar);
            if field.Throws? {
              RowThrows(t.columns, ColumnNames(t.columns), json, calendar, i);
              return None;
            }
            record.cells[i] := field.cell;
          }
        }
        ReadNext(before, record.State(), t.columns, ColumnNames(t.columns), json, calendar, i);
      }
      RowFromIff(t.columns, ColumnNames(t.columns), json, calendar, record.State());
      return Some(record);
    }

    /** A vector of the wrong length is reported in the log and leaves the row blank. */
    static method FromMasqueradedJson(t: Table, json: Object, aliases: seq<string>, calendar: Calendar)
      returns (r: Option<Record>)
      ensures |aliases| != |t.columns| ==>
                r.Some? && fresh(r.value) && r.value.Valid() && r.value.table == t
                && r.value.State() == BlankRow(|t.columns|)
      ensures |aliases| == |t.columns| ==>
                var built := RowFrom(t.columns, aliases, Visible(json), calendar);
                if built.None? then r.None?
                else && r.Some? && fresh(r.value) && r.value.Valid() && r.value.table == t
                     && r.value.State() == built.value
    {
      var record := new Record(t);
      if |aliases| != |t.columns| {
        return Some(record);
      }
      for i := 0 to |t.columns|
        invariant fresh(record) && fresh(record.dirty) && fresh(record.cells)
        invariant record.Valid() && record.table == t
        invariant ReadUpTo(record.State(), t.columns, aliases, Visible(json), calendar, i)
      {
        ghost var before := record.State();
        if aliases[i] != "" && aliases[i] in json {
          record.dirty[i] := true;
          if !json[aliases[i]].Null? {
            var field := Convert(json[aliases[i]], t.columns[i].type_, calendar);
            if field.Throws? {
              RowThrows(t.columns, aliases, Visible(json), calendar, i);
              return None;
            }
            record.cells[i] := field.cell;
          }
        }
        ReadNext(before, record.State(), t.columns, aliases, Visible(json), calendar, i);
      }
      RowFromIff(t.columns, aliases, Visible(json), calendar, record.State());
      return Some(record);
    }

    method ToJson(calendar: Calendar) returns (json: Object)
      requires Valid()
      ensures json == WholeObject(cells[..], table.columns, calendar, |table.columns|)
    {
      json := map[];
      for i := 0 to |table.columns|
        invariant json == WholeObject(cells[..], table.columns, calendar, i)
      {
        json := json[table.columns[i].name := JsonOf(cells[i], calendar)];
      }
    }

    /** A vector of the wrong length gives the object under the column names. */
    method ToMasqueradedJson(aliases: seq<string>, calendar: Calendar) returns (json: Object)
      requires Valid()
      ensures json == if |aliases| == |table.columns|
                      then ObjectOf(cells[..], aliases, calendar, |table.columns|)
                      else WholeObject(cells[..], table.columns, calendar, |table.columns|)
    {
      json := map[];
      if |aliases| == |table.columns| {
        for i := 0 to |table.columns|
          invariant json == ObjectOf(cells[..], aliases, calendar, i)
        {
          if aliases[i] != "" {
            json := json[aliases[i] := JsonOf(cells[i], calendar)];
          }
        }
        return;
      }
      json := ToJson(calendar);
    }
  }

  /** The first `n` columns are read and the others are blank. */
  predicate ReadUpTo(row: Row, columns: seq<Column>, names: seq<string>, json: Object, calendar: Calendar, n: nat)
    requires |names| == |columns| && Fits(row, columns)
  {
    && (forall i :: 0 <= i < n && i < |columns| ==> ReadsAt(row, columns, names, json, calendar, i))
    && (forall i :: n <= i < |columns| ==> !row.dirty[i] && row.cells[i] == None)
  }

  lemma ReadNext(
      before: Row, after: Row, columns: seq<Column>, names: seq<string>, json: Object, calendar: Calendar, i: nat)
    requires i < |columns| == |names| && Fits(before, columns) && Fits(after, columns)
    requires ReadUpTo(before, columns, names, json, calendar, i)
    requires after == Row(before.dirty[i := after.dirty[i]], before.cells[i := after.cells[i]])
    requires ReadsAt(after, columns, names, json, calendar, i)
    ensures ReadUpTo(after, columns, names, json, calendar, i + 1)
  {
    forall j | 0 <= j < i ensures ReadsAt(after, columns, names, json, calendar, j) {
      assert ReadsAt(before, columns, names, json, calendar, j);
    }
  }

  lemma RowThrows(columns: seq<Column>, names: seq<string>, json: Object, calendar: Calendar, i: nat)
    requires i < |columns| == |names| && ThrowsAt(columns, names, json, calendar, i)
    ensures RowFrom(columns, names, json, calendar) == None
  {
  }
}
