/** The insert statement of a row: its text, the values bound to it, and what the database does
    with the two. The text is read back by a reader that knows nothing of rows. */
module InsertStatement {
  import opened Text
  import opened Wrappers
  import opened Schema

  // ---------- what is listed and what is bound ----------

  predicate Listed(c: Column, dirty: bool) { !c.kind.Plain? || dirty }

  predicate Bound(c: Column, dirty: bool) { !c.kind.Auto? && dirty }

  datatype Slot = Default | Placeholder(number: nat)

  /** The listed names among the first `n` columns. */
  function Names(columns: seq<Column>, dirty: seq<bool>, n: nat): seq<string>
    requires n <= |columns| == |dirty|
  {
    if n == 0 then []
    else Names(columns, dirty, n - 1) + if Listed(columns[n - 1], dirty[n - 1]) then [columns[n - 1].name] else []
  }

  function BoundCount(columns: seq<Column>, dirty: seq<bool>, n: nat): nat
    requires n <= |columns| == |dirty|
  {
    if n == 0 then 0
    else BoundCount(columns, dirty, n - 1) + if Bound(columns[n - 1], dirty[n - 1]) then 1 else 0
  }

  function SlotFor(columns: seq<Column>, dirty: seq<bool>, i: nat): Slot
    requires i < |columns| == |dirty|
  {
    if Bound(columns[i], dirty[i]) then Placeholder(BoundCount(columns, dirty, i) + 1) else Default
  }

  function Slots(columns: seq<Column>, dirty: seq<bool>, n: nat): seq<Slot>
    requires n <= |columns| == |dirty|
  {
    if n == 0 then []
    else Slots(columns, dirty, n - 1)
         + if Listed(columns[n - 1], dirty[n - 1]) then [SlotFor(columns, dirty, n - 1)] else []
  }

  /** The values bound, `None` for a null. */
  function Args(columns: seq<Column>, dirty: seq<bool>, cells: seq<Option<Cell>>, n: nat): seq<Option<Cell>>
    requires n <= |columns| == |dirty| == |cells|
  {
    if n == 0 then []
    else Args(columns, dirty, cells, n - 1) + if Bound(columns[n - 1], dirty[n - 1]) then [cells[n - 1]] else []
  }

  /** Does the database choose a value the caller has to read back? */
  predicate NeedSelection(columns: seq<Column>, dirty: seq<bool>, n: nat)
    requires n <= |columns| == |dirty|
  {
    exists i :: 0 <= i < n && (columns[i].kind.Auto? || (columns[i].kind.Defaulted? && !dirty[i]))
  }

  // ---------- the text ----------

  function SlotText(s: Slot): string {
    if s.Default? then "default" else "$" + Decimal(s.number)
  }

  function SlotTexts(slots: seq<Slot>): (texts: seq<string>)
    ensures |texts| == |slots|
    ensures forall i :: 0 <= i < |slots| ==> texts[i] == SlotText(slots[i])
  {
    seq(|slots|, i requires 0 <= i < |slots| => SlotText(slots[i]))
  }

  datatype Insert = Insert(table: string, columns: seq<string>, values: seq<Slot>, returning: bool)

  function RowInsert(t: Table, dirty: seq<bool>): Insert
    requires |dirty| == |t.columns|
  {
    var n := |dirty|;
    Insert(t.name, Names(t.columns, dirty, n), Slots(t.columns, dirty, n), NeedSelection(t.columns, dirty, n))
  }

  const INSERT := "insert into "
  const VALUES := ") values ("
  const RETURNING := ") returning *"

  function PrintInsert(ins: Insert): string {
    INSERT + ins.table + " (" + Join(ins.columns, ",") + VALUES + Join(SlotTexts(ins.values), ",")
    + if ins.returning then RETURNING else ")"
  }

  // ---------- alignment of the two lists and the bound values ----------

  lemma {:induction false} SameLength(columns: seq<Column>, dirty: seq<bool>, cells: seq<Option<Cell>>, n: nat)
    requires n <= |columns| == |dirty| == |cells|
    ensures |Names(columns, dirty, n)| == |Slots(columns, dirty, n)|
    ensures |Args(columns, dirty, cells, n)| == BoundCount(columns, dirty, n)
  {
    if n > 0 { SameLength(columns, dirty, cells, n - 1); }
  }

  /** The lists of the first `i` columns are the front of the lists of the first `n`. */
  lemma {:induction false} Fronts(columns: seq<Column>, dirty: seq<bool>, cells: seq<Option<Cell>>, i: nat, n: nat)
    requires i <= n <= |columns| == |dirty| == |cells|
    ensures Names(columns, dirty, i) <= Names(columns, dirty, n)
    ensures Slots(columns, dirty, i) <= Slots(columns, dirty, n)
    ensures Args(columns, dirty, cells, i) <= Args(columns, dirty, cells, n)
  {
    if i < n { Fronts(columns, dirty, cells, i, n - 1); }
  }

  /** Under a bound column stands the placeholder whose number is the position of its own value
      among the bound values; under a column that is listed and not bound stands `default`. */
  lemma Alignment(t: Table, dirty: seq<bool>, cells: seq<Option<Cell>>, i: nat)
    requires i < |t.columns| == |dirty| == |cells|
    requires Listed(t.columns[i], dirty[i])
    ensures var ins, args := RowInsert(t, dirty), Args(t.columns, dirty, cells, |dirty|);
            var p, k := |Names(t.columns, dirty, i)|, BoundCount(t.columns, dirty, i);
            && |ins.columns| == |ins.values|
            && p < |ins.columns| && ins.columns[p] == t.columns[i].name
            && if Bound(t.columns[i], dirty[i])
               then ins.values[p] == Placeholder(k + 1) && k < |args| && args[k] == cells[i]
               else ins.values[p] == Default
  {
    var n := |dirty|;
    SameLength(t.columns, dirty, cells, n);
    SameLength(t.columns, dirty, cells, i);
    Fronts(t.columns, dirty, cells, i + 1, n);
  }

  function Numbers(slots: seq<Slot>): seq<nat> {
    if slots == [] then []
    else
      var last := slots[|slots| - 1];
      Numbers(slots[..|slots| - 1]) + if last.Placeholder? then [last.number] else []
  }

  lemma NumbersSnoc(slots: seq<Slot>, s: Slot)
    ensures Numbers(slots + [s]) == Numbers(slots) + if s.Placeholder? then [s.number] else []
  {
    assert (slots + [s])[..|slots|] == slots;
  }

  function OneTo(k: nat): seq<nat> { seq(k, i requires 0 <= i < k => i + 1) }

  /** The placeholders, left to right, are 1, 2, 3, ... with no gap, one for each bound value. */
  lemma {:induction false} PlaceholderNumbers(columns: seq<Column>, dirty: seq<bool>, n: nat)
    requires n <= |columns| == |dirty|
    ensures Numbers(Slots(columns, dirty, n)) == OneTo(BoundCount(columns, dirty, n))
  {
    if n > 0 {
      PlaceholderNumbers(columns, dirty, n - 1);
      var front, s := Slots(columns, dirty, n - 1), SlotFor(columns, dirty, n - 1);
      NumbersSnoc(front, s);
      assert front + [] == front;
      assert OneTo(BoundCount(columns, dirty, n - 1) + 1)
          == OneTo(BoundCount(columns, dirty, n - 1)) + [BoundCount(columns, dirty, n - 1) + 1];
    }
  }

  // ---------- what the database does ----------

  /** What an insert gives a column: its default, or a value (`None` for null). */
  datatype Assigned = ByDefault | Given(value: Option<Cell>)

  /** A column the statement does not list gets its default as well. */
  function AssignedTo(row: map<string, Assigned>, name: string): Assigned {
    if name in row then row[name] else ByDefault
  }

  predicate NoRepeat(names: seq<string>) {
    forall i, j :: 0 <= i < j < |names| ==> names[i] != names[j]
  }

  predicate NumbersWithin(slots: seq<Slot>, k: nat) {
    forall p :: 0 <= p < |slots| && slots[p].Placeholder? ==> 1 <= slots[p].number <= k
  }

  function GivenBy(s: Slot, args: seq<Option<Cell>>): Assigned
    requires s.Placeholder? ==> 1 <= s.number <= |args|
  {
    if s.Default? then ByDefault else Given(args[s.number - 1])
  }

  /** The row the lists denote. */
  function Assign(names: seq<string>, slots: seq<Slot>, args: seq<Option<Cell>>): map<string, Assigned>
    requires |names| == |slots|
    requires NumbersWithin(slots, |args|)
  {
    if names == [] then map[]
    else
      var n := |names| - 1;
      Assign(names[..n], slots[..n], args)[names[n] := GivenBy(slots[n], args)]
  }

  lemma AssignSnoc(names: seq<string>, slots: seq<Slot>, args: seq<Option<Cell>>, name: string, s: Slot)
    requires |names| == |slots|
    requires NumbersWithin(slots, |args|)
    requires s.Placeholder? ==> 1 <= s.number <= |args|
    ensures Assign(names + [name], slots + [s], args) == Assign(names, slots, args)[name := GivenBy(s, args)]
  {
    hide GivenBy;
    assert (names + [name])[..|names|] == names && (slots + [s])[..|slots|] == slots;
  }

  lemma {:induction false} NumbersCover(slots: seq<Slot>, k: nat)
    requires forall i :: 0 <= i < |Numbers(slots)| ==> 1 <= Numbers(slots)[i] <= k
    ensures NumbersWithin(slots, k)
  {
    if slots != [] {
      var n := |slots| - 1;
      var front := Numbers(slots[..n]);
      assert forall i :: 0 <= i < |front| ==> Numbers(slots)[i] == front[i];
      NumbersCover(slots[..n], k);
      if slots[n].Placeholder? {
        assert Numbers(slots)[|front|] == slots[n].number;
      }
      forall p | 0 <= p < |slots| && slots[p].Placeholder? ensures 1 <= slots[p].number <= k {
        if p < n { assert slots[..n][p] == slots[p]; }
      }
    }
  }

  /** Executing a statement with its bound values. The database refuses an empty list of columns,
      lists of different length, a column named twice, and a number of values other than the
      placeholders ask for. */
  function Execute(ins: Insert, args: seq<Option<Cell>>): Option<map<string, Assigned>> {
    if ins.columns == [] || |ins.columns| != |ins.values| then None
    else if !NoRepeat(ins.columns) || Numbers(ins.values) != OneTo(|args|) then None
    else
      NumbersCover(ins.values, |args|);
      Some(Assign(ins.columns, ins.values, args))
  }

  /** Statements the database refuses: no column, lists that do not match, a column named twice, a
      placeholder without value, a value without placeholder. */
  lemma Refused(table: string, a: string, cell: Option<Cell>, returning: bool)
    ensures Execute(Insert(table, [], [], returning), []).None?
    ensures Execute(Insert(table, [a], [], returning), []).None?
    ensures Execute(Insert(table, [a, a], [Default, Default], returning), []).None?
    ensures Execute(Insert(table, [a], [Placeholder(1)], returning), []).None?
    ensures Execute(Insert(table, [a], [Default], returning), [cell]).None?
  {
    assert [a, a][0] == [a, a][1];
    NumbersSnoc([], Placeholder(1));
    NumbersSnoc([], Default);
    assert [] + [Placeholder(1)] == [Placeholder(1)] && [] + [Default] == [Default];
    assert |OneTo(0)| == 0 && |OneTo(1)| == 1;
  }

  predicate NameAmong(columns: seq<Column>, n: nat, name: string)
    requires n <= |columns|
  {
    exists i :: 0 <= i < n && columns[i].name == name
  }

  lemma {:induction false} NamesFromColumns(columns: seq<Column>, dirty: seq<bool>, n: nat)
    requires n <= |columns| == |dirty| && DistinctNames(columns)
    ensures forall p :: 0 <= p < |Names(columns, dirty, n)| ==> NameAmong(columns, n, Names(columns, dirty, n)[p])
    ensures NoRepeat(Names(columns, dirty, n))
  {
    if n > 0 {
      NamesFromColumns(columns, dirty, n - 1);
      var front := Names(columns, dirty, n - 1);
      forall p | 0 <= p < |front|
        ensures NameAmong(columns, n, front[p]) && front[p] != columns[n - 1].name
      {
        var i :| 0 <= i < n - 1 && columns[i].name == front[p];
      }
      assert NameAmong(columns, n, columns[n - 1].name);
    }
  }

  /** The row the first `n` columns denote. */
  predicate RowOf(row: map<string, Assigned>, columns: seq<Column>, dirty: seq<bool>, cells: seq<Option<Cell>>, n: nat)
    requires n <= |columns| == |dirty| == |cells|
  {
    && (forall name :: name in row ==> NameAmong(columns, n, name))
    && (forall i :: 0 <= i < n ==> (columns[i].name in row <==> Listed(columns[i], dirty[i])))
    && (forall i :: 0 <= i < n ==>
          AssignedTo(row, columns[i].name) == if Bound(columns[i], dirty[i]) then Given(cells[i]) else ByDefault)
  }

  ghost predicate BuildsRow(columns: seq<Column>, dirty: seq<bool>, cells: seq<Option<Cell>>, n: nat) {
    && n <= |columns| == |dirty| == |cells|
    && var names, slots := Names(columns, dirty, n), Slots(columns, dirty, n);
    && var args := Args(columns, dirty, cells, |dirty|);
    && |names| == |slots| && NumbersWithin(slots, |args|)
    && RowOf(Assign(names, slots, args), columns, dirty, cells, n)
  }

  lemma {:induction false} AssignsRow(columns: seq<Column>, dirty: seq<bool>, cells: seq<Option<Cell>>, n: nat)
    requires n <= |columns| == |dirty| == |cells| && DistinctNames(columns)
    ensures BuildsRow(columns, dirty, cells, n)
  {
    if n > 0 {
      AssignsRow(columns, dirty, cells, n - 1);
      if Listed(columns[n - 1], dirty[n - 1]) {
        ListedRow(columns, dirty, cells, n - 1);
      } else {
        UnlistedRow(columns, dirty, cells, n - 1);
      }
    }
  }

  lemma ListedRow(columns: seq<Column>, dirty: seq<bool>, cells: seq<Option<Cell>>, i: nat)
    requires i < |columns| == |dirty| == |cells| && DistinctNames(columns)
    requires BuildsRow(columns, dirty, cells, i) && Listed(columns[i], dirty[i])
    ensures BuildsRow(columns, dirty, cells, i + 1)
  {
    hide RowOf, Assign, GivenBy;
    var args := Args(columns, dirty, cells, |dirty|);
    var names, slots := Names(columns, dirty, i), Slots(columns, dirty, i);
    var name, s := columns[i].name, SlotFor(columns, dirty, i);
    assert Names(columns, dirty, i + 1) == names + [name] && Slots(columns, dirty, i + 1) == slots + [s];
    ArgOf(columns, dirty, cells, i);
    AssignSnoc(names, slots, args, name, s);
    AddColumn(Assign(names, slots, args), GivenBy(s, args), columns, dirty, cells, i);
  }

  lemma ArgOf(columns: seq<Column>, dirty: seq<bool>, cells: seq<Option<Cell>>, i: nat)
    requires i < |columns| == |dirty| == |cells|
    ensures var args, s := Args(columns, dirty, cells, |dirty|), SlotFor(columns, dirty, i);
            && (s.Placeholder? ==> 1 <= s.number <= |args|)
            && GivenBy(s, args) == if Bound(columns[i], dirty[i]) then Given(cells[i]) else ByDefault
  {
    SameLength(columns, dirty, cells, i);
    Fronts(columns, dirty, cells, i + 1, |dirty|);
  }

  lemma UnlistedRow(columns: seq<Column>, dirty: seq<bool>, cells: seq<Option<Cell>>, i: nat)
    requires i < |columns| == |dirty| == |cells| && DistinctNames(columns)
    requires BuildsRow(columns, dirty, cells, i) && !Listed(columns[i], dirty[i])
    ensures BuildsRow(columns, dirty, cells, i + 1)
  {
    hide RowOf, Assign;
    var args := Args(columns, dirty, cells, |dirty|);
    var names, slots := Names(columns, dirty, i), Slots(columns, dirty, i);
    assert Names(columns, dirty, i + 1) == names && Slots(columns, dirty, i + 1) == slots;
    SkipColumn(Assign(names, slots, args), columns, dirty, cells, i);
  }

  lemma Widen(row: map<string, Assigned>, columns: seq<Column>, dirty: seq<bool>, cells: seq<Option<Cell>>, i: nat)
    requires i < |columns| == |dirty| == |cells| && DistinctNames(columns)
    requires RowOf(row, columns, dirty, cells, i)
    ensures forall name :: name in row ==> NameAmong(columns, i + 1, name)
    ensures columns[i].name !in row
    ensures forall j :: 0 <= j < i ==> columns[j].name != columns[i].name
  {
    forall name | name in row ensures NameAmong(columns, i + 1, name) && name != columns[i].name {
      var j :| 0 <= j < i && columns[j].name == name;
    }
  }

  lemma AddColumn(
      row: map<string, Assigned>, value: Assigned,
      columns: seq<Column>, dirty: seq<bool>, cells: seq<Option<Cell>>, i: nat)
    requires i < |columns| == |dirty| == |cells| && DistinctNames(columns)
    requires RowOf(row, columns, dirty, cells, i) && Listed(columns[i], dirty[i])
    requires value == if Bound(columns[i], dirty[i]) then Given(cells[i]) else ByDefault
    ensures RowOf(row[columns[i].name := value], columns, dirty, cells, i + 1)
  {
    Widen(row, columns, dirty, cells, i);
    assert NameAmong(columns, i + 1, columns[i].name);
  }

  lemma SkipColumn(row: map<string, Assigned>, columns: seq<Column>, dirty: seq<bool>, cells: seq<Option<Cell>>, i: nat)
    requires i < |columns| == |dirty| == |cells| && DistinctNames(columns)
    requires RowOf(row, columns, dirty, cells, i) && !Listed(columns[i], dirty[i])
    ensures RowOf(row, columns, dirty, cells, i + 1)
  {
    Widen(row, columns, dirty, cells, i);
  }

  predicate SomeListed(columns: seq<Column>, dirty: seq<bool>, n: nat)
    requires n <= |columns| == |dirty|
  {
    exists i :: 0 <= i < n && Listed(columns[i], dirty[i])
  }

  lemma {:induction false} NamesEmptyIff(columns: seq<Column>, dirty: seq<bool>, n: nat)
    requires n <= |columns| == |dirty|
    ensures Names(columns, dirty, n) != [] <==> SomeListed(columns, dirty, n)
  {
    if n > 0 {
      NamesEmptyIff(columns, dirty, n - 1);
      assert Listed(columns[n - 1], dirty[n - 1]) ==> SomeListed(columns, dirty, n);
    }
  }

  /** The statement is executed if and only if it lists a column: any column that is not plain, or a
      dirty one. It then stores exactly the dirty cells of columns the caller may set, and the
      default everywhere else; it lists a plain column only if it is dirty. */
  lemma InsertMeaning(t: Table, dirty: seq<bool>, cells: seq<Option<Cell>>)
    requires |t.columns| == |dirty| == |cells| && DistinctNames(t.columns)
    ensures var row := Execute(RowInsert(t, dirty), Args(t.columns, dirty, cells, |dirty|));
            && (row.Some? <==> SomeListed(t.columns, dirty, |dirty|))
            && (row.Some? ==> RowOf(row.value, t.columns, dirty, cells, |dirty|))
  {
    var n := |dirty|;
    NamesEmptyIff(t.columns, dirty, n);
    SameLength(t.columns, dirty, cells, n);
    NamesFromColumns(t.columns, dirty, n);
    PlaceholderNumbers(t.columns, dirty, n);
    AssignsRow(t.columns, dirty, cells, n);
  }
}
