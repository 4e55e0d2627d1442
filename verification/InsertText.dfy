/** Reading an insert statement back from its text, and what a row's statement therefore does. */
module InsertText {
  import opened Text
  import opened Wrappers
  import opened Schema
  import opened InsertStatement

  const OPEN: set<char> := {'('}
  const CLOSE: set<char> := {')'}
  const IN_LIST: set<char> := {',', ')'}

  // ---------- the reader: its words are those of the database, not of the printer ----------

  function ReadSlot(text: string): Option<Slot> {
    if text == "default" then Some(Default)
    else if |text| > 1 && text[0] == '$' && AllDigits(text[1..]) then Some(Placeholder(Value(text[1..])))
    else None
  }

  function ReadSlots(texts: seq<string>): Option<seq<Slot>> {
    if forall i :: 0 <= i < |texts| ==> ReadSlot(texts[i]).Some?
    then Some(seq(|texts|, i requires 0 <= i < |texts| => ReadSlot(texts[i]).value))
    else None
  }

  function ReadList(text: string): seq<string> {
    if text == "" then [] else Split(text, ',')
  }

  function AfterPrefix(s: string, prefix: string): Option<string> {
    if prefix <= s then Some(s[|prefix|..]) else None
  }

  /** What follows the list of columns. */
  function ReadValues(table: string, columns: seq<string>, s: string): Option<Insert> {
    var values := ReadSlots(ReadList(Before(s, CLOSE)));
    var end := From(s, CLOSE);
    if values.None? || (end != ")" && end != ") returning *") then None
    else Some(Insert(table, columns, values.value, end != ")"))
  }

  function ReadColumns(table: string, s: string): Option<Insert> {
    var rest := AfterPrefix(From(s, CLOSE), ") values (");
    if rest.None? then None else ReadValues(table, ReadList(Before(s, CLOSE)), rest.value)
  }

  function ReadTable(s: string): Option<Insert> {
    var front, rest := Before(s, OPEN), From(s, OPEN);
    if front == "" || front[|front| - 1] != ' ' || rest == "" then None
    else ReadColumns(front[..|front| - 1], rest[1..])
  }

  function ReadInsert(s: string): Option<Insert> {
    var rest := AfterPrefix(s, "insert into ");
    if rest.None? then None else ReadTable(rest.value)
  }

  // ---------- it reads every statement with plain names back ----------

  predicate PlainName(name: string) {
    name != "" && Free(name, IN_LIST)
  }

  predicate PlainNames(names: seq<string>) {
    forall i :: 0 <= i < |names| ==> PlainName(names[i])
  }

  lemma PrefixRead(prefix: string, rest: string)
    ensures AfterPrefix(prefix + rest, prefix) == Some(rest)
  {
  }

  lemma ListRead(names: seq<string>)
    requires PlainNames(names)
    ensures ReadList(Join(names, ",")) == names
    ensures Free(Join(names, ","), CLOSE)
  {
    forall i | 0 <= i < |names| ensures Free(names[i], {','}) && Free(names[i], CLOSE) {
      assert PlainName(names[i]);
      FreeOfFewer(names[i], IN_LIST, {','});
      FreeOfFewer(names[i], IN_LIST, CLOSE);
    }
    FreeMeans(",", CLOSE);
    JoinFree(names, ",", CLOSE);
    if names != [] {
      assert PlainName(names[0]);
      assert |Join(names, ",")| >= |names[0]|;
      SplitJoin(names, ',');
    }
  }

  lemma SlotRead(s: Slot)
    ensures ReadSlot(SlotText(s)) == Some(s)
    ensures PlainName(SlotText(s))
  {
    var text := SlotText(s);
    FreeMeans(text, IN_LIST);
    if s.Placeholder? {
      var digits := Decimal(s.number);
      ValueDecimal(s.number);
      assert text[0] == '$' && text[1..] == digits;
      assert forall i :: 1 <= i < |text| ==> text[i] == digits[i - 1];
    }
  }

  lemma SlotsRead(slots: seq<Slot>)
    ensures ReadSlots(SlotTexts(slots)) == Some(slots)
    ensures PlainNames(SlotTexts(slots))
  {
    forall i | 0 <= i < |slots|
      ensures ReadSlot(SlotTexts(slots)[i]) == Some(slots[i]) && PlainName(SlotTexts(slots)[i])
    {
      SlotRead(slots[i]);
    }
    hide ReadSlot, SlotText;
    assert ReadSlots(SlotTexts(slots)).value == slots;
  }

  function Ending(returning: bool): string { if returning then RETURNING else ")" }

  lemma ValuesRead(ins: Insert)
    ensures ReadValues(ins.table, ins.columns, Join(SlotTexts(ins.values), ",") + Ending(ins.returning)) == Some(ins)
  {
    hide ReadSlots, ReadList;
    SlotsRead(ins.values);
    ListRead(SlotTexts(ins.values));
    CutAt(Join(SlotTexts(ins.values), ","), Ending(ins.returning), CLOSE);
  }

  lemma ColumnsRead(ins: Insert)
    requires PlainNames(ins.columns)
    ensures var rest := Join(SlotTexts(ins.values), ",") + Ending(ins.returning);
            ReadColumns(ins.table, Join(ins.columns, ",") + (VALUES + rest)) == Some(ins)
  {
    hide ReadValues, ReadList, AfterPrefix;
    var rest := Join(SlotTexts(ins.values), ",") + Ending(ins.returning);
    ListRead(ins.columns);
    CutAt(Join(ins.columns, ","), VALUES + rest, CLOSE);
    PrefixRead(VALUES, rest);
    ValuesRead(ins);
  }

  lemma TableRead(table: string, s: string)
    requires Free(table, OPEN)
    ensures ReadTable(table + " (" + s) == ReadColumns(table, s)
  {
    hide ReadColumns;
    assert table + " (" + s == (table + " ") + ("(" + s);
    FreeMeans(" ", OPEN);
    FreeConcat(table, " ", OPEN);
    CutAt(table + " ", "(" + s, OPEN);
    assert (table + " ")[..|table|] == table && ("(" + s)[1..] == s;
  }

  /** The reader undoes the printer. */
  lemma ReadPrinted(ins: Insert)
    requires Free(ins.table, OPEN) && PlainNames(ins.columns)
    ensures ReadInsert(PrintInsert(ins)) == Some(ins)
  {
    hide ReadTable, ReadColumns, AfterPrefix, Join, SlotTexts;
    var rest := Join(SlotTexts(ins.values), ",") + Ending(ins.returning);
    var body := Join(ins.columns, ",") + (VALUES + rest);
    assert PrintInsert(ins) == INSERT + (ins.table + " (" + body);
    PrefixRead(INSERT, ins.table + " (" + body);
    TableRead(ins.table, body);
    ColumnsRead(ins);
  }

  // ---------- the statement of a row ----------

  predicate PlainTable(t: Table) {
    && Free(t.name, OPEN) && DistinctNames(t.columns)
    && forall i :: 0 <= i < |t.columns| ==> PlainName(t.columns[i].name)
  }

  lemma {:induction false} NamesArePlain(columns: seq<Column>, dirty: seq<bool>, n: nat)
    requires n <= |columns| == |dirty|
    requires forall i :: 0 <= i < |columns| ==> PlainName(columns[i].name)
    ensures PlainNames(Names(columns, dirty, n))
  {
    if n > 0 { NamesArePlain(columns, dirty, n - 1); }
  }

  /** The printed statement, read back, is executed with the bound values if and only if it lists a
      column, and then stores exactly the dirty settable cells in the row's table. */
  predicate InsertsRow(t: Table, dirty: seq<bool>, cells: seq<Option<Cell>>)
    requires |t.columns| == |dirty| == |cells|
  {
    var ins := ReadInsert(PrintInsert(RowInsert(t, dirty)));
    && ins.Some? && ins.value.table == t.name
    && ins.value.returning == NeedSelection(t.columns, dirty, |dirty|)
    && var row := Execute(ins.value, Args(t.columns, dirty, cells, |dirty|));
    && (row.Some? <==> SomeListed(t.columns, dirty, |dirty|))
    && (row.Some? ==> RowOf(row.value, t.columns, dirty, cells, |dirty|))
  }

  /** From text to row, for every plain table, mask and cells. */
  lemma InsertedRow(t: Table, dirty: seq<bool>, cells: seq<Option<Cell>>)
    requires |t.columns| == |dirty| == |cells| && PlainTable(t)
    ensures InsertsRow(t, dirty, cells)
  {
    NamesArePlain(t.columns, dirty, |dirty|);
    ReadPrinted(RowInsert(t, dirty));
    InsertMeaning(t, dirty, cells);
  }
}
