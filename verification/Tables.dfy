/** Two tables of the database, as the code generated for them treats them. */
module Tables {
  import opened Text
  import opened Wrappers
  import opened Schema
  import opened InsertStatement
  import opened InsertText
  import opened JsonRows
  import opened RowCheck

  const PROJECT := Table("\"project\"", [
    Column("id", Plain, TextType, true, 0),
    Column("name", Plain, TextType, true, 0),
    Column("source_path", Plain, TextType, true, 0),
    Column("source_repo", Plain, TextType, true, 0),
    Column("source_branch", Plain, TextType, true, 0),
    Column("is_community", Defaulted, BoolType, true, 0),
    Column("type", Plain, TextType, true, 255),
    Column("platforms", Plain, TextType, true, 0),
    Column("search_vector", Plain, TextType, false, 0),
    Column("created_at", Defaulted, TimestampType, true, 0),
    Column("is_public", Defaulted, BoolType, true, 0),
    Column("modid", Plain, TextType, false, 255),
    Column("is_virtual", Defaulted, BoolType, true, 0),
    Column("visibility", Defaulted, TextType, true, 255),
    Column("flags", Plain, TextType, false, 0)
  ])

  const ACCESS_KEY := Table("\"access_key\"", [
    Column("id", Auto, Int64Type, true, 0),
    Column("name", Plain, TextType, true, 0),
    Column("value", Plain, TextType, true, 0),
    Column("user_id", Plain, TextType, false, 0),
    Column("expires_at", Plain, TimestampType, false, 0),
    Column("created_at", Defaulted, TimestampType, true, 0)
  ])

  /** A table of plain columns only. */
  const USER_PROJECT := Table("\"user_project\"", [
    Column("user_id", Plain, TextType, true, 0),
    Column("project_id", Plain, TextType, true, 0),
    Column("role", Plain, TextType, true, 255)
  ])

  lemma PlainText(name: string)
    requires name != "" && forall i :: 0 <= i < |name| ==> name[i] != ',' && name[i] != ')'
    ensures PlainName(name)
  {
    FreeMeans(name, IN_LIST);
  }

  lemma ProjectNames()
    ensures forall i :: 0 <= i < |PROJECT.columns| ==> PlainName(PROJECT.columns[i].name)
  {
    hide PlainName;
    forall i | 0 <= i < |PROJECT.columns| ensures PlainName(PROJECT.columns[i].name) {
      PlainText(PROJECT.columns[i].name);
    }
  }

  lemma ProjectNamesDiffer()
    ensures DistinctNames(PROJECT.columns)
  {
  }

  lemma AccessKeyNames()
    ensures forall i :: 0 <= i < |ACCESS_KEY.columns| ==> PlainName(ACCESS_KEY.columns[i].name)
    ensures DistinctNames(ACCESS_KEY.columns)
  {
    hide PlainName;
    forall i | 0 <= i < |ACCESS_KEY.columns| ensures PlainName(ACCESS_KEY.columns[i].name) {
      PlainText(ACCESS_KEY.columns[i].name);
    }
  }

  lemma ProjectSelects(dirty: seq<bool>)
    requires |dirty| == 15
    ensures NeedSelection(PROJECT.columns, dirty, 15)
            <==> !(dirty[5] && dirty[9] && dirty[10] && dirty[12] && dirty[13])
  {
    assert PROJECT.columns[5].kind.Defaulted? && PROJECT.columns[9].kind.Defaulted?;
    assert PROJECT.columns[10].kind.Defaulted?;
    assert PROJECT.columns[12].kind.Defaulted? && PROJECT.columns[13].kind.Defaulted?;
  }

  /** The insert of a project does what it should for every choice of dirty columns, and asks for
      the stored row back unless all five defaulted columns are given. */
  lemma ProjectInsert(dirty: seq<bool>, cells: seq<Option<Cell>>)
    requires |PROJECT.columns| == |dirty| == |cells|
    ensures InsertsRow(PROJECT, dirty, cells)
    ensures RowInsert(PROJECT, dirty).returning <==> !(dirty[5] && dirty[9] && dirty[10] && dirty[12] && dirty[13])
  {
    ProjectSelects(dirty);
    ProjectNames();
    ProjectNamesDiffer();
    FreeMeans(PROJECT.name, OPEN);
    hide PlainName, DistinctNames, InsertsRow, NeedSelection;
    InsertedRow(PROJECT, dirty, cells);
  }

  /** The insert of an access key always lets the database choose the key, under the first name and
      whatever its cell holds, and so always asks for the stored row back. */
  lemma AccessKeyInsert(dirty: seq<bool>, cells: seq<Option<Cell>>)
    requires |ACCESS_KEY.columns| == |dirty| == |cells|
    ensures InsertsRow(ACCESS_KEY, dirty, cells)
    ensures var ins := RowInsert(ACCESS_KEY, dirty);
            && ins.returning && ins.columns != [] && ins.values != []
            && ins.columns[0] == "id" && ins.values[0] == Default
  {
    AccessKeyNames();
    FreeMeans(ACCESS_KEY.name, OPEN);
    FirstIsAuto(ACCESS_KEY, dirty);
    hide PlainName, DistinctNames, InsertsRow, NeedSelection, RowInsert;
    InsertedRow(ACCESS_KEY, dirty, cells);
  }

  lemma UserProjectNames()
    ensures PlainTable(USER_PROJECT)
  {
    hide PlainName;
    FreeMeans(USER_PROJECT.name, OPEN);
    forall i | 0 <= i < |USER_PROJECT.columns| ensures PlainName(USER_PROJECT.columns[i].name) {
      PlainText(USER_PROJECT.columns[i].name);
    }
  }

  /** The insert of a membership is executed if and only if some column was set. */
  lemma UserProjectInsert(dirty: seq<bool>, cells: seq<Option<Cell>>)
    requires |USER_PROJECT.columns| == |dirty| == |cells|
    ensures InsertsRow(USER_PROJECT, dirty, cells)
    ensures Execute(RowInsert(USER_PROJECT, dirty), Args(USER_PROJECT.columns, dirty, cells, 3)).None?
            <==> dirty == [false, false, false]
  {
    UserProjectNames();
    InsertedRow(USER_PROJECT, dirty, cells);
    InsertMeaning(USER_PROJECT, dirty, cells);
    AllPlain(dirty);
  }

  lemma AllPlain(dirty: seq<bool>)
    requires |USER_PROJECT.columns| == |dirty|
    ensures SomeListed(USER_PROJECT.columns, dirty, 3) <==> dirty != [false, false, false]
  {
    var columns := USER_PROJECT.columns;
    assert columns[0].kind.Plain? && columns[1].kind.Plain? && columns[2].kind.Plain?;
    if dirty != [false, false, false] {
      assert dirty[0] || dirty[1] || dirty[2];
      assert Listed(columns[0], dirty[0]) || Listed(columns[1], dirty[1]) || Listed(columns[2], dirty[2]);
    }
  }

  /** An access key whose creation time is a text no calendar reads: the object is accepted, and
      `created_at`, which may not be null, is given null. */
  lemma UnreadableTimeIsNull(calendar: Calendar)
    requires ReadMicros("soon", calendar).None?
    ensures var json := map["name" := String("n"), "value" := String("v"), "created_at" := String("soon")];
            && Accepted(ACCESS_KEY, json)
            && var built := RowFrom(ACCESS_KEY.columns, ColumnNames(ACCESS_KEY.columns), json, calendar);
            && built.Some? && Fits(built.value, ACCESS_KEY.columns)
            && StoredRow(ACCESS_KEY, built.value).Some?
            && IsGivenNull(ACCESS_KEY, StoredRow(ACCESS_KEY, built.value).value, 5)
  {
    var json := map["name" := String("n"), "value" := String("v"), "created_at" := String("soon")];
    UnreadableKey(json, calendar);
    AccessKeyNames();
    AcceptedRow(ACCESS_KEY, json, calendar);
    hide RowFrom, StoredRow, Unreadable, DistinctNames, WellTyped, Accepted, GivesColumn, AssignedTo;
    var built := RowFrom(ACCESS_KEY.columns, ColumnNames(ACCESS_KEY.columns), json, calendar).value;
    assert GivenAsChecked(ACCESS_KEY.columns[5], json, calendar, StoredRow(ACCESS_KEY, built).value, built.cells[5]);
  }

  lemma UnreadableKey(json: Object, calendar: Calendar)
    requires json == map["name" := String("n"), "value" := String("v"), "created_at" := String("soon")]
    requires ReadMicros("soon", calendar).None?
    ensures Accepted(ACCESS_KEY, json) && GivesColumn(ACCESS_KEY, json)
    ensures Unreadable(ACCESS_KEY.columns[5], json, calendar) && !ACCESS_KEY.columns[5].kind.Auto?
    ensures ACCESS_KEY.columns[5].notNull
  {
    assert ACCESS_KEY.columns[5].kind.Defaulted?;
  }

  lemma FirstIsAuto(t: Table, dirty: seq<bool>)
    requires |dirty| == |t.columns| > 0 && t.columns[0].kind.Auto?
    ensures var ins := RowInsert(t, dirty);
            && ins.returning && ins.columns != [] && ins.values != []
            && ins.columns[0] == t.columns[0].name && ins.values[0] == Default
  {
    var cells := seq(|dirty|, i => None);
    Alignment(t, dirty, cells, 0);
    assert Names(t.columns, dirty, 0) == [];
  }

  /** An accepted project names its seven required columns and gives none of them null; a null for a
      column that may not be null comes only from a creation time the calendar cannot read. */
  lemma AcceptedProject(json: Object, calendar: Calendar)
    requires Accepted(PROJECT, json)
    ensures var built := RowFrom(PROJECT.columns, ColumnNames(PROJECT.columns), json, calendar);
            && built.Some? && Fits(built.value, PROJECT.columns)
            && var stored := StoredRow(PROJECT, built.value);
            && stored.Some?
            && (forall i :: i in {0, 1, 2, 3, 4, 6, 7} ==>
                  && PROJECT.columns[i].name in stored.value
                  && AssignedTo(stored.value, PROJECT.columns[i].name) != Given(None))
            && ((exists i :: 0 <= i < 15 && IsGivenNull(PROJECT, stored.value, i))
                <==> Unreadable(PROJECT.columns[9], json, calendar))
  {
    ProjectNamesDiffer();
    AcceptedRow(PROJECT, json, calendar);
    NoNullIff(PROJECT, json, calendar);
    OnlyCreatedAt(json, calendar);
    assert GivesColumn(PROJECT, json);
    hide RowFrom, StoredRow, Unreadable, DistinctNames, WellTyped, Accepted, GivesColumn;
  }

  lemma OnlyCreatedAt(json: Object, calendar: Calendar)
    ensures forall i :: 0 <= i < 15 && i != 9 ==> !Unreadable(PROJECT.columns[i], json, calendar)
    ensures !PROJECT.columns[9].kind.Auto? && PROJECT.columns[9].kind.Defaulted?
    ensures forall i :: i in {0, 1, 2, 3, 4, 6, 7} ==> Required(PROJECT.columns[i]) && PROJECT.columns[i].notNull
  {
    assert forall i :: 0 <= i < 15 && i != 9 ==> !PROJECT.columns[i].type_.TimestampType?;
  }
}
