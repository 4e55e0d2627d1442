/** Which JSON objects two tables take, and what a project is written as, key by key. */
module TableObjects {
  import opened Text
  import opened Wrappers
  import opened Schema
  import opened InsertStatement
  import opened JsonRows
  import opened RowCheck
  import opened Tables

  // ---------- what is accepted ----------

  predicate IsText(json: Object, key: string) {
    key in json && json[key].String?
  }

  /** At most 255 characters before the first NUL. */
  predicate IsShort(json: Object, key: string) {
    IsText(json, key) && |Before(json[key].text, {'\0'})| <= 255
  }

  predicate IsNull(json: Object, key: string) {
    key in json && json[key] == Null
  }

  predicate IsFlag(json: Object, key: string) {
    key in json && json[key].Boolean?
  }

  lemma RequiredText(c: Column, json: Object)
    requires c.kind.Plain? && c.type_.TextType? && c.notNull && c.limit in {0, 255}
    ensures CreationError(c, json).None? <==> if c.limit == 255 then IsShort(json, c.name) else IsText(json, c.name)
  {
    if IsText(json, c.name) { LengthBeforeNul(json[c.name].text); }
  }

  lemma NullableText(c: Column, json: Object)
    requires c.kind.Plain? && c.type_.TextType? && !c.notNull && c.limit in {0, 255}
    ensures CreationError(c, json).None? <==>
              || c.name !in json || IsNull(json, c.name)
              || if c.limit == 255 then IsShort(json, c.name) else IsText(json, c.name)
  {
    if IsText(json, c.name) { LengthBeforeNul(json[c.name].text); }
  }

  lemma DefaultedColumn(c: Column, json: Object)
    requires c.kind.Defaulted? && c.notNull && c.limit in {0, 255}
    requires !c.type_.Int64Type? && (c.limit == 255 <==> c.type_.TextType?)
    ensures CreationError(c, json).None? <==>
              || c.name !in json
              || match c.type_
                 case TextType => IsShort(json, c.name)
                 case BoolType => IsFlag(json, c.name)
                 case _ => IsText(json, c.name)
  {
    if IsText(json, c.name) { LengthBeforeNul(json[c.name].text); }
  }

  /** A project is accepted if and only if it has these seven texts, and its other entries, where
      there are any, are of these kinds. */
  lemma ProjectAcceptedIff(json: Object)
    ensures Accepted(PROJECT, json) <==>
              && IsText(json, "id") && IsText(json, "name") && IsText(json, "source_path")
              && IsText(json, "source_repo") && IsText(json, "source_branch")
              && ("is_community" in json ==> IsFlag(json, "is_community"))
              && IsShort(json, "type") && IsText(json, "platforms")
              && ("search_vector" in json ==> IsNull(json, "search_vector") || IsText(json, "search_vector"))
              && ("created_at" in json ==> IsText(json, "created_at"))
              && ("is_public" in json ==> IsFlag(json, "is_public"))
              && ("modid" in json ==> IsNull(json, "modid") || IsShort(json, "modid"))
              && ("is_virtual" in json ==> IsFlag(json, "is_virtual"))
              && ("visibility" in json ==> IsShort(json, "visibility"))
              && ("flags" in json ==> IsNull(json, "flags") || IsText(json, "flags"))
  {
    hide CreationError, IsText, IsShort, IsNull, IsFlag;
    var cs := PROJECT.columns;
    RequiredText(cs[0], json);
    RequiredText(cs[1], json);
    RequiredText(cs[2], json);
    RequiredText(cs[3], json);
    RequiredText(cs[4], json);
    DefaultedColumn(cs[5], json);
    RequiredText(cs[6], json);
    RequiredText(cs[7], json);
    NullableText(cs[8], json);
    DefaultedColumn(cs[9], json);
    DefaultedColumn(cs[10], json);
    NullableText(cs[11], json);
    DefaultedColumn(cs[12], json);
    DefaultedColumn(cs[13], json);
    NullableText(cs[14], json);
    AllOf(PROJECT, json);
  }

  predicate Fine(t: Table, json: Object, i: nat)
    requires i < |t.columns|
  {
    CreationError(t.columns[i], json).None?
  }

  lemma AllOf(t: Table, json: Object)
    requires |t.columns| == 15
    ensures Accepted(t, json) <==>
              && Fine(t, json, 0) && Fine(t, json, 1) && Fine(t, json, 2) && Fine(t, json, 3) && Fine(t, json, 4)
              && Fine(t, json, 5) && Fine(t, json, 6) && Fine(t, json, 7) && Fine(t, json, 8) && Fine(t, json, 9)
              && Fine(t, json, 10) && Fine(t, json, 11) && Fine(t, json, 12) && Fine(t, json, 13) && Fine(t, json, 14)
  {
    hide CreationError;
  }

  /** An access key is accepted if and only if it has a name and a value, no key of its own, and its
      other entries, where there are any, are of these kinds. */
  lemma AccessKeyAcceptedIff(json: Object)
    ensures Accepted(ACCESS_KEY, json) <==>
              && "id" !in json && IsText(json, "name") && IsText(json, "value")
              && ("user_id" in json ==> IsNull(json, "user_id") || IsText(json, "user_id"))
              && ("expires_at" in json ==> IsNull(json, "expires_at") || IsText(json, "expires_at"))
              && ("created_at" in json ==> IsText(json, "created_at"))
  {
    var cs := ACCESS_KEY.columns;
    assert CreationError(cs[0], json).None? <==> "id" !in json;
    assert CreationError(cs[4], json).None? <==>
             "expires_at" !in json || IsNull(json, "expires_at") || IsText(json, "expires_at");
    hide CreationError, IsText, IsShort, IsNull;
    RequiredText(cs[1], json);
    RequiredText(cs[2], json);
    NullableText(cs[3], json);
    DefaultedColumn(cs[5], json);
    assert Accepted(ACCESS_KEY, json) <==>
             && Fine(ACCESS_KEY, json, 0) && Fine(ACCESS_KEY, json, 1) && Fine(ACCESS_KEY, json, 2)
             && Fine(ACCESS_KEY, json, 3) && Fine(ACCESS_KEY, json, 4) && Fine(ACCESS_KEY, json, 5);
  }

  /** A membership is accepted if and only if it has its three texts. */
  lemma UserProjectAcceptedIff(json: Object)
    ensures Accepted(USER_PROJECT, json) <==>
              IsText(json, "user_id") && IsText(json, "project_id") && IsShort(json, "role")
  {
    hide CreationError, IsText, IsShort;
    var cs := USER_PROJECT.columns;
    RequiredText(cs[0], json);
    RequiredText(cs[1], json);
    RequiredText(cs[2], json);
    assert Accepted(USER_PROJECT, json) <==>
             Fine(USER_PROJECT, json, 0) && Fine(USER_PROJECT, json, 1) && Fine(USER_PROJECT, json, 2);
  }

  // ---------- objects that are accepted, and complaints about others ----------

  function ProjectObject(isPublic: Json, visibility: string): Object {
    map["id" := String("p"), "name" := String("P"), "source_path" := String("docs"), "source_repo" := String("r"),
        "source_branch" := String("main"), "is_community" := Boolean(false), "type" := String("mod"),
        "platforms" := String("{}"), "modid" := Null, "is_public" := isPublic, "visibility" := String(visibility)]
  }

  lemma LengthWithoutNul(text: string, rest: string)
    requires '\0' !in text && (rest != "" ==> rest[0] == '\0')
    ensures Before(text + rest, {'\0'}) == text
  {
    FreeMeans(text, {'\0'});
    CutAt(text, rest, {'\0'});
  }

  lemma ExampleAcceptedIff(isPublic: Json, visibility: string)
    ensures Accepted(PROJECT, ProjectObject(isPublic, visibility)) <==>
              isPublic.Boolean? && |Before(visibility, {'\0'})| <= 255
  {
    hide Accepted, Before;
    var json := ProjectObject(isPublic, visibility);
    ShortMod();
    ProjectAcceptedIff(json);
  }

  lemma ShortMod()
    ensures |Before("mod", {'\0'})| <= 255
  {
    LengthWithoutNul("mod", "");
    assert "mod" + "" == "mod";
  }

  /** Truth values are accepted and numbers in their place are not; a visibility may have 255
      characters, whatever stands behind a NUL, and not 256. */
  lemma ProjectExamples(long: string, longer: string, rest: string)
    requires '\0' !in long && |long| == 255 && '\0' !in longer && |longer| == 256
    requires rest != "" ==> rest[0] == '\0'
    ensures Accepted(PROJECT, ProjectObject(Boolean(true), "public"))
    ensures !Accepted(PROJECT, ProjectObject(Integer(1), "public"))
    ensures Accepted(PROJECT, ProjectObject(Boolean(false), long + rest))
    ensures !Accepted(PROJECT, ProjectObject(Boolean(false), longer + rest))
  {
    hide Accepted, ProjectObject, Before;
    LengthWithoutNul("public", "");
    assert "public" + "" == "public";
    LengthWithoutNul(long, rest);
    LengthWithoutNul(longer, rest);
    ExampleAcceptedIff(Boolean(true), "public");
    ExampleAcceptedIff(Integer(1), "public");
    ExampleAcceptedIff(Boolean(false), long + rest);
    ExampleAcceptedIff(Boolean(false), longer + rest);
  }

  lemma TwoHundredFiftyFive()
    ensures Decimal(255) == "255"
  {
    assert Decimal(2) == "2" && Decimal(25) == "25";
  }

  /** One complaint of each kind, word for word. */
  lemma Complaints(json: Object, longer: string)
    requires '\0' !in longer && |longer| == 256
    ensures "name" !in json ==> CreationError(PROJECT.columns[1], json) == Some("The name column cannot be null")
    ensures IsNull(json, "is_public") ==>
              CreationError(PROJECT.columns[10], json) == Some("The is_public column cannot be null")
    ensures "is_public" in json && json["is_public"] == Integer(1) ==>
              CreationError(PROJECT.columns[10], json) == Some("Type error in the is_public field")
    ensures "modid" in json && json["modid"] == String(longer) ==>
              CreationError(PROJECT.columns[11], json) ==
              Some("String length exceeds limit for the " + "modid" + " field (the maximum value is 255)")
    ensures "id" in json && json["id"].Integer? ==>
              CreationError(ACCESS_KEY.columns[0], json) == Some("The automatic primary key cannot be set")
  {
    LengthBeforeNul(longer);
    LengthWithoutNul(longer, "");
    assert longer + "" == longer;
    TwoHundredFiftyFive();
    NullTexts();
    TypeText();
    LengthText();
  }

  lemma NullTexts()
    ensures "The " + "name" + " column cannot be null" == "The name column cannot be null"
    ensures "The " + "is_public" + " column cannot be null" == "The is_public column cannot be null"
  {
  }

  lemma TypeText()
    ensures "Type error in the " + "is_public" + " field" == "Type error in the is_public field"
  {
  }

  lemma LengthText()
    ensures "String length exceeds limit for the " + "modid" + " field (the maximum value is " + "255" + ")"
         == "String length exceeds limit for the " + "modid" + " field (the maximum value is 255)"
  {
    assert " field (the maximum value is " + "255" + ")" == " field (the maximum value is 255)";
    Behind("String length exceeds limit for the " + "modid", " field (the maximum value is ", "255", ")");
  }

  lemma Behind(a: string, b: string, c: string, d: string)
    ensures a + b + c + d == a + (b + c + d)
  {
  }

  // ---------- what rows are written as ----------

  function ProjectCells(flag: bool, micros: int): seq<Option<Cell>> {
    [Some(TextCell("p")), Some(TextCell("P")), Some(TextCell("docs")), Some(TextCell("r")), Some(TextCell("main")),
     Some(BoolCell(false)), Some(TextCell("mod")), Some(TextCell("{}")), None, Some(TimestampCell(micros)),
     Some(BoolCell(flag)), None, Some(BoolCell(false)), Some(TextCell("public")), None]
  }

  function ProjectWritten(flag: bool, micros: int, calendar: Calendar): Object {
    WholeObject(ProjectCells(flag, micros), PROJECT.columns, calendar, 15)
  }

  /** A project has fifteen keys. The next four results go through them: texts are written as texts,
      truth values as truth values, and nothing as null. */
  lemma FifteenKeys(flag: bool, micros: int, calendar: Calendar)
    ensures |ProjectWritten(flag, micros, calendar).Keys| == 15
  {
    ProjectNamesDiffer();
    hide DistinctNames;
    WholeSize(ProjectCells(flag, micros), PROJECT.columns, calendar, 15);
  }

  lemma FirstKeys(flag: bool, micros: int, calendar: Calendar)
    ensures Entry(ProjectWritten(flag, micros, calendar), "id") == Some(String("p"))
    ensures Entry(ProjectWritten(flag, micros, calendar), "name") == Some(String("P"))
    ensures Entry(ProjectWritten(flag, micros, calendar), "source_path") == Some(String("docs"))
  {
    ProjectNamesDiffer();
    var t, cells := PROJECT, ProjectCells(flag, micros);
    hide DistinctNames, WholeObject;
    WrittenAt(t, cells, calendar, 0, "id", String("p"));
    WrittenAt(t, cells, calendar, 1, "name", String("P"));
    WrittenAt(t, cells, calendar, 2, "source_path", String("docs"));
  }

  lemma SourceKeys(flag: bool, micros: int, calendar: Calendar)
    ensures Entry(ProjectWritten(flag, micros, calendar), "source_repo") == Some(String("r"))
    ensures Entry(ProjectWritten(flag, micros, calendar), "source_branch") == Some(String("main"))
    ensures Entry(ProjectWritten(flag, micros, calendar), "is_community") == Some(Boolean(false))
    ensures Entry(ProjectWritten(flag, micros, calendar), "type") == Some(String("mod"))
  {
    ProjectNamesDiffer();
    var t, cells := PROJECT, ProjectCells(flag, micros);
    hide DistinctNames, WholeObject;
    WrittenAt(t, cells, calendar, 3, "source_repo", String("r"));
    WrittenAt(t, cells, calendar, 4, "source_branch", String("main"));
    WrittenAt(t, cells, calendar, 5, "is_community", Boolean(false));
    WrittenAt(t, cells, calendar, 6, "type", String("mod"));
  }

  lemma MiddleKeys(flag: bool, micros: int, calendar: Calendar)
    ensures Entry(ProjectWritten(flag, micros, calendar), "platforms") == Some(String("{}"))
    ensures Entry(ProjectWritten(flag, micros, calendar), "search_vector") == Some(Null)
    ensures Entry(ProjectWritten(flag, micros, calendar), "created_at") == Some(String(calendar.write(micros)))
    ensures Entry(ProjectWritten(flag, micros, calendar), "is_public") == Some(Boolean(flag))
  {
    ProjectNamesDiffer();
    var t, cells := PROJECT, ProjectCells(flag, micros);
    hide DistinctNames, WholeObject;
    WrittenAt(t, cells, calendar, 7, "platforms", String("{}"));
    WrittenAt(t, cells, calendar, 8, "search_vector", Null);
    WrittenAt(t, cells, calendar, 9, "created_at", String(calendar.write(micros)));
    WrittenAt(t, cells, calendar, 10, "is_public", Boolean(flag));
  }

  lemma LastKeys(flag: bool, micros: int, calendar: Calendar)
    ensures Entry(ProjectWritten(flag, micros, calendar), "modid") == Some(Null)
    ensures Entry(ProjectWritten(flag, micros, calendar), "is_virtual") == Some(Boolean(false))
    ensures Entry(ProjectWritten(flag, micros, calendar), "visibility") == Some(String("public"))
    ensures Entry(ProjectWritten(flag, micros, calendar), "flags") == Some(Null)
  {
    ProjectNamesDiffer();
    var t, cells := PROJECT, ProjectCells(flag, micros);
    hide DistinctNames, WholeObject;
    WrittenAt(t, cells, calendar, 11, "modid", Null);
    WrittenAt(t, cells, calendar, 12, "is_virtual", Boolean(false));
    WrittenAt(t, cells, calendar, 13, "visibility", String("public"));
    WrittenAt(t, cells, calendar, 14, "flags", Null);
  }

  function Entry(json: Object, key: string): Option<Json> {
    if key in json then Some(json[key]) else None
  }

  lemma WrittenAt(t: Table, cells: seq<Option<Cell>>, calendar: Calendar, i: nat, name: string, value: Json)
    requires i < |t.columns| == |cells| && DistinctNames(t.columns)
    requires t.columns[i].name == name && JsonOf(cells[i], calendar) == value
    ensures Entry(WholeObject(cells, t.columns, calendar, |cells|), name) == Some(value)
  {
    WholeHolds(cells, t.columns, calendar, |cells|);
  }

  lemma {:induction false} WholeSize(cells: seq<Option<Cell>>, columns: seq<Column>, calendar: Calendar, n: nat)
    requires n <= |cells| == |columns| && DistinctNames(columns)
    ensures |WholeObject(cells, columns, calendar, n).Keys| == n
  {
    if n > 0 {
      WholeSize(cells, columns, calendar, n - 1);
      WholeHolds(cells, columns, calendar, n - 1);
      var front, name := WholeObject(cells, columns, calendar, n - 1), columns[n - 1].name;
      assert name !in front;
      assert WholeObject(cells, columns, calendar, n).Keys == front.Keys + {name};
    }
  }
}
