/** The statements of three rows, letter by letter. */
module TableTexts {
  import opened Text
  import opened Wrappers
  import opened Schema
  import opened InsertStatement
  import opened Tables

  /** The lists of the first `n` columns are these. */
  predicate Lists(t: Table, dirty: seq<bool>, n: nat, names: seq<string>, slots: seq<Slot>, bound: nat)
    requires n <= |t.columns| == |dirty|
  {
    && Names(t.columns, dirty, n) == names && Slots(t.columns, dirty, n) == slots
    && BoundCount(t.columns, dirty, n) == bound
  }

  lemma NoColumns(t: Table, dirty: seq<bool>)
    requires |t.columns| == |dirty|
    ensures Lists(t, dirty, 0, [], [], 0)
  {
  }

  /** One more column. */
  lemma Next(t: Table, dirty: seq<bool>, n: nat, names: seq<string>, slots: seq<Slot>, bound: nat)
    requires n < |t.columns| == |dirty| && Lists(t, dirty, n, names, slots, bound)
    ensures var c := t.columns[n];
            if Bound(c, dirty[n]) then
              Lists(t, dirty, n + 1, names + [c.name], slots + [Placeholder(bound + 1)], bound + 1)
            else if Listed(c, dirty[n]) then Lists(t, dirty, n + 1, names + [c.name], slots + [Default], bound)
            else Lists(t, dirty, n + 1, names, slots, bound)
  {
  }

  lemma Skipped(t: Table, dirty: seq<bool>, n: nat, names: seq<string>, slots: seq<Slot>, bound: nat)
    requires n < |t.columns| == |dirty| && Lists(t, dirty, n, names, slots, bound)
    requires t.columns[n].kind.Plain? && !dirty[n]
    ensures Lists(t, dirty, n + 1, names, slots, bound)
  {
    Next(t, dirty, n, names, slots, bound);
  }

  lemma LeftToDefault(
      t: Table, dirty: seq<bool>, n: nat, names: seq<string>, slots: seq<Slot>, bound: nat, names': seq<string>)
    requires n < |t.columns| == |dirty| && Lists(t, dirty, n, names, slots, bound)
    requires t.columns[n].kind.Defaulted? && !dirty[n] && names' == names + [t.columns[n].name]
    ensures Lists(t, dirty, n + 1, names', slots + [Default], bound)
  {
    Next(t, dirty, n, names, slots, bound);
  }

  lemma JoinMore(part: string, parts: seq<string>)
    ensures Join([part] + parts, ",") == if parts == [] then part else part + "," + Join(parts, ",")
  {
    assert ([part] + parts)[1..] == parts;
  }

  /** The text of the lists. */
  lemma TextOf(t: Table, dirty: seq<bool>, names: seq<string>, slots: seq<Slot>, bound: nat, returning: bool)
    requires |t.columns| == |dirty| && Lists(t, dirty, |dirty|, names, slots, bound)
    requires NeedSelection(t.columns, dirty, |dirty|) == returning
    ensures PrintInsert(RowInsert(t, dirty)) ==
            "insert into " + t.name + " (" + Join(names, ",") + ") values (" + Join(SlotTexts(slots), ",")
            + if returning then ") returning *" else ")"
  {
    hide Names, Slots, Join, SlotTexts, NeedSelection;
  }

  lemma OneDigit(n: nat)
    requires n < 10
    ensures Decimal(n) == [DigitChar(n)]
  {
  }

  lemma SlotsWritten()
    ensures SlotText(Default) == "default" && SlotText(Placeholder(1)) == "$1" && SlotText(Placeholder(2)) == "$2"
    ensures SlotText(Placeholder(3)) == "$3"
  {
    OneDigit(1);
    OneDigit(2);
    OneDigit(3);
    hide Decimal;
    assert "$" + "1" == "$1" && "$" + "2" == "$2" && "$" + "3" == "$3";
  }

  // ---------- a membership of which only the user is set ----------

  const ONLY_USER := [true, false, false]

  lemma UserProjectLists()
    ensures Lists(USER_PROJECT, ONLY_USER, 3, ["user_id"], [Placeholder(1)], 1)
    ensures !NeedSelection(USER_PROJECT.columns, ONLY_USER, 3)
  {
    var t, d := USER_PROJECT, ONLY_USER;
    assert t.columns[0].kind.Plain? && t.columns[1].kind.Plain? && t.columns[2].kind.Plain?;
    hide Lists;
    NoColumns(t, d);
    Next(t, d, 0, [], [], 0);
    assert [] + ["user_id"] == ["user_id"] && [] + [Placeholder(1)] == [Placeholder(1)];
    Next(t, d, 1, ["user_id"], [Placeholder(1)], 1);
    Next(t, d, 2, ["user_id"], [Placeholder(1)], 1);
  }

  lemma UserProjectText()
    ensures PrintInsert(RowInsert(USER_PROJECT, ONLY_USER)) == "insert into \"user_project\" (user_id) values ($1)"
  {
    hide Lists, NeedSelection, PrintInsert, RowInsert, SlotText;
    UserProjectLists();
    SlotsWritten();
    TextOf(USER_PROJECT, ONLY_USER, ["user_id"], [Placeholder(1)], 1, false);
    assert SlotTexts([Placeholder(1)]) == ["$1"];
    assert Join(["user_id"], ",") == "user_id" && Join(["$1"], ",") == "$1";
    UserProjectLetters();
  }

  lemma UserProjectLetters()
    ensures "insert into " + "\"user_project\"" + " (" + "user_id" + ") values (" + "$1" + ")"
         == "insert into \"user_project\" (user_id) values ($1)"
  {
  }

  // ---------- an access key with a name and a value ----------

  const NAMED_KEY := [false, true, true, false, false, false]

  lemma AccessKeyLists()
    ensures Lists(ACCESS_KEY, NAMED_KEY, 6, ["id", "name", "value", "created_at"],
                  [Default, Placeholder(1), Placeholder(2), Default], 2)
    ensures NeedSelection(ACCESS_KEY.columns, NAMED_KEY, 6)
  {
    var t, d := ACCESS_KEY, NAMED_KEY;
    assert t.columns[0].kind.Auto? && t.columns[1].kind.Plain? && t.columns[2].kind.Plain?;
    assert t.columns[3].kind.Plain? && t.columns[4].kind.Plain? && t.columns[5].kind.Defaulted?;
    hide Lists;
    NoColumns(t, d);
    Next(t, d, 0, [], [], 0);
    assert [] + ["id"] == ["id"] && [] + [Default] == [Default];
    Next(t, d, 1, ["id"], [Default], 0);
    assert ["id"] + ["name"] == ["id", "name"] && [Default] + [Placeholder(1)] == [Default, Placeholder(1)];
    Next(t, d, 2, ["id", "name"], [Default, Placeholder(1)], 1);
    var names, slots := ["id", "name", "value"], [Default, Placeholder(1), Placeholder(2)];
    assert ["id", "name"] + ["value"] == names && [Default, Placeholder(1)] + [Placeholder(2)] == slots;
    Next(t, d, 3, names, slots, 2);
    Next(t, d, 4, names, slots, 2);
    Next(t, d, 5, names, slots, 2);
    assert names + ["created_at"] == ["id", "name", "value", "created_at"];
    assert slots + [Default] == [Default, Placeholder(1), Placeholder(2), Default];
  }

  lemma AccessKeyJoined()
    ensures Join(["id", "name", "value", "created_at"], ",") == "id,name,value,created_at"
    ensures Join(["default", "$1", "$2", "default"], ",") == "default,$1,$2,default"
  {
    FourJoined("id", "name", "value", "created_at");
    FourJoined("default", "$1", "$2", "default");
  }

  lemma FourJoined(a: string, b: string, c: string, d: string)
    ensures Join([a, b, c, d], ",") == a + "," + b + "," + c + "," + d
  {
    assert [a] + [b, c, d] == [a, b, c, d] && [b] + [c, d] == [b, c, d] && [c] + [d] == [c, d];
    hide Join;
    JoinMore(a, [b, c, d]);
    JoinMore(b, [c, d]);
    JoinMore(c, [d]);
    JoinMore(d, []);
    assert [d] + [] == [d];
  }

  lemma AccessKeyText()
    ensures PrintInsert(RowInsert(ACCESS_KEY, NAMED_KEY)) ==
            "insert into \"access_key\" (id,name,value,created_at)" + " values (default,$1,$2,default)" + " returning *"
  {
    hide Lists, NeedSelection, PrintInsert, RowInsert, SlotText, Join;
    AccessKeyLists();
    SlotsWritten();
    AccessKeyJoined();
    var slots := [Default, Placeholder(1), Placeholder(2), Default];
    TextOf(ACCESS_KEY, NAMED_KEY, ["id", "name", "value", "created_at"], slots, 2, true);
    assert SlotTexts(slots) == ["default", "$1", "$2", "default"];
    AccessKeyLetters();
  }

  lemma AccessKeyLetters()
    ensures "insert into " + "\"access_key\"" + " (" + "id,name,value,created_at" + ") values ("
            + "default,$1,$2,default" + ") returning *"
         == "insert into \"access_key\" (id,name,value,created_at)" + " values (default,$1,$2,default)" + " returning *"
  {
    KeyFront();
    KeyNames();
    KeyValues();
    var front, names, values, end := "insert into " + "\"access_key\"" + " (", "id,name,value,created_at",
      "default,$1,$2,default", " returning *";
    Regrouped(front, names, ")", " values (", values, ")", end);
    assert ")" + " values (" == ") values (" && ")" + " returning *" == ") returning *";
  }

  lemma KeyFront()
    ensures "insert into " + "\"access_key\"" + " (" == "insert into \"access_key\" ("
  {
  }

  lemma KeyNames()
    ensures "insert into \"access_key\" (" + "id,name,value,created_at" + ")"
         == "insert into \"access_key\" (id,name,value,created_at)"
  {
  }

  lemma KeyValues()
    ensures " values (" + "default,$1,$2,default" + ")" == " values (default,$1,$2,default)"
  {
  }

  lemma Regrouped(a: string, b: string, c: string, d: string, e: string, f: string, g: string)
    ensures a + b + (c + d) + e + (f + g) == (a + b + c) + (d + e + f) + g
  {
  }

  // ---------- a whole membership ----------

  const WHOLE := [true, true, true]

  lemma MembershipLists()
    ensures Lists(USER_PROJECT, WHOLE, 3, ["user_id", "project_id", "role"],
                  [Placeholder(1), Placeholder(2), Placeholder(3)], 3)
    ensures !NeedSelection(USER_PROJECT.columns, WHOLE, 3)
  {
    var t, d := USER_PROJECT, WHOLE;
    assert t.columns[0].kind.Plain? && t.columns[1].kind.Plain? && t.columns[2].kind.Plain?;
    hide Lists;
    NoColumns(t, d);
    Next(t, d, 0, [], [], 0);
    assert [] + ["user_id"] == ["user_id"] && [] + [Placeholder(1)] == [Placeholder(1)];
    Next(t, d, 1, ["user_id"], [Placeholder(1)], 1);
    assert ["user_id"] + ["project_id"] == ["user_id", "project_id"];
    assert [Placeholder(1)] + [Placeholder(2)] == [Placeholder(1), Placeholder(2)];
    Next(t, d, 2, ["user_id", "project_id"], [Placeholder(1), Placeholder(2)], 2);
    assert ["user_id", "project_id"] + ["role"] == ["user_id", "project_id", "role"];
    assert [Placeholder(1), Placeholder(2)] + [Placeholder(3)] == [Placeholder(1), Placeholder(2), Placeholder(3)];
  }

  lemma ThreeJoined(a: string, b: string, c: string)
    ensures Join([a, b, c], ",") == a + "," + b + "," + c
  {
    assert [a] + [b, c] == [a, b, c] && [b] + [c] == [b, c] && [c] + [] == [c];
    hide Join;
    JoinMore(a, [b, c]);
    JoinMore(b, [c]);
    JoinMore(c, []);
  }

  lemma MembershipText()
    ensures PrintInsert(RowInsert(USER_PROJECT, WHOLE)) ==
            "insert into " + "\"user_project\"" + " (" + "user_id,project_id,role" + ") values (" + "$1,$2,$3" + ")"
  {
    hide Lists, NeedSelection, PrintInsert, RowInsert, SlotText, Join;
    MembershipLists();
    SlotsWritten();
    ThreeJoined("user_id", "project_id", "role");
    ThreeJoined("$1", "$2", "$3");
    var slots := [Placeholder(1), Placeholder(2), Placeholder(3)];
    TextOf(USER_PROJECT, WHOLE, ["user_id", "project_id", "role"], slots, 3, false);
    assert SlotTexts(slots) == ["$1", "$2", "$3"];
    MembershipLetters();
  }

  lemma MembershipLetters()
    ensures "user_id" + "," + "project_id" + "," + "role" == "user_id,project_id,role"
    ensures "$1" + "," + "$2" + "," + "$3" == "$1,$2,$3"
  {
  }

  // ---------- a project of which nothing is set ----------

  function Untouched(): seq<bool> {
    seq(15, i => false)
  }

  const NO_NAMES: seq<string> := []
  const ONE_DEFAULT := ["is_community"]
  const TWO_DEFAULTS := ["is_community", "created_at"]
  const THREE_DEFAULTS := ["is_community", "created_at", "is_public"]
  const FOUR_DEFAULTS := ["is_community", "created_at", "is_public", "is_virtual"]
  const PROJECT_DEFAULTS := ["is_community", "created_at", "is_public", "is_virtual", "visibility"]

  /** One `default` for each of `n` columns. */
  function Defaults(n: nat): seq<Slot> {
    seq(n, i => Default)
  }

  lemma OneMoreDefault(n: nat)
    ensures Defaults(n) + [Default] == Defaults(n + 1)
  {
  }

  lemma ProjectStart()
    ensures Lists(PROJECT, Untouched(), 5, NO_NAMES, Defaults(0), 0)
  {
    var t, d := PROJECT, Untouched();
    NoColumns(t, d);
    NoDefaults();
    assert t.columns[0].kind.Plain? && t.columns[1].kind.Plain? && t.columns[2].kind.Plain?;
    assert t.columns[3].kind.Plain? && t.columns[4].kind.Plain?;
    hide Lists, Defaults;
    Skipped(t, d, 0, NO_NAMES, Defaults(0), 0);
    Skipped(t, d, 1, NO_NAMES, Defaults(0), 0);
    Skipped(t, d, 2, NO_NAMES, Defaults(0), 0);
    Skipped(t, d, 3, NO_NAMES, Defaults(0), 0);
    Skipped(t, d, 4, NO_NAMES, Defaults(0), 0);
  }

  lemma ProjectFront()
    ensures Lists(PROJECT, Untouched(), 9, ONE_DEFAULT, Defaults(1), 0)
  {
    var t, d := PROJECT, Untouched();
    hide Lists, Defaults;
    ProjectStart();
    OneMoreDefault(0);
    LeftToDefault(t, d, 5, NO_NAMES, Defaults(0), 0, ONE_DEFAULT);
    Skipped(t, d, 6, ONE_DEFAULT, Defaults(1), 0);
    Skipped(t, d, 7, ONE_DEFAULT, Defaults(1), 0);
    Skipped(t, d, 8, ONE_DEFAULT, Defaults(1), 0);
  }

  lemma NoDefaults()
    ensures Defaults(0) == []
  {
  }

  lemma ProjectMiddle()
    ensures Lists(PROJECT, Untouched(), 12, THREE_DEFAULTS, Defaults(3), 0)
  {
    var t, d := PROJECT, Untouched();
    hide Lists, Defaults;
    ProjectFront();
    OneMoreDefault(1);
    OneMoreDefault(2);
    LeftToDefault(t, d, 9, ONE_DEFAULT, Defaults(1), 0, TWO_DEFAULTS);
    LeftToDefault(t, d, 10, TWO_DEFAULTS, Defaults(2), 0, THREE_DEFAULTS);
    Skipped(t, d, 11, THREE_DEFAULTS, Defaults(3), 0);
  }

  lemma ProjectBack()
    ensures Lists(PROJECT, Untouched(), 15, PROJECT_DEFAULTS, Defaults(5), 0)
  {
    var t, d := PROJECT, Untouched();
    hide Lists, Defaults;
    ProjectMiddle();
    OneMoreDefault(3);
    OneMoreDefault(4);
    LeftToDefault(t, d, 12, THREE_DEFAULTS, Defaults(3), 0, FOUR_DEFAULTS);
    LeftToDefault(t, d, 13, FOUR_DEFAULTS, Defaults(4), 0, PROJECT_DEFAULTS);
    Skipped(t, d, 14, PROJECT_DEFAULTS, Defaults(5), 0);
  }

  lemma UntouchedSelects()
    ensures NeedSelection(PROJECT.columns, Untouched(), 15)
  {
    ProjectSelects(Untouched());
  }

  lemma FiveDefaults()
    ensures SlotTexts(Defaults(5)) == ["default", "default", "default", "default", "default"]
  {
  }

  lemma UntouchedProjectText()
    ensures PrintInsert(RowInsert(PROJECT, Untouched())) ==
            "insert into " + "\"project\"" + " ("
            + Join(["is_community", "created_at", "is_public", "is_virtual", "visibility"], ",") + ") values ("
            + Join(["default", "default", "default", "default", "default"], ",") + ") returning *"
  {
    UntouchedSelects();
    ProjectBack();
    FiveDefaults();
    assert |PROJECT.columns| == |Untouched()| == 15 && PROJECT.name == "\"project\"";
    hide Lists, NeedSelection, PrintInsert, RowInsert, SlotText, SlotTexts, Join, Untouched, Defaults;
    TextOf(PROJECT, Untouched(), PROJECT_DEFAULTS, Defaults(5), 0, true);
  }
}
