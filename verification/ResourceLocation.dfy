/** Resource locations: the regular expression that accepts them, and the parser that cuts an
    accepted text at its first colon. */
module ResourceLocation {
  import opened Text
  import opened Wrappers

  // ---------- the regular expression and its language ----------

  datatype Regex =
    | Class(chars: set<char>)
    | Then(first: Regex, second: Regex)
    | Maybe(body: Regex)
    | Many(body: Regex)

  /** Whole-text matching. */
  predicate Matches(r: Regex, s: string)
    decreases r, |s|
  {
    match r
    case Class(chars) => |s| == 1 && s[0] in chars
    case Then(first, second) => exists k :: 0 <= k <= |s| && Matches(first, s[..k]) && Matches(second, s[k..])
    case Maybe(body) => s == "" || Matches(body, s)
    case Many(body) => Matches(body, s) || exists k :: 0 < k < |s| && Matches(body, s[..k]) && Matches(r, s[k..])
  }

  const COLON: set<char> := {':'}
  const NUL: set<char> := {'\0'}

  predicate IsNamespaceChar(c: char) {
    'a' <= c <= 'z' || '0' <= c <= '9' || c == '_' || c == '.' || c == '-'
  }

  const NAMESPACE: set<char> := set c: char | IsNamespaceChar(c)
  const PATH: set<char> := set c: char | IsNamespaceChar(c) || c == '/'

  /** `([a-z0-9_.-]+:)?` and then `[a-z0-9_./-]+`. */
  const PREFIX := Maybe(Then(Many(Class(NAMESPACE)), Class(COLON)))
  const REST := Many(Class(PATH))
  const LOCATION := Then(PREFIX, REST)

  /** The characters of the two classes, spelled out. */
  predicate InAlphabet(c: char) {
    c in "abcdefghijklmnopqrstuvwxyz" || c in "0123456789" || c in "_.-"
  }

  lemma TheAlphabet(c: char)
    ensures c in NAMESPACE <==> InAlphabet(c)
    ensures c in PATH <==> InAlphabet(c) || c == '/'
  {
    LowerCase(c);
    TenDigits(c);
    assert c in "_.-" <==> c == '_' || c == '.' || c == '-';
  }

  /** A non-empty text of characters of `chars`. */
  predicate Word(s: string, chars: set<char>) {
    s != "" && forall i :: 0 <= i < |s| ==> s[i] in chars
  }

  lemma {:induction false} ManyIsWord(chars: set<char>, s: string)
    ensures Matches(Many(Class(chars)), s) <==> Word(s, chars)
    decreases |s|
  {
    var r := Many(Class(chars));
    if Matches(r, s) && !Matches(Class(chars), s) {
      var k :| 0 < k < |s| && Matches(Class(chars), s[..k]) && Matches(r, s[k..]);
      ManyIsWord(chars, s[k..]);
      assert forall i :: k <= i < |s| ==> s[i] == s[k..][i - k];
    }
    if Word(s, chars) && |s| > 1 {
      ManyIsWord(chars, s[1..]);
      assert Matches(Class(chars), s[..1]);
    }
  }

  /** The optional first group is empty, or is a namespace and its colon. */
  lemma PrefixIs(s: string)
    ensures Matches(PREFIX, s) <==>
              s == "" || (|s| > 0 && s[|s| - 1] == ':' && Word(s[..|s| - 1], NAMESPACE))
  {
    var body := Then(Many(Class(NAMESPACE)), Class(COLON));
    if s != "" {
      var n := |s| - 1;
      ManyIsWord(NAMESPACE, s[..n]);
      assert Matches(Class(COLON), s[n..]) <==> s[n] == ':';
      if Matches(body, s) {
        var k :| 0 <= k <= |s| && Matches(Many(Class(NAMESPACE)), s[..k]) && Matches(Class(COLON), s[k..]);
        assert k == n;
      }
    }
  }

  predicate GroupedAt(s: string, k: nat)
    requires k <= |s|
  {
    Matches(PREFIX, s[..k]) && Matches(REST, s[k..])
  }

  /** Where the groups of the expression meet: after the first colon, or at the start. */
  function Boundary(s: string): (k: nat)
    ensures k <= |s|
  {
    var colon := Find(s, COLON, 0);
    if colon == |s| then 0 else colon + 1
  }

  predicate WellFormed(s: string) {
    var colon := Find(s, COLON, 0);
    if colon == |s| then Word(s, PATH)
    else Word(s[..colon], NAMESPACE) && Word(s[colon + 1..], PATH)
  }

  lemma GroupsAtBoundary(s: string, k: nat)
    requires k <= |s| && GroupedAt(s, k)
    ensures k == Boundary(s) && WellFormed(s)
  {
    PrefixIs(s[..k]);
    ManyIsWord(PATH, s[k..]);
    if k == 0 {
      assert s[0..] == s;
      FindIsFirst(s, COLON, 0, |s|);
    } else {
      assert s[..k][..k - 1] == s[..k - 1];
      FindIsFirst(s, COLON, 0, k - 1);
    }
  }

  lemma WellFormedGroups(s: string)
    requires WellFormed(s)
    ensures GroupedAt(s, Boundary(s))
  {
    var k := Boundary(s);
    PrefixIs(s[..k]);
    ManyIsWord(PATH, s[k..]);
    if k == 0 {
      assert s[0..] == s;
    } else {
      assert s[..k][..k - 1] == s[..k - 1];
      FindIsFirst(s, COLON, 0, k - 1);
    }
  }

  /** Splitting at the first colon is the expression's own grouping, and the only one. */
  lemma GroupingIff(s: string, k: nat)
    requires k <= |s|
    ensures GroupedAt(s, k) <==> WellFormed(s) && k == Boundary(s)
  {
    if GroupedAt(s, k) { GroupsAtBoundary(s, k); }
    if WellFormed(s) { WellFormedGroups(s); }
  }

  /** The language of the expression, without the expression. */
  lemma LanguageIff(s: string)
    ensures Matches(LOCATION, s) <==> WellFormed(s)
  {
    if Matches(LOCATION, s) {
      var k :| 0 <= k <= |s| && Matches(PREFIX, s[..k]) && Matches(REST, s[k..]);
      GroupsAtBoundary(s, k);
    }
    if WellFormed(s) { WellFormedGroups(s); }
  }

  // ---------- validate, parse, print ----------

  datatype Location = Location(namespace_: string, path_: string)

  const DEFAULT_NAMESPACE := "minecraft"

  /** `regex_match` is given `str.data()`, a C string: it sees the text up to the first NUL only. */
  function CString(str: string): string {
    Before(str, NUL)
  }

  predicate Validate(str: string) {
    Matches(LOCATION, CString(str))
  }

  /** `find` searches the whole text, past a NUL. */
  function Parse(str: string): Option<Location> {
    if !Validate(str) then None
    else
      var delimiter := Find(str, COLON, 0);
      if delimiter == |str| - 1 then None
      else if delimiter == |str| then Some(Location(DEFAULT_NAMESPACE, str))
      else Some(Location(str[..delimiter], str[delimiter + 1..]))
  }

  function Print(l: Location): string {
    l.namespace_ + ":" + l.path_
  }

  lemma WholeCString(str: string)
    ensures Free(str, NUL) <==> CString(str) == str
  {
    assert str + "" == str;
    if Free(str, NUL) { CutAt(str, "", NUL); }
  }

  lemma WordIsFree(s: string, chars: set<char>)
    requires Word(s, chars) && '\0' !in chars
    ensures Free(s, NUL)
  {
    FreeMeans(s, NUL);
  }

  lemma WordHasText(s: string, chars: set<char>)
    requires Word(s, chars)
    ensures s != ""
  {
  }

  lemma PathNeedsText(s: string)
    requires WellFormed(s)
    ensures s != "" && Find(s, COLON, 0) != |s| - 1 && Free(s, NUL)
  {
    hide Find, Free, Word;
    var colon := Find(s, COLON, 0);
    if colon == |s| {
      WordIsFree(s, PATH);
      WordHasText(s, PATH);
    } else {
      var front, rest := s[..colon], s[colon + 1..];
      WordHasText(rest, PATH);
      FindIsFirst(s, COLON, 0, colon);
      WordIsFree(front, NAMESPACE);
      WordIsFree(rest, PATH);
      FreeMeans(":", NUL);
      FreeConcat(front, ":", NUL);
      FreeConcat(front + ":", rest, NUL);
      CutInThree(s, colon);
    }
  }

  lemma CutInThree(s: string, k: nat)
    requires k < |s| && s[k] == ':'
    ensures s == s[..k] + ":" + s[k + 1..]
  {
  }

  /** On texts without NUL, `Parse` succeeds exactly on the language, and its parts are the groups. */
  lemma ParseIsTheExpression(str: string)
    requires Free(str, NUL)
    ensures Parse(str).Some? <==> Matches(LOCATION, str)
    ensures forall l :: Parse(str) == Some(l) ==>
                          GroupedAt(str, Boundary(str)) && l.path_ == str[Boundary(str)..]
                          && l.namespace_ == (if Boundary(str) == 0 then DEFAULT_NAMESPACE
                                              else str[..Boundary(str) - 1])
                          && Word(l.namespace_, NAMESPACE) && Word(l.path_, PATH)
  {
    WholeCString(str);
    LanguageIff(str);
    if WellFormed(str) {
      PathNeedsText(str);
      WellFormedGroups(str);
      assert str[0..] == str;
    }
  }

  /** Which texts are parsed, in characters: those whose front, up to the first NUL, is well formed,
      and whose first colon, on whichever side of the NUL, is not their last character. */
  lemma ParsesIff(str: string)
    ensures Parse(str).Some? <==> WellFormed(Before(str, NUL)) && Find(str, COLON, 0) != |str| - 1
  {
    LanguageIff(CString(str));
  }

  /** The parser and the expression differ exactly on the texts with a NUL behind a well-formed front
      whose first colon, if any, is not their last character. */
  lemma ParseDiffersIff(str: string)
    ensures (Parse(str).Some? <==> Matches(LOCATION, str)) <==>
              (Free(str, NUL) || !WellFormed(Before(str, NUL)) || Find(str, COLON, 0) == |str| - 1)
  {
    ParsesIff(str);
    LanguageIff(str);
    if WellFormed(str) { PathNeedsText(str); }
    if Free(str, NUL) {
      ParseIsTheExpression(str);
    }
  }

  /** A text that the parser takes and the expression does not. */
  lemma NulIsParsed()
    ensures Parse("a\0") == Some(Location("minecraft", "a\0")) && !Matches(LOCATION, "a\0")
  {
    var s := "a\0";
    assert s == "a" + "\0";
    FreeMeans("a", NUL);
    CutAt("a", "\0", NUL);
    FindIsFirst("a", COLON, 0, 1);
    FindIsFirst(s, COLON, 0, 2);
    ParsesIff(s);
    LanguageIff(s);
    assert s[1] == '\0' && '\0' !in PATH;
  }

  // ---------- round trips ----------

  lemma PrintedColon(l: Location)
    requires Free(l.namespace_, COLON)
    ensures var s := Print(l); Find(s, COLON, 0) == |l.namespace_|
                               && s[..|l.namespace_|] == l.namespace_ && s[|l.namespace_| + 1..] == l.path_
  {
    var s := Print(l);
    FreeMeans(l.namespace_, COLON);
    assert forall i :: 0 <= i < |l.namespace_| ==> s[i] == l.namespace_[i];
    FindIsFirst(s, COLON, 0, |l.namespace_|);
  }

  /** The printed front is a well-formed text. */
  predicate PrintsWellFormed(l: Location) {
    if Free(l.namespace_, NUL) then Word(l.namespace_, NAMESPACE) && Word(Before(l.path_, NUL), PATH)
    else Word(Before(l.namespace_, NUL), PATH)
  }

  /** Exactly which locations survive print-then-parse: a namespace without colon and some path, and
      valid words before the first NUL. */
  lemma PrintParseIff(l: Location)
    ensures Parse(Print(l)) == Some(l) <==>
              Free(l.namespace_, COLON) && l.path_ != "" && PrintsWellFormed(l)
  {
    var s := Print(l);
    ParsesIff(s);
    if Free(l.namespace_, COLON) {
      PrintedColon(l);
      PrintedFront(l);
    }
    if Parse(s) == Some(l) {
      var d := Find(s, COLON, 0);
      assert s[|l.namespace_|] == ':';
      FindIsFirst(s, COLON, 0, d);
      assert d < |s|;
      FreeMeans(l.namespace_, COLON);
    }
  }

  lemma PrintedFront(l: Location)
    requires Free(l.namespace_, COLON)
    ensures WellFormed(Before(Print(l), NUL)) <==> PrintsWellFormed(l)
  {
    hide Find, Word;
    var s := Print(l);
    if Free(l.namespace_, NUL) {
      var a, b := Before(l.path_, NUL), From(l.path_, NUL);
      assert s == (l.namespace_ + ":" + a) + b;
      FreeMeans(":", NUL);
      FreeConcat(l.namespace_, ":", NUL);
      FreeConcat(l.namespace_ + ":", a, NUL);
      CutAt(l.namespace_ + ":" + a, b, NUL);
      PrintedColon(Location(l.namespace_, a));
    } else {
      var a, b := Before(l.namespace_, NUL), From(l.namespace_, NUL);
      assert a + "" == a;
      assert s == a + (b + ":" + l.path_);
      CutAt(a, b + ":" + l.path_, NUL);
      FreeConcat(a, b, COLON);
    }
  }

  /** A location that does not: its namespace is longer than what is parsed back. */
  lemma ColonIsLost()
    ensures Parse(Print(Location("a:b", "c"))) == None
  {
    var s := Print(Location("a:b", "c"));
    assert s == "a:b:c";
    FreeMeans(s, NUL);
    WholeCString(s);
    FindIsFirst(s, COLON, 0, 1);
    assert s[2..][1] == ':';
    ParsesIff(s);
  }

  /** Without NUL these are exactly the locations with a valid namespace and a valid path. */
  lemma ValidLocationsSurvive(l: Location)
    requires Free(l.namespace_, NUL) && Free(l.path_, NUL)
    ensures Parse(Print(l)) == Some(l) <==> Word(l.namespace_, NAMESPACE) && Word(l.path_, PATH)
  {
    PrintParseIff(l);
    WholeCString(l.path_);
    FreeMeans(l.namespace_, COLON);
  }

  /** Parse-then-print gives the text back, with the default namespace where it had none. */
  lemma ParsePrint(str: string)
    requires Parse(str).Some?
    ensures Print(Parse(str).value) ==
            if Free(str, COLON) then "minecraft:" + str else str
  {
    var d := Find(str, COLON, 0);
    FindIsFirst(str, COLON, 0, d);
    if d < |str| {
      assert str == str[..d] + ":" + str[d + 1..];
    }
  }

  /** What was parsed once is parsed again from its printed form, NULs included. */
  lemma ParsePrintParse(str: string)
    requires Parse(str).Some?
    ensures Parse(Print(Parse(str).value)) == Parse(str)
  {
    ParsePrint(str);
    if Free(str, COLON) {
      var front := Before(str, NUL);
      ParsesIff(str);
      FreeConcat(front, From(str, NUL), COLON);
      assert Word(front, PATH);
      FreeMeans("minecraft", COLON);
      FreeMeans("minecraft", NUL);
      assert Word("minecraft", NAMESPACE);
      PrintParseIff(Location(DEFAULT_NAMESPACE, str));
    }
  }

  /** A text that is taken apart and two that are refused. */
  lemma OrdinaryLocations()
    ensures Parse("minecraft:iron_ingot") == Some(Location("minecraft", "iron_ingot"))
    ensures Parse("a/b:c") == None && Parse("Minecraft:stone") == None
  {
    hide Parse;
    IronIngot();
    BadLocations();
  }

  lemma IronIngot()
    ensures Parse("minecraft:iron_ingot") == Some(Location("minecraft", "iron_ingot"))
  {
    hide Parse;
    Ordinary("minecraft", "iron_ingot");
    assert "minecraft:iron_ingot" == "minecraft" + ":" + "iron_ingot";
  }

  lemma BadLocations()
    ensures Parse("a/b:c") == None && Parse("Minecraft:stone") == None
  {
    FreeMeans("a/b", COLON + NUL);
    FreeMeans("c", NUL);
    FreeMeans("Minecraft", COLON + NUL);
    FreeMeans("stone", NUL);
    hide Parse, Find;
    BadNamespace("a/b", "c", 1);
    assert "a/b:c" == "a/b" + ":" + "c";
    BadNamespace("Minecraft", "stone", 0);
    assert "Minecraft:stone" == "Minecraft" + ":" + "stone";
  }

  lemma Ordinary(namespace_: string, path: string)
    requires namespace_ != "" && path != ""
    requires forall i :: 0 <= i < |namespace_| ==> namespace_[i] in NAMESPACE
    requires forall i :: 0 <= i < |path| ==> path[i] in PATH
    ensures Parse(namespace_ + ":" + path) == Some(Location(namespace_, path))
  {
    FreeMeans(namespace_, NUL);
    FreeMeans(path, NUL);
    ValidLocationsSurvive(Location(namespace_, path));
  }

  lemma BadNamespace(front: string, path: string, i: nat)
    requires i < |front| && front[i] !in NAMESPACE && Free(front, COLON + NUL) && Free(path, NUL)
    ensures Parse(front + ":" + path) == None
  {
    FreeOfFewer(front, COLON + NUL, COLON);
    FreeOfFewer(front, COLON + NUL, NUL);
    var l := Location(front, path);
    PrintedColon(l);
    PrintedFront(l);
    ParsesIff(Print(l));
  }
}
