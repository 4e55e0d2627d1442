/** What the URI parser accepts and what it makes of it, as functions on text. */
module UriGrammar {
  import opened Text

  datatype Category = Hierarchical | NonHierarchical

  datatype Separator = Ampersand | Semicolon

  /** The reasons for which a text is refused; `std::stoul` contributes the two port errors. */
  datatype Error =
    | EmptyText
    | BadSchemeCharacter
    | SchemeUnterminated
    | SchemeEmpty
    | UsernameWithoutPassword
    | HostUnterminated
    | BadPortCharacter
    | PortEmpty
    | PortOutOfRange
    | DuplicateQueryKey

  datatype Result<+T> = Ok(value: T) | Err(error: Error) {
    predicate IsFailure() { Err? }

    function PropagateFailure<U>(): Result<U>
      requires Err?
    {
      Err(error)
    }

    function Extract(): T
      requires Ok?
    {
      value
    }
  }

  /** The fields of a parsed URI. `content` is the raw text between the scheme and the query. */
  datatype UriValue = UriValue(
    category: Category,
    separator: Separator,
    scheme: string,
    content: string,
    hier: Hier,
    query: string,
    fragment: string,
    dict: map<string, string>)

  /** The hierarchical components, all at their defaults in a non-hierarchical URI. */
  datatype Hier = Hier(
    username: string,
    password: string,
    host: string,
    port: nat,
    rooted: bool,
    path: string)

  const NO_HIER := Hier("", "", "", 0, false, "")

  /** The largest `unsigned long`. */
  const MAX_PORT: nat := 0xFFFF_FFFF_FFFF_FFFF

  predicate SchemeChar(c: char) {
    'a' <= c <= 'z' || 'A' <= c <= 'Z' || IsDigit(c) || c == '-' || c == '+' || c == '.'
  }

  predicate SchemeChars(s: string) {
    forall i :: 0 <= i < |s| ==> SchemeChar(s[i])
  }

  /** The characters of a scheme, spelled out. */
  lemma SchemeAlphabet(c: char)
    ensures SchemeChar(c) <==>
              || c in "abcdefghijklmnopqrstuvwxyz" || c in "ABCDEFGHIJKLMNOPQRSTUVWXYZ"
              || c in "0123456789" || c in "-+."
  {
    LowerCase(c);
    UpperCase(c);
    TenDigits(c);
    assert c in "-+." <==> c == '-' || c == '+' || c == '.';
  }

  function ParseUri(text: string, category: Category, separator: Separator): Result<UriValue> {
    if text == "" then Err(EmptyText)
    else
      var scheme :- ParseScheme(text);
      ParseBody(scheme, text[|scheme| + 1..], category, separator)
  }

  /** Everything after the scheme and its colon. */
  function ParseBody(scheme: string, body: string, category: Category, separator: Separator): Result<UriValue> {
    var content, tail := Before(body, {'?', '#'}), From(body, {'?', '#'});
    var hier :- ParseContent(content, category);
    var query := ParseQuery(tail);
    var fragment := ParseFragment(AfterQuery(tail));
    var dict :- QueryDict(query, separator);
    Ok(UriValue(category, separator, scheme, content, hier, query, fragment, dict))
  }

  function ParseScheme(text: string): (r: Result<string>)
    ensures r.Ok? ==> |r.value| < |text| && r.value == text[..|r.value|]
  {
    var scheme := Before(text, {':'});
    if !SchemeChars(scheme) then Err(BadSchemeCharacter)
    else if scheme == text then Err(SchemeUnterminated)
    else if scheme == "" then Err(SchemeEmpty)
    else Ok(scheme)
  }

  function ParseQuery(tail: string): string {
    if tail != "" && tail[0] == '?' then Before(tail[1..], {'#'}) else ""
  }

  function AfterQuery(tail: string): string {
    if tail != "" && tail[0] == '?' then From(tail[1..], {'#'}) else tail
  }

  function ParseFragment(rest: string): string {
    if rest != "" && rest[0] == '#' then rest[1..] else ""
  }

  function ParseContent(content: string, category: Category): Result<Hier> {
    if category.NonHierarchical? || content == "" then Ok(NO_HIER)
    else if "//" <= content then ParseAuthority(content)
    else if content[0] == '/' then Ok(NO_HIER.(rooted := true, path := content[1..]))
    else Ok(NO_HIER.(path := content))
  }

  function ParseAuthority(content: string): Result<Hier>
    requires "//" <= content
  {
    var user :- ParseUserinfo(content);
    var host :- ParseHost(user.rest);
    var port :- ParsePort(host.rest);
    var path := PathAfter(content, port.rest);
    Ok(Hier(user.username, user.password, host.host, port.port, path.0, path.1))
  }

  datatype UserinfoCut = UserinfoCut(username: string, password: string, rest: string)

  /** An `@` anywhere in the content makes the parser look for `username:password@`. */
  function ParseUserinfo(content: string): Result<UserinfoCut>
    requires "//" <= content
  {
    var authority := content[2..];
    if '@' !in content then Ok(UserinfoCut("", "", authority))
    else
      var username, divider := Before(authority, {':', '@'}), From(authority, {':', '@'});
      if divider == "" || divider[0] == '@' then Err(UsernameWithoutPassword)
      else
        var password, end := Before(divider[1..], {'@'}), From(divider[1..], {'@'});
        Ok(UserinfoCut(username, password, if end == "" then "" else end[1..]))
  }

  datatype HostCut = HostCut(host: string, rest: string)

  /** A host ends before `:` or `/`, or just after the first `]` that follows a `[`. */
  function ParseHost(s: string): Result<HostCut> {
    var name, tail := Before(s, {'[', ':', '/'}), From(s, {'[', ':', '/'});
    if tail != "" && tail[0] == '[' then
      var literal, closing := Before(tail, {']'}), From(tail, {']'});
      if closing == "" then Err(HostUnterminated)
      else Ok(HostCut(name + literal + "]", closing[1..]))
    else Ok(HostCut(name, tail))
  }

  datatype PortCut = PortCut(port: nat, rest: string)

  function ParsePort(s: string): Result<PortCut> {
    if s == "" || s[0] != ':' then Ok(PortCut(0, s))
    else
      var digits := Before(s[1..], {'/'});
      if !AllDigits(digits) then Err(BadPortCharacter)
      else if digits == "" then Err(PortEmpty)
      else if Value(digits) > MAX_PORT then Err(PortOutOfRange)
      else Ok(PortCut(Value(digits), From(s[1..], {'/'})))
  }

  /** Text after an IP literal that neither `:` nor `/` introduces leaves the path at the
      whole content. */
  function PathAfter(content: string, rest: string): (bool, string) {
    if rest == "" then (false, "")
    else if rest[0] == '/' then (true, rest[1..])
    else (false, content)
  }

  // ---------- the query dictionary ----------

  function SeparatorChar(separator: Separator): char {
    if separator.Ampersand? then '&' else ';'
  }

  function Key(stanza: string): string {
    Before(stanza, {'='})
  }

  function ValueOf(stanza: string): string {
    var tail := From(stanza, {'='});
    if tail == "" then "" else tail[1..]
  }

  function Stanzas(query: string, separator: Separator): seq<string> {
    if query == "" then [] else Split(query, SeparatorChar(separator))
  }

  predicate DistinctKeys(stanzas: seq<string>) {
    forall i, j :: 0 <= i < j < |stanzas| ==> Key(stanzas[i]) != Key(stanzas[j])
  }

  function DictOf(stanzas: seq<string>): map<string, string> {
    if stanzas == [] then map[]
    else
      var last := stanzas[|stanzas| - 1];
      DictOf(stanzas[..|stanzas| - 1])[Key(last) := ValueOf(last)]
  }

  function QueryDict(query: string, separator: Separator): Result<map<string, string>> {
    var stanzas := Stanzas(query, separator);
    if DistinctKeys(stanzas) then Ok(DictOf(stanzas)) else Err(DuplicateQueryKey)
  }

  // ---------- printing ----------

  function UserinfoText(h: Hier): string {
    if h.username == "" || h.password == "" then "" else h.username + ":" + h.password + "@"
  }

  function PortText(port: nat): string {
    if port == 0 then "" else ":" + Decimal(port)
  }

  function PathText(h: Hier): string {
    (if h.rooted then "/" else "") + h.path
  }

  /** What stands between the scheme and the query. */
  function ContentText(u: UriValue): string {
    (if u.category.Hierarchical?
     then "//" + UserinfoText(u.hier) + u.hier.host + PortText(u.hier.port)
     else u.content)
    + PathText(u.hier)
  }

  function QueryText(query: string): string {
    if query == "" then "" else "?" + query
  }

  function FragmentText(fragment: string): string {
    if fragment == "" then "" else "#" + fragment
  }

  function PrintUri(u: UriValue): string {
    u.scheme + ":" + ContentText(u) + QueryText(u.query) + FragmentText(u.fragment)
  }
}
