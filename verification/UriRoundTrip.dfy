/** Printing a URI and parsing it back: exactly which values survive, and exactly which
    accepted texts have a stable normal form. */
module UriRoundTrip {
  import opened Text
  import opened UriGrammar

  /** A host that `ParseHost` consumes to its end. */
  predicate HostShape(host: string) {
    var tail := From(host, {'[', ':', '/'});
    tail == "" || (tail[0] == '[' && From(tail, {']'}) == "]")
  }

  /** Userinfo, port and path as a printed authority can carry them. */
  predicate HierShape(h: Hier) {
    && (if h.username == "" && h.password == "" then Free(h.host, {'@'}) && Free(h.path, {'@'})
        else && h.username != "" && Free(h.username, {':', '@'})
             && h.password != "" && Free(h.password, {'@'}))
    && HostShape(h.host)
    && h.port <= MAX_PORT
    && (h.rooted || h.path == "")
  }

  predicate Canonical(u: UriValue) {
    && u.scheme != "" && SchemeChars(u.scheme)
    && Free(u.content, {'?', '#'})
    && Free(u.query, {'#'})
    && QueryDict(u.query, u.separator) == Ok(u.dict)
    && (if u.category.NonHierarchical? then u.hier == NO_HIER
        else u.content == ContentText(u) && HierShape(u.hier))
  }

  // ---------- parsing each printed piece ----------

  lemma SchemeBack(scheme: string, body: string)
    requires scheme != "" && SchemeChars(scheme)
    ensures ParseScheme(scheme + ":" + body) == Ok(scheme)
  {
    hide Before, From, Find;
    assert scheme + ":" + body == scheme + (":" + body);
    FreeMeans(scheme, {':'});
    CutAt(scheme, ":" + body, {':'});
  }

  lemma QueryBack(query: string, rest: string)
    requires Free(query, {'#'}) && StartsIn(rest, {'#'})
    ensures ParseQuery("?" + (query + rest)) == query && AfterQuery("?" + (query + rest)) == rest
  {
    hide Before, From, Find;
    assert ("?" + (query + rest))[1..] == query + rest;
    CutAt(query, rest, {'#'});
  }

  lemma FragmentBack(fragment: string)
    ensures ParseFragment(FragmentText(fragment)) == fragment
  {
    if fragment != "" {
      assert FragmentText(fragment)[1..] == fragment;
    }
  }

  lemma TailBack(query: string, fragment: string, tail: string)
    requires Free(query, {'#'})
    requires tail == QueryText(query) + FragmentText(fragment)
    ensures ParseQuery(tail) == query && AfterQuery(tail) == FragmentText(fragment)
    ensures StartsIn(tail, {'?', '#'})
  {
    hide Before, From, Find, Free;
    if query == "" {
      NoQueryBack(fragment, tail);
    } else {
      hide ParseQuery, AfterQuery;
      QueryBack(query, FragmentText(fragment));
      assert tail == "?" + (query + FragmentText(fragment));
    }
  }

  lemma NoQueryBack(fragment: string, tail: string)
    requires tail == "" + FragmentText(fragment)
    ensures tail == FragmentText(fragment)
    ensures ParseQuery(tail) == "" && AfterQuery(tail) == tail && StartsIn(tail, {'?', '#'})
  {
    hide Before, From, Find;
  }

  lemma NoUserinfoBack(rest: string)
    requires Free(rest, {'@'})
    ensures ParseUserinfo("//" + rest) == Ok(UserinfoCut("", "", rest))
  {
    var content := "//" + rest;
    assert content[2..] == rest;
    FreeMeans(rest, {'@'});
  }

  lemma SomeUserinfoBack(username: string, password: string, rest: string)
    requires Free(username, {':', '@'}) && Free(password, {'@'})
    ensures ParseUserinfo("//" + (username + (":" + (password + ("@" + rest)))))
         == Ok(UserinfoCut(username, password, rest))
  {
    hide Before, From, Find;
    var afterPassword := "@" + rest;
    var afterUser := ":" + (password + afterPassword);
    var content := "//" + (username + afterUser);
    assert content[2..] == username + afterUser;
    CutAt(username, afterUser, {':', '@'});
    assert afterUser[1..] == password + afterPassword;
    CutAt(password, afterPassword, {'@'});
    assert content[2 + |username|] == afterUser[0];
    assert '@' in content by {
      assert content[2 + |username| + 1 + |password|] == (password + afterPassword)[|password|] == '@';
    }
  }

  lemma UserinfoBack(h: Hier, rest: string)
    requires HierShape(h)
    requires h.username == "" ==> Free(rest, {'@'})
    ensures ParseUserinfo("//" + (UserinfoText(h) + rest)) == Ok(UserinfoCut(h.username, h.password, rest))
  {
    if h.username == "" {
      assert UserinfoText(h) + rest == rest;
      NoUserinfoBack(rest);
    } else {
      assert UserinfoText(h) + rest == h.username + (":" + (h.password + ("@" + rest)));
      SomeUserinfoBack(h.username, h.password, rest);
    }
  }

  lemma LiteralBack(name: string, literal: string, rest: string)
    requires Free(name, {'[', ':', '/'}) && literal != "" && literal[0] == '[' && Free(literal, {']'})
    ensures ParseHost(name + (literal + ("]" + rest))) == Ok(HostCut(name + literal + "]", rest))
  {
    hide Before, From, Find;
    var closing := "]" + rest;
    CutAt(name, literal + closing, {'[', ':', '/'});
    CutAt(literal, closing, {']'});
  }

  lemma HostPieces(host: string) returns (name: string, literal: string)
    requires HostShape(host) && !Free(host, {'[', ':', '/'})
    ensures Free(name, {'[', ':', '/'}) && literal != "" && literal[0] == '[' && Free(literal, {']'})
    ensures host == name + literal + "]"
  {
    name := Before(host, {'[', ':', '/'});
    var tail := From(host, {'[', ':', '/'});
    literal := Before(tail, {']'});
    assert tail == literal + "]";
  }

  lemma HostBack(host: string, rest: string)
    requires HostShape(host) && StartsIn(rest, {':', '/'})
    ensures ParseHost(host + rest) == Ok(HostCut(host, rest))
  {
    hide Before, From, Find;
    if Free(host, {'[', ':', '/'}) {
      CutAt(host, rest, {'[', ':', '/'});
    } else {
      var name, literal := HostPieces(host);
      LiteralBack(name, literal, rest);
      Regroup(name, literal, "]", rest);
    }
  }

  lemma Regroup(a: string, b: string, c: string, d: string)
    ensures a + b + c + d == a + (b + (c + d)) == a + b + (c + d)
  {
  }

  lemma PortBack(port: nat, rest: string)
    requires port <= MAX_PORT && StartsIn(rest, {'/'})
    ensures ParsePort(PortText(port) + rest) == Ok(PortCut(port, rest))
  {
    hide Before, From, Find, Free;
    if port == 0 {
      assert PortText(port) + rest == rest;
    } else {
      var digits := Decimal(port);
      assert (PortText(port) + rest)[1..] == digits + rest;
      FreeMeans(digits, {'/'});
      CutAt(digits, rest, {'/'});
      ValueDecimal(port);
    }
  }

  /** The text of an authority and path, grouped the way the parser takes it apart. */
  function AuthorityText(h: Hier): string {
    "//" + (UserinfoText(h) + (h.host + (PortText(h.port) + PathText(h))))
  }

  lemma AuthorityTextFree(h: Hier, stops: set<char>)
    requires Free("/:", stops) && Free(DIGIT_TEXT, stops)
    ensures Free(h.host + (PortText(h.port) + PathText(h)), stops) <==> Free(h.host, stops) && Free(h.path, stops)
  {
    hide Before, From, Find;
    FreeConcat(h.host, PortText(h.port) + PathText(h), stops);
    FreeConcat(PortText(h.port), PathText(h), stops);
    PortFree(h.port, stops);
    PunctuationFree(stops);
    FreeConcat("/", h.path, stops);
    FreeConcat("", h.path, stops);
    assert PathText(h) == (if h.rooted then "/" + h.path else "" + h.path);
  }

  lemma ContentBack(h: Hier)
    requires HierShape(h)
    ensures ParseContent(AuthorityText(h), Hierarchical) == Ok(h)
  {
    hide Before, From, Find;
    var content := AuthorityText(h);
    assert Free("/:", {'@'}) && Free(DIGIT_TEXT, {'@'}) by {
      FreeMeans("/:", {'@'});
      FreeMeans(DIGIT_TEXT, {'@'});
    }
    AuthorityTextFree(h, {'@'});
    UserinfoBack(h, h.host + (PortText(h.port) + PathText(h)));
    AfterUserinfoBack(h, content);
  }

  lemma AfterUserinfoBack(h: Hier, content: string)
    requires HierShape(h) && "//" <= content
    requires ParseUserinfo(content)
          == Ok(UserinfoCut(h.username, h.password, h.host + (PortText(h.port) + PathText(h))))
    ensures ParseAuthority(content) == Ok(h)
  {
    hide Before, From, Find;
    HostBack(h.host, PortText(h.port) + PathText(h));
    PortBack(h.port, PathText(h));
    PathBack(h, content);
  }

  lemma PathBack(h: Hier, content: string)
    requires h.rooted || h.path == ""
    ensures PathAfter(content, PathText(h)) == (h.rooted, h.path)
  {
    if h.rooted {
      assert PathText(h)[1..] == h.path;
    }
  }

  lemma PortFree(port: nat, stops: set<char>)
    requires Free("/:", stops) && Free(DIGIT_TEXT, stops)
    ensures Free(PortText(port), stops)
  {
    if port != 0 {
      var digits := Decimal(port);
      FreeMeans(DIGIT_TEXT, stops);
      forall i | 0 <= i < |digits| ensures digits[i] !in stops {
        assert digits[i] == DIGIT_TEXT[digits[i] as int - '0' as int];
      }
      FreeMeans(digits, stops);
      PunctuationFree(stops);
      FreeConcat(":", digits, stops);
    }
  }

  lemma PunctuationFree(stops: set<char>)
    requires Free("/:", stops)
    ensures Free("", stops) && Free("/", stops) && Free(":", stops) && Free("//", stops)
  {
    FreeConcat("/", ":", stops);
    FreeConcat("/", "/", stops);
    assert "/" + ":" == "/:" && "/" + "/" == "//";
  }

  lemma ContentTextGrouped(u: UriValue)
    requires u.category.Hierarchical?
    ensures ContentText(u) == AuthorityText(u.hier)
  {
  }

  /** Every canonical value is restored by parsing what it prints. */
  lemma CanonicalRoundTrip(u: UriValue)
    requires Canonical(u)
    ensures ParseUri(PrintUri(u), u.category, u.separator) == Ok(u)
  {
    hide Before, From, Find;
    var tail := QueryText(u.query) + FragmentText(u.fragment);
    assert u.content == ContentText(u) && ParseContent(u.content, u.category) == Ok(u.hier) by {
      if u.category.Hierarchical? {
        ContentTextGrouped(u);
        ContentBack(u.hier);
      }
    }
    BodyBack(u, u.content, tail);
    Regroup(u.scheme + ":", ContentText(u), QueryText(u.query), FragmentText(u.fragment));
    WholeBack(u, u.scheme + ":" + (u.content + tail), u.content + tail);
  }

  lemma WholeBack(u: UriValue, text: string, body: string)
    requires u.scheme != "" && SchemeChars(u.scheme)
    requires text == u.scheme + ":" + body
    ensures ParseUri(text, u.category, u.separator) == ParseBody(u.scheme, body, u.category, u.separator)
  {
    hide Before, From, Find;
    SchemeBack(u.scheme, body);
    assert text[|u.scheme| + 1..] == body;
  }

  lemma BodyBack(u: UriValue, content: string, tail: string)
    requires content == u.content && Free(content, {'?', '#'})
    requires tail == QueryText(u.query) + FragmentText(u.fragment) && Free(u.query, {'#'})
    requires ParseContent(content, u.category) == Ok(u.hier)
    requires QueryDict(u.query, u.separator) == Ok(u.dict)
    ensures ParseBody(u.scheme, content + tail, u.category, u.separator) == Ok(u)
  {
    hide Before, From, Find;
    TailBack(u.query, u.fragment, tail);
    FragmentBack(u.fragment);
    CutAt(content, tail, {'?', '#'});
  }

  // ---------- what an accepted content looks like ----------

  lemma ParsedUserinfo(content: string, cut: UserinfoCut)
    requires "//" <= content && ParseUserinfo(content) == Ok(cut)
    ensures '@' !in content ==> cut == UserinfoCut("", "", content[2..])
    ensures '@' in content ==>
              && Free(cut.username, {':', '@'}) && Free(cut.password, {'@'})
              && content == "//" + (cut.username + (":" + (cut.password + ("@" + cut.rest))))
  {
    hide Before, From, Find;
    if '@' in content {
      var username, divider := Before(content[2..], {':', '@'}), From(content[2..], {':', '@'});
      var afterColon := divider[1..];
      assert divider == ":" + afterColon;
      assert content == "//" + content[2..];
      AtRemains(content, username, afterColon);
      PasswordPieces(afterColon);
      assert cut == UserinfoCut(username, Before(afterColon, {'@'}), From(afterColon, {'@'})[1..]);
    }
  }

  lemma PasswordPieces(s: string)
    requires From(s, {'@'}) != ""
    ensures s == Before(s, {'@'}) + ("@" + From(s, {'@'})[1..])
  {
    hide Before, From, Find;
    assert From(s, {'@'}) == "@" + From(s, {'@'})[1..];
  }

  /** Once the username is cut off, an `@` is still to come. */
  lemma AtRemains(content: string, username: string, afterColon: string)
    requires '@' in content && Free(username, {':', '@'})
    requires content == "//" + (username + (":" + afterColon))
    ensures From(afterColon, {'@'}) != ""
  {
    FreeMeans("/:", {'@'});
    PunctuationFree({'@'});
    FreeOfFewer(username, {':', '@'}, {'@'});
    FreeConcat(":", afterColon, {'@'});
    FreeConcat(username, ":" + afterColon, {'@'});
    FreeConcat("//", username + (":" + afterColon), {'@'});
    FreeMeans(content, {'@'});
    assert !Free(afterColon, {'@'});
  }

  lemma LiteralShape(name: string, literal: string)
    requires Free(name, {'[', ':', '/'}) && literal != "" && literal[0] == '[' && Free(literal, {']'})
    ensures HostShape(name + (literal + "]"))
  {
    CutAt(name, literal + "]", {'[', ':', '/'});
    CutAt(literal, "]", {']'});
  }

  lemma LiteralPieces(s: string, name: string, literal: string, rest: string)
    requires Free(name, {'[', ':', '/'}) && literal != "" && literal[0] == '[' && Free(literal, {']'})
    requires s == name + (literal + ("]" + rest))
    ensures s == (name + literal + "]") + rest && HostShape(name + literal + "]")
  {
    LiteralShape(name, literal);
    Regroup(name, literal, "]", "");
    Regroup(name, literal, "]", rest);
    assert name + literal + "]" == name + (literal + "]");
  }

  lemma ParsedHost(s: string, cut: HostCut)
    requires ParseHost(s) == Ok(cut)
    ensures s == cut.host + cut.rest && HostShape(cut.host)
  {
    var name, tail := Before(s, {'[', ':', '/'}), From(s, {'[', ':', '/'});
    if tail != "" && tail[0] == '[' {
      var literal, closing := Before(tail, {']'}), From(tail, {']'});
      assert closing == "]" + closing[1..];
      LiteralPieces(s, name, literal, closing[1..]);
    } else {
      CutAt(name, "", {'[', ':', '/'});
      assert name + "" == name;
    }
  }

  /** The text of a port, which may carry leading zeros; absent it counts as 0. */
  predicate PortIs(portText: string, port: nat) {
    if portText == "" then port == 0
    else portText[0] == ':' && AllDigits(portText[1..]) && portText[1..] != "" && Value(portText[1..]) == port
  }

  lemma ParsedPort(s: string, cut: PortCut) returns (portText: string)
    requires ParsePort(s) == Ok(cut)
    ensures s == portText + cut.rest && |PortText(cut.port)| <= |portText| && cut.port <= MAX_PORT
    ensures portText != "" ==> StartsIn(cut.rest, {'/'})
    ensures PortIs(portText, cut.port)
  {
    hide Before, From, Find;
    if s == "" || s[0] != ':' {
      portText := "";
      assert s == "" + s;
    } else {
      var digits := Before(s[1..], {'/'});
      portText := ":" + digits;
      assert s == ":" + s[1..];
      DecimalShortest(digits);
    }
  }

  /** `rest`, what follows the userinfo of `content`, parses to the host, port and path of `h`. */
  predicate TailParses(content: string, rest: string, h: Hier) {
    var host := ParseHost(rest);
    host.Ok? && host.value.host == h.host &&
    var port := ParsePort(host.value.rest);
    port.Ok? && port.value.port == h.port &&
    PathAfter(content, port.value.rest) == (h.rooted, h.path)
  }

  lemma ParsedTail(content: string, rest: string, h: Hier, stops: set<char>)
    requires TailParses(content, rest, h)
    ensures HostShape(h.host) && h.port <= MAX_PORT
    ensures h.rooted || h.path == "" ==> |rest| >= |h.host| + |PortText(h.port)| + |PathText(h)|
    ensures !h.rooted && h.path != "" ==> h.path == content
    ensures Free(rest, stops) && Free(content, stops) ==> Free(h.host, stops) && Free(h.path, stops)
  {
    hide Before, From, Find;
    var host := ParseHost(rest).value;
    var port := ParsePort(host.rest).value;
    ParsedHost(rest, host);
    var portText := ParsedPort(host.rest, port);
    FreeConcat(host.host, host.rest, stops);
    FreeConcat(portText, port.rest, stops);
    if port.rest != "" && port.rest[0] == '/' {
      assert port.rest == "/" + port.rest[1..];
      FreeConcat("/", port.rest[1..], stops);
    }
    PathPieces(content, port.rest, h);
  }

  lemma PathPieces(content: string, rest: string, h: Hier)
    requires PathAfter(content, rest) == (h.rooted, h.path)
    ensures rest == "" || rest[0] == '/' ==> PathText(h) == rest
    ensures h.rooted || h.path == "" ==> |PathText(h)| <= |rest|
    ensures !h.rooted && h.path != "" ==> h.path == content
  {
  }

  lemma ParsedAuthority(content: string, h: Hier, stops: set<char>)
    requires "//" <= content && ParseAuthority(content) == Ok(h)
    ensures HostShape(h.host) && h.port <= MAX_PORT
    ensures h.rooted || h.path == "" ==>
              |content| >= 2 + |h.host| + |PortText(h.port)| + |PathText(h)| + (if '@' in content then 2 else 0)
    ensures !h.rooted && h.path != "" ==> h.path == content
    ensures '@' in content ==> Free(h.username, {':', '@'}) && Free(h.password, {'@'})
    ensures '@' !in content ==> h.username == h.password == ""
    ensures Free(content, stops) ==>
              Free(h.username, stops) && Free(h.password, stops) && Free(h.host, stops) && Free(h.path, stops)
  {
    hide Before, From, Find;
    var user := ParseUserinfo(content).value;
    ParsedUserinfo(content, user);
    ParsedTail(content, user.rest, h, stops);
    if Free(content, stops) {
      if '@' in content {
        var afterUser := ":" + (user.password + ("@" + user.rest));
        FreeConcat("//", user.username + afterUser, stops);
        FreeConcat(user.username, afterUser, stops);
        FreeConcat(":", user.password + ("@" + user.rest), stops);
        FreeConcat(user.password, "@" + user.rest, stops);
        FreeConcat("@", user.rest, stops);
      } else {
        assert content == "//" + user.rest;
        FreeConcat("//", user.rest, stops);
      }
    }
  }

  /** The part of `HierShape` that the parser does not establish by itself. */
  predicate Survives(h: Hier) {
    && (h.rooted || h.path == "")
    && (if h.username == "" && h.password == "" then Free(h.host, {'@'}) && Free(h.path, {'@'})
        else h.username != "" && h.password != "")
  }

  lemma ParsedShape(content: string, h: Hier)
    requires ParseContent(content, Hierarchical) == Ok(h)
    ensures HierShape(h) <==> Survives(h)
  {
    hide Before, From, Find;
    if "//" <= content {
      ParsedAuthority(content, h, {});
    }
  }

  lemma UserinfoFree(h: Hier, stops: set<char>)
    requires Free(h.username, stops) && Free(h.password, stops) && Free(":", stops) && Free("@", stops)
    ensures Free(UserinfoText(h), stops)
  {
    hide Before, From, Find;
    FreeConcat(h.username, ":", stops);
    FreeConcat(h.username + ":", h.password, stops);
    FreeConcat(h.username + ":" + h.password, "@", stops);
  }

  lemma ParsedHierFree(content: string, h: Hier, stops: set<char>)
    requires ParseContent(content, Hierarchical) == Ok(h)
    requires Free(content, stops)
    ensures Free(h.username, stops) && Free(h.password, stops) && Free(h.host, stops) && Free(h.path, stops)
  {
    hide Before, From, Find;
    assert Free("", stops);
    if "//" <= content {
      ParsedAuthority(content, h, stops);
    } else if content != "" && content[0] == '/' {
      assert content == "/" + content[1..];
      FreeConcat("/", content[1..], stops);
    }
  }

  lemma AuthorityFree(h: Hier, stops: set<char>)
    requires Free("/:", stops) && Free("@", stops) && Free(DIGIT_TEXT, stops)
    requires Free(h.username, stops) && Free(h.password, stops) && Free(h.host, stops) && Free(h.path, stops)
    ensures Free(AuthorityText(h), stops)
  {
    hide Before, From, Find;
    var afterUserinfo := h.host + (PortText(h.port) + PathText(h));
    PunctuationFree(stops);
    UserinfoFree(h, stops);
    AuthorityTextFree(h, stops);
    FreeConcat(UserinfoText(h), afterUserinfo, stops);
    FreeConcat("//", UserinfoText(h) + afterUserinfo, stops);
  }

  lemma AuthorityCharsFree()
    ensures Free("/:", {'?', '#'}) && Free("@", {'?', '#'}) && Free(DIGIT_TEXT, {'?', '#'})
  {
    FreeMeans("/:", {'?', '#'});
    FreeMeans(DIGIT_TEXT, {'?', '#'});
  }

  lemma ParsedContentFree(u: UriValue, content: string)
    requires u.category.Hierarchical? && ParseContent(content, Hierarchical) == Ok(u.hier)
    requires Free(content, {'?', '#'})
    ensures Free(ContentText(u), {'?', '#'})
  {
    hide Before, From, Find, Free;
    ParsedHierFree(content, u.hier, {'?', '#'});
    AuthorityCharsFree();
    AuthorityFree(u.hier, {'?', '#'});
    ContentTextGrouped(u);
  }

  // ---------- the two exact characterisations ----------

  /** A value is restored by parsing what it prints if and only if it is canonical. */
  lemma RoundTripIff(u: UriValue)
    ensures ParseUri(PrintUri(u), u.category, u.separator) == Ok(u) <==> Canonical(u)
  {
    if Canonical(u) {
      CanonicalRoundTrip(u);
    }
    if ParseUri(PrintUri(u), u.category, u.separator) == Ok(u) {
      RestoredIsCanonical(u);
    }
  }

  lemma RestoredIsCanonical(u: UriValue)
    requires ParseUri(PrintUri(u), u.category, u.separator) == Ok(u)
    ensures Canonical(u)
  {
    hide Before, From, Find;
    var tail := QueryText(u.query) + FragmentText(u.fragment);
    Regroup(u.scheme + ":", ContentText(u), QueryText(u.query), FragmentText(u.fragment));
    assert ParseScheme(PrintUri(u)) == Ok(u.scheme);
    WholeBack(u, PrintUri(u), ContentText(u) + tail);
    ParsedFields(u, ContentText(u) + tail, u.category, u.separator);
    if u.category.Hierarchical? {
      ParsedContentFree(u, u.content);
      CutAt(ContentText(u), tail, {'?', '#'});
      ContentTextGrouped(u);
      RestoredAuthority(u.content, u.hier);
    }
  }

  lemma ParsedFields(u: UriValue, body: string, category: Category, separator: Separator)
    requires ParseBody(u.scheme, body, category, separator) == Ok(u)
    ensures u.category == category && u.separator == separator
    ensures u.content == Before(body, {'?', '#'})
    ensures ParseContent(u.content, u.category) == Ok(u.hier)
    ensures Free(u.query, {'#'}) && QueryDict(u.query, u.separator) == Ok(u.dict)
  {
  }

  lemma ParsedText(text: string, category: Category, separator: Separator, u: UriValue)
    requires ParseUri(text, category, separator) == Ok(u)
    ensures u.category == category && u.separator == separator
    ensures u.scheme != "" && SchemeChars(u.scheme)
    ensures Free(u.content, {'?', '#'})
    ensures ParseContent(u.content, u.category) == Ok(u.hier)
    ensures Free(u.query, {'#'}) && QueryDict(u.query, u.separator) == Ok(u.dict)
  {
    hide Before, From, Find;
    var scheme := ParseScheme(text).value;
    assert ParseBody(scheme, text[|scheme| + 1..], category, separator) == Ok(u);
    assert u.scheme == scheme;
    ParsedFields(u, text[|scheme| + 1..], category, separator);
  }

  lemma RestoredAuthority(content: string, h: Hier)
    requires content == AuthorityText(h)
    requires ParseContent(content, Hierarchical) == Ok(h)
    ensures HierShape(h)
  {
    hide Before, From, Find;
    ParsedAuthority(content, h, {'@'});
    FreeMeans(content, {'@'});
    ParsedShape(content, h);
  }

  function Normalised(u: UriValue): UriValue {
    if u.category.Hierarchical? then u.(content := ContentText(u)) else u
  }

  /** For every accepted hierarchical text, printing and parsing again restores every component
      if and only if the parsed components survive printing. */
  lemma NormalFormIff(text: string, separator: Separator, u: UriValue)
    requires ParseUri(text, Hierarchical, separator) == Ok(u)
    ensures ParseUri(PrintUri(u), Hierarchical, separator) == Ok(Normalised(u)) <==> Survives(u.hier)
    ensures PrintUri(Normalised(u)) == PrintUri(u)
  {
    hide Before, From, Find;
    var n := Normalised(u);
    ParsedText(text, Hierarchical, separator, u);
    ParsedShape(u.content, u.hier);
    ParsedContentFree(u, u.content);
    assert ContentText(n) == ContentText(u);
    assert Canonical(n) <==> Survives(u.hier);
    RoundTripIff(n);
  }

  /** In particular: without an `@`, or with both halves of the userinfo, and with nothing but the
      end, a port or a path after the host, the printed form is canonical and stays as it is. */
  lemma NormalFormStable(text: string, separator: Separator, u: UriValue)
    requires ParseUri(text, Hierarchical, separator) == Ok(u)
    requires Free(u.content, {'@'}) || (u.hier.username != "" && u.hier.password != "")
    requires u.hier.rooted || u.hier.path == ""
    ensures Canonical(Normalised(u))
    ensures ParseUri(PrintUri(u), Hierarchical, separator) == Ok(Normalised(u))
    ensures PrintUri(Normalised(u)) == PrintUri(u)
  {
    hide Before, From, Find;
    NormalFormIff(text, separator, u);
    ParsedText(text, Hierarchical, separator, u);
    if Free(u.content, {'@'}) {
      ParsedHierFree(u.content, u.hier, {'@'});
      if "//" <= u.content { NoAt(u.content, u.hier); }
    }
    RoundTripIff(Normalised(u));
  }

  lemma NoAt(content: string, h: Hier)
    requires "//" <= content && Free(content, {'@'}) && ParseContent(content, Hierarchical) == Ok(h)
    ensures h.username == "" && h.password == ""
  {
    hide Before, From, Find;
    FreeMeans(content, {'@'});
    assert '@' !in content;
  }

  /** A non-hierarchical URI always survives. */
  lemma NonHierarchicalRoundTrip(text: string, separator: Separator, u: UriValue)
    requires ParseUri(text, NonHierarchical, separator) == Ok(u)
    ensures ParseUri(PrintUri(u), NonHierarchical, separator) == Ok(u)
  {
    ParsedText(text, NonHierarchical, separator, u);
    CanonicalRoundTrip(u);
  }
}
