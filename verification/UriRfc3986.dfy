/** The component split of RFC 3986, Appendix B, stated as a relation of its own, and the exact
    condition under which the parser of `UriGrammar` agrees with it. */
module UriRfc3986 {
  import opened Text
  import opened Wrappers
  import opened UriGrammar
  import opened UriRoundTrip

  datatype Parts = Parts(
    scheme: string,
    authority: Option<string>,
    path: string,
    query: Option<string>,
    fragment: Option<string>)

  function Prefixed(mark: string, part: Option<string>): string {
    if part.Some? then mark + part.value else ""
  }

  function OrEmpty(part: Option<string>): string {
    if part.Some? then part.value else ""
  }

  /** The groups of `^(([^:/?#]+):)(//([^/?#]*))?([^?#]*)(\?([^#]*))?(#(.*))?`: what each may
      contain, and that together they are the text. */
  predicate AppendixB(text: string, p: Parts) {
    && p.scheme != "" && Free(p.scheme, {':', '/', '?', '#'})
    && (if p.authority.Some?
        then Free(p.authority.value, {'/', '?', '#'}) && StartsIn(p.path, {'/'})
        else !("//" <= p.path))
    && Free(p.path, {'?', '#'})
    && (p.query.Some? ==> Free(p.query.value, {'#'}))
    && text == p.scheme + (":" + ((Prefixed("//", p.authority) + p.path)
                                  + (Prefixed("?", p.query) + Prefixed("#", p.fragment))))
  }

  // ---------- scheme, content, query and fragment ----------

  lemma QueryGroups(query: Option<string>, fragment: Option<string>, tail: string)
    requires query.Some? ==> Free(query.value, {'#'})
    requires tail == Prefixed("?", query) + Prefixed("#", fragment)
    ensures ParseQuery(tail) == OrEmpty(query)
    ensures ParseFragment(AfterQuery(tail)) == OrEmpty(fragment)
    ensures StartsIn(tail, {'?', '#'})
  {
    hide Before, From, Find;
    var rest := Prefixed("#", fragment);
    assert fragment.Some? ==> rest[1..] == fragment.value;
    if query.Some? {
      QueryBack(query.value, rest);
      assert tail == "?" + (query.value + rest);
    } else {
      assert tail == rest;
    }
  }

  lemma SchemeAccepted(text: string, scheme: string, body: string)
    requires text == scheme + (":" + body) && scheme != "" && Free(scheme, {':'})
    ensures ParseScheme(text).Ok? <==> SchemeChars(scheme)
    ensures ParseScheme(text).Ok? ==> ParseScheme(text).value == scheme
    ensures text[|scheme| + 1..] == body
  {
    hide Before, From, Find;
    CutAt(scheme, ":" + body, {':'});
  }

  /** Scheme, query and fragment always agree, and so does what lies between them. */
  lemma OuterSplit(text: string, category: Category, separator: Separator, u: UriValue, p: Parts)
    requires ParseUri(text, category, separator) == Ok(u) && AppendixB(text, p)
    ensures u.scheme == p.scheme && u.query == OrEmpty(p.query) && u.fragment == OrEmpty(p.fragment)
    ensures u.content == Prefixed("//", p.authority) + p.path
  {
    hide Before, From, Find, Free, ParseScheme, ParseBody, Prefixed, OrEmpty;
    var content := Prefixed("//", p.authority) + p.path;
    var tail := Prefixed("?", p.query) + Prefixed("#", p.fragment);
    FreeOfFewer(p.scheme, {':', '/', '?', '#'}, {':'});
    SchemeAccepted(text, p.scheme, content + tail);
    QueryGroups(p.query, p.fragment, tail);
    ContentGroupsFree(p);
    CutAt(content, tail, {'?', '#'});
    BodyFields(p.scheme, content + tail, category, separator, u);
  }

  lemma BodyFields(scheme: string, body: string, category: Category, separator: Separator, u: UriValue)
    requires ParseBody(scheme, body, category, separator) == Ok(u)
    ensures var tail := From(body, {'?', '#'});
            && u.scheme == scheme && u.content == Before(body, {'?', '#'})
            && u.query == ParseQuery(tail) && u.fragment == ParseFragment(AfterQuery(tail))
  {
  }

  lemma ContentGroupsFree(p: Parts)
    requires p.authority.Some? ==> Free(p.authority.value, {'/', '?', '#'})
    requires Free(p.path, {'?', '#'})
    ensures Free(Prefixed("//", p.authority) + p.path, {'?', '#'})
  {
    hide Before, From, Find, Free;
    var stops := {'?', '#'};
    AuthorityCharsFree();
    PunctuationFree(stops);
    if p.authority.Some? {
      FreeOfFewer(p.authority.value, {'/', '?', '#'}, stops);
      FreeConcat("//", p.authority.value, stops);
    }
    FreeConcat(Prefixed("//", p.authority), p.path, stops);
  }

  // ---------- authority and path ----------

  /** The authority once `userinfo@` is taken off. */
  function HostAndPort(authority: string): string {
    var at := From(authority, {'@'});
    if at == "" then authority else at[1..]
  }

  /** An IP literal that opens in `s` closes there, and only `:` may follow it. */
  predicate LiteralEnds(s: string) {
    var opening := From(s, {'[', ':'});
    opening != "" && opening[0] == '[' ==>
      var closing := From(opening, {']'});
      closing != "" && StartsIn(closing[1..], {':'})
  }

  /** No `@` that stands only behind the authority, and no IP literal that leaves it. */
  predicate AuthorityContained(p: Parts) {
    p.authority.Some? ==>
      && ('@' in p.path ==> '@' in p.authority.value)
      && LiteralEnds(HostAndPort(p.authority.value))
  }

  /** A path cut from less text than `path` has cannot be `path`; nor can the whole content. */
  lemma CutTooLate(content: string, rest: string, path: string, h: Hier)
    requires PathAfter(content, rest) == (h.rooted, h.path)
    requires |content| > |path|
    requires |rest| < |path| || !StartsIn(rest, {'/'})
    ensures PathText(h) != path
  {
    PathPieces(content, rest, h);
  }

  /** No literal opens in `b`: host and port end where the path begins. */
  lemma PlainTail(content: string, b: string, path: string, h: Hier)
    requires TailParses(content, b + path, h)
    requires Free(b, {'/'}) && StartsIn(path, {'/'})
    requires StartsIn(From(b, {'[', ':'}), {':'})
    ensures PathText(h) == path
  {
    hide Before, From, Find, Free;
    var name, t := Before(b, {'[', ':'}), From(b, {'[', ':'});
    assert b + path == name + (t + path);
    FreeConcat(name, t, {'/'});
    FreeOfMore(name, {'[', ':'}, {'/'}, {'[', ':', '/'});
    CutAt(name, t + path, {'[', ':', '/'});
    assert ParseHost(b + path) == Ok(HostCut(name, t + path));
    PortTail(content, t, path, h);
  }

  lemma FreeOfMore(s: string, some: set<char>, others: set<char>, all: set<char>)
    requires Free(s, some) && Free(s, others) && all == some + others
    ensures Free(s, all)
  {
    FreeMeans(s, some);
    FreeMeans(s, others);
    FreeMeans(s, all);
  }

  /** What stands between the host and the path is nothing or a port. */
  lemma PortTail(content: string, t: string, path: string, h: Hier)
    requires StartsIn(t, {':'}) && Free(t, {'/'}) && StartsIn(path, {'/'})
    requires var port := ParsePort(t + path);
             port.Ok? && PathAfter(content, port.value.rest) == (h.rooted, h.path)
    ensures PathText(h) == path
  {
    hide Before, From, Find, Free;
    if t == "" {
      assert t + path == path;
    } else {
      assert t == ":" + t[1..];
      FreeConcat(":", t[1..], {'/'});
      assert (t + path)[1..] == t[1..] + path;
      CutAt(t[1..], path, {'/'});
    }
    PathPieces(content, path, h);
  }

  /** A literal opens in `b`: the path is Appendix B's exactly if the literal ends in `b`. */
  lemma LiteralTail(content: string, b: string, path: string, h: Hier)
    requires TailParses(content, b + path, h)
    requires Free(b, {'/'}) && StartsIn(path, {'/'}) && |content| > |path|
    requires var t := From(b, {'[', ':'}); t != "" && t[0] == '['
    ensures PathText(h) == path <==> LiteralEnds(b)
  {
    hide Before, From, Find, Free;
    var name, t := Before(b, {'[', ':'}), From(b, {'[', ':'});
    assert b + path == name + (t + path);
    FreeConcat(name, t, {'/'});
    FreeOfMore(name, {'[', ':'}, {'/'}, {'[', ':', '/'});
    CutAt(name, t + path, {'[', ':', '/'});
    var literal, w := Before(t, {']'}), From(t, {']'});
    if w == "" {
      assert literal + w == literal;
      ClosedInPath(t, path);
      OpenLiteral(content, From(path, {']'})[1..], path, h);
    } else {
      assert t + path == literal + (w + path);
      CutAt(literal, w + path, {']'});
      FreeConcat(literal, w, {'/'});
      assert (w + path)[1..] == w[1..] + path;
      assert w == "]" + w[1..];
      FreeConcat("]", w[1..], {'/'});
      ClosedLiteral(content, w[1..], path, h);
    }
  }

  lemma ClosedInPath(t: string, path: string)
    requires Free(t, {']'})
    ensures From(t + path, {']'}) == From(path, {']'})
  {
    hide Before, From, Find, Free;
    var front, back := Before(path, {']'}), From(path, {']'});
    FreeConcat(t, front, {']'});
    assert t + path == (t + front) + back;
    CutAt(t + front, back, {']'});
  }

  /** The literal closes behind the first `/`. */
  lemma OpenLiteral(content: string, after: string, path: string, h: Hier)
    requires |after| < |path| && |content| > |path|
    requires var port := ParsePort(after);
             port.Ok? && PathAfter(content, port.value.rest) == (h.rooted, h.path)
    ensures PathText(h) != path
  {
    hide Before, From, Find, Free;
    var portText := ParsedPort(after, ParsePort(after).value);
    CutTooLate(content, ParsePort(after).value.rest, path, h);
  }

  lemma ClosedLiteral(content: string, after: string, path: string, h: Hier)
    requires Free(after, {'/'}) && StartsIn(path, {'/'}) && |content| > |path|
    requires var port := ParsePort(after + path);
             port.Ok? && PathAfter(content, port.value.rest) == (h.rooted, h.path)
    ensures PathText(h) == path <==> StartsIn(after, {':'})
  {
    hide Before, From, Find, Free;
    if StartsIn(after, {':'}) {
      PortTail(content, after, path, h);
    } else {
      FreeConcat([after[0]], after[1..], {'/'});
      assert after == [after[0]] + after[1..];
      FreeMeans([after[0]], {'/'});
      CutTooLate(content, after + path, path, h);
    }
  }

  lemma TailIff(content: string, b: string, path: string, h: Hier)
    requires TailParses(content, b + path, h)
    requires Free(b, {'/'}) && StartsIn(path, {'/'}) && |content| > |path|
    ensures PathText(h) == path <==> LiteralEnds(b)
  {
    if StartsIn(From(b, {'[', ':'}), {':'}) {
      PlainTail(content, b, path, h);
    } else {
      LiteralTail(content, b, path, h);
    }
  }

  // ---------- the userinfo ----------

  /** What the parser takes for the text behind the userinfo starts at the first `@`. */
  lemma UserinfoAtFirst(content: string, cut: UserinfoCut)
    requires "//" <= content && '@' in content && ParseUserinfo(content) == Ok(cut)
    ensures From(content[2..], {'@'}) == "@" + cut.rest
  {
    hide Before, From, Find, Free;
    ParsedUserinfo(content, cut);
    var front := cut.username + (":" + cut.password);
    FreeOfFewer(cut.username, {':', '@'}, {'@'});
    FreeMeans(":", {'@'});
    FreeConcat(":", cut.password, {'@'});
    FreeConcat(cut.username, ":" + cut.password, {'@'});
    assert content[2..] == front + ("@" + cut.rest);
    CutAt(front, "@" + cut.rest, {'@'});
  }

  lemma FirstAt(a: string, path: string)
    ensures From(a + path, {'@'}) ==
            if '@' in a then From(a, {'@'}) + path else From(path, {'@'})
    ensures '@' in a <==> From(a, {'@'}) != ""
  {
    hide Before, From, Find, Free;
    FreeMeans(a, {'@'});
    var front, back := Before(a, {'@'}), From(a, {'@'});
    if '@' in a {
      assert back == "" ==> front + back == front;
      assert a + path == front + (back + path);
      CutAt(front, back + path, {'@'});
    } else {
      FreeStopsNowhere(a, {'@'});
      var f, b := Before(path, {'@'}), From(path, {'@'});
      FreeConcat(a, f, {'@'});
      assert a + path == (a + f) + b;
      CutAt(a + f, b, {'@'});
    }
  }

  lemma FreeStopsNowhere(a: string, stops: set<char>)
    requires Free(a, stops)
    ensures From(a, stops) == ""
  {
    CutAt(a, "", stops);
    assert a + "" == a;
  }

  /** The userinfo lies in the authority. */
  lemma EarlyUserinfo(content: string, a: string, path: string, rest: string, h: Hier)
    requires TailParses(content, rest, h)
    requires Free(a, {'/'}) && StartsIn(path, {'/'}) && |content| > |path|
    requires From(a, {'@'}) != "" && "@" + rest == From(a, {'@'}) + path
    ensures PathText(h) == path <==> LiteralEnds(HostAndPort(a))
  {
    hide Before, From, Find, Free, LiteralEnds;
    var at := From(a, {'@'});
    assert rest == ("@" + rest)[1..] == at[1..] + path;
    FreeConcat(Before(a, {'@'}), at, {'/'});
    assert at == [at[0]] + at[1..];
    FreeConcat([at[0]], at[1..], {'/'});
    TailIff(content, at[1..], path, h);
  }

  /** With an authority: the path agrees exactly when the authority is contained. */
  lemma AuthorityPath(content: string, a: string, path: string, h: Hier)
    requires content == "//" + (a + path) && Free(a, {'/'}) && StartsIn(path, {'/'})
    requires ParseAuthority(content) == Ok(h)
    ensures PathText(h) == path <==> ('@' in path ==> '@' in a) && LiteralEnds(HostAndPort(a))
  {
    hide Before, From, Find, Free, LiteralEnds, TailParses, ParseUserinfo;
    var cut := ParseUserinfo(content).value;
    assert TailParses(content, cut.rest, h) by { AuthorityTail(content, h); }
    assert content[2..] == a + path;
    ParsedUserinfo(content, cut);
    FirstAt(a, path);
    AtInPieces(a, path, content);
    if '@' in content {
      UserinfoAtFirst(content, cut);
    }
    if '@' in a {
      EarlyUserinfo(content, a, path, cut.rest, h);
    } else if '@' in path {
      LateUserinfo(content, cut.rest, path, h);
    } else {
      TailIff(content, a, path, h);
    }
  }

  lemma AuthorityTail(content: string, h: Hier)
    requires "//" <= content && ParseAuthority(content) == Ok(h)
    ensures ParseUserinfo(content).Ok? && TailParses(content, ParseUserinfo(content).value.rest, h)
  {
    hide Before, From, Find, ParseUserinfo, ParseHost, ParsePort;
  }

  lemma AtInPieces(a: string, path: string, content: string)
    requires content == "//" + (a + path)
    ensures '@' in content <==> '@' in a || '@' in path
    ensures From(path, {'@'}) != "" ==> |From(path, {'@'})| <= |path|
    ensures '@' !in a ==> HostAndPort(a) == a
  {
    FirstAt(a, path);
  }

  lemma LateUserinfo(content: string, rest: string, path: string, h: Hier)
    requires TailParses(content, rest, h)
    requires |rest| < |path| < |content|
    ensures PathText(h) != path
  {
    hide Before, From, Find, Free;
    ParsedTail(content, rest, h, {});
  }

  lemma WithAuthority(p: Parts)
    requires p.authority.Some?
    ensures Prefixed("//", p.authority) + p.path == "//" + (p.authority.value + p.path)
  {
  }

  /** The parser's path is Appendix B's for an accepted text if and only if its authority is
      contained; scheme, query and fragment always are. */
  lemma AppendixBIff(text: string, separator: Separator, u: UriValue, p: Parts)
    requires ParseUri(text, Hierarchical, separator) == Ok(u) && AppendixB(text, p)
    ensures u.scheme == p.scheme && u.query == OrEmpty(p.query) && u.fragment == OrEmpty(p.fragment)
    ensures PathText(u.hier) == p.path <==> AuthorityContained(p)
  {
    hide Before, From, Find, Free, LiteralEnds, ParseUri, ParseAuthority, PathText;
    OuterSplit(text, Hierarchical, separator, u, p);
    ParsedText(text, Hierarchical, separator, u);
    if p.authority.Some? {
      FreeOfFewer(p.authority.value, {'/', '?', '#'}, {'/'});
      WithAuthority(p);
      AuthorityPath(u.content, p.authority.value, p.path, u.hier);
    } else {
      assert u.content == p.path;
      NoAuthorityPath(p.path, u.hier);
    }
  }

  lemma NoAuthorityPath(content: string, h: Hier)
    requires !("//" <= content) && ParseContent(content, Hierarchical) == Ok(h)
    ensures PathText(h) == content
  {
  }

  /** The userinfo as it stood in the text, even if one of its halves is empty. */
  function RawUserinfo(authority: string, h: Hier): string {
    if '@' in authority then h.username + ":" + h.password + "@" else ""
  }

  /** A contained authority is exactly its userinfo, host and port in that order. */
  lemma AuthorityPieces(text: string, separator: Separator, u: UriValue, p: Parts) returns (portText: string)
    requires ParseUri(text, Hierarchical, separator) == Ok(u) && AppendixB(text, p)
    requires p.authority.Some? && AuthorityContained(p)
    ensures p.authority.value == RawUserinfo(p.authority.value, u.hier) + u.hier.host + portText
    ensures PortIs(portText, u.hier.port)
  {
    hide Before, From, Find, Free, LiteralEnds, ParseUri, ParseAuthority, RawUserinfo, PortIs;
    hide AppendixB, Prefixed, PathText;
    AppendixBIff(text, separator, u, p);
    OuterSplit(text, Hierarchical, separator, u, p);
    ParsedText(text, Hierarchical, separator, u);
    WithAuthority(p);
    portText := ContentPieces(u.content, p.authority.value, p.path, u.hier);
  }

  lemma ContentPieces(content: string, a: string, path: string, h: Hier) returns (portText: string)
    requires content == "//" + (a + path) && ParseAuthority(content) == Ok(h) && PathText(h) == path
    requires '@' in path ==> '@' in a
    ensures a == RawUserinfo(a, h) + h.host + portText
    ensures PortIs(portText, h.port)
  {
    hide Before, From, Find, Free, ParseUserinfo, TailParses, PathText, PortIs, RawUserinfo;
    AuthorityTail(content, h);
    var cut := ParseUserinfo(content).value;
    portText := TailPieces(content, cut.rest, h, path);
    var raw := RawUserinfo(a, h);
    UserinfoPieces(content, a, path, h, cut);
    assert raw + (h.host + portText + path) == raw + h.host + portText + path;
    FrontOf(a, path, raw + h.host + portText, content);
  }

  lemma UserinfoPieces(content: string, a: string, path: string, h: Hier, cut: UserinfoCut)
    requires content == "//" + (a + path) && ParseUserinfo(content) == Ok(cut)
    requires h.username == cut.username && h.password == cut.password
    requires '@' in path ==> '@' in a
    ensures content == "//" + (RawUserinfo(a, h) + cut.rest)
  {
    hide Before, From, Find, Free, ParseUserinfo;
    ParsedUserinfo(content, cut);
    AtInPieces(a, path, content);
    if '@' in content {
      Regroup(h.username, ":", h.password, "@" + cut.rest);
    } else {
      assert RawUserinfo(a, h) + cut.rest == cut.rest;
    }
  }

  lemma TailPieces(content: string, rest: string, h: Hier, path: string) returns (portText: string)
    requires TailParses(content, rest, h) && PathText(h) == path && |path| < |content|
    ensures rest == h.host + portText + path && PortIs(portText, h.port)
  {
    hide Before, From, Find, Free, PortIs, ParseHost, ParsePort, PathAfter, PathText;
    var host := ParseHost(rest).value;
    var port := ParsePort(host.rest).value;
    ParsedHost(rest, host);
    portText := ParsedPort(host.rest, port);
    PathNotWhole(content, port.rest, h);
    Regroup("", host.host, portText, port.rest);
  }

  lemma PathNotWhole(content: string, rest: string, h: Hier)
    requires PathAfter(content, rest) == (h.rooted, h.path) && |PathText(h)| < |content|
    ensures PathText(h) == rest
  {
    PathPieces(content, rest, h);
  }

  lemma FrontOf(a: string, path: string, front: string, content: string)
    requires content == "//" + (a + path) && content == "//" + (front + path)
    ensures a == front
  {
    assert content[2..] == a + path == front + path;
    assert (a + path)[..|a|] == a;
    assert (front + path)[..|front|] == front;
  }

  // ---------- every accepted text has exactly one such split ----------

  function Groups(text: string): Parts
    requires From(text, {':'}) != ""
  {
    var body := From(text, {':'})[1..];
    var content, tail := Before(body, {'?', '#'}), From(body, {'?', '#'});
    var inner := if "//" <= content then content[2..] else "";
    var rest := AfterQuery(tail);
    Parts(
      Before(text, {':'}),
      if "//" <= content then Some(Before(inner, {'/'})) else None,
      if "//" <= content then From(inner, {'/'}) else content,
      if tail != "" && tail[0] == '?' then Some(ParseQuery(tail)) else None,
      if rest != "" then Some(rest[1..]) else None)
  }

  lemma ContentGroups(p: Parts, content: string)
    requires p.authority.Some? ==> Free(p.authority.value, {'/'}) && StartsIn(p.path, {'/'})
    requires p.authority.None? ==> !("//" <= p.path)
    requires content == Prefixed("//", p.authority) + p.path
    ensures p.authority.Some? <==> "//" <= content
    ensures p.authority.Some? ==>
              p.authority.value == Before(content[2..], {'/'}) && p.path == From(content[2..], {'/'})
    ensures p.authority.None? ==> p.path == content
  {
    hide Before, From, Find, Free;
    if p.authority.Some? {
      assert content[2..] == p.authority.value + p.path;
      CutAt(p.authority.value, p.path, {'/'});
    } else {
      assert content == p.path;
    }
  }

  lemma TailGroups(p: Parts, tail: string)
    requires p.query.Some? ==> Free(p.query.value, {'#'})
    requires tail == Prefixed("?", p.query) + Prefixed("#", p.fragment)
    ensures p.query == (if tail != "" && tail[0] == '?' then Some(ParseQuery(tail)) else None)
    ensures var rest := AfterQuery(tail);
            p.fragment == if rest != "" then Some(rest[1..]) else None
  {
    hide Before, From, Find, Free;
    var rest := Prefixed("#", p.fragment);
    assert p.fragment.Some? ==> rest[1..] == p.fragment.value;
    if p.query.Some? {
      QueryBack(p.query.value, rest);
      assert tail == "?" + (p.query.value + rest);
    } else {
      assert tail == rest;
    }
  }

  lemma AppendixBUnique(text: string, p: Parts)
    requires AppendixB(text, p)
    ensures From(text, {':'}) != "" && p == Groups(text)
  {
    hide Before, From, Find, Free;
    var content := Prefixed("//", p.authority) + p.path;
    var tail := Prefixed("?", p.query) + Prefixed("#", p.fragment);
    var body := content + tail;
    FreeOfFewer(p.scheme, {':', '/', '?', '#'}, {':'});
    CutAt(p.scheme, ":" + body, {':'});
    assert (":" + body)[1..] == body;
    ContentGroupsFree(p);
    QueryGroups(p.query, p.fragment, tail);
    CutAt(content, tail, {'?', '#'});
    if p.authority.Some? {
      FreeOfFewer(p.authority.value, {'/', '?', '#'}, {'/'});
    }
    ContentGroups(p, content);
    TailGroups(p, tail);
  }

  lemma AppendixBExists(text: string, category: Category, separator: Separator, u: UriValue)
    requires ParseUri(text, category, separator) == Ok(u)
    ensures From(text, {':'}) != "" && AppendixB(text, Groups(text))
  {
    hide Before, From, Find, Free, ParseBody;
    var scheme, back := Before(text, {':'}), From(text, {':'});
    assert back == "" ==> scheme + back == scheme;
    SchemeCharsFree(scheme);
    var body := back[1..];
    assert back == ":" + body;
    GroupsRecompose(body, Groups(text));
  }

  lemma SchemeCharsFree(scheme: string)
    requires SchemeChars(scheme)
    ensures Free(scheme, {':', '/', '?', '#'})
  {
    FreeMeans(scheme, {':', '/', '?', '#'});
  }

  lemma GroupsRecompose(body: string, p: Parts)
    requires var content, tail := Before(body, {'?', '#'}), From(body, {'?', '#'});
             var rest := AfterQuery(tail);
             && p.authority == (if "//" <= content then Some(Before(content[2..], {'/'})) else None)
             && p.path == (if "//" <= content then From(content[2..], {'/'}) else content)
             && p.query == (if tail != "" && tail[0] == '?' then Some(ParseQuery(tail)) else None)
             && p.fragment == (if rest != "" then Some(rest[1..]) else None)
    ensures body == (Prefixed("//", p.authority) + p.path) + (Prefixed("?", p.query) + Prefixed("#", p.fragment))
    ensures Free(p.path, {'?', '#'}) && (p.query.Some? ==> Free(p.query.value, {'#'}))
    ensures if p.authority.Some?
            then Free(p.authority.value, {'/', '?', '#'}) && StartsIn(p.path, {'/'})
            else !("//" <= p.path)
  {
    hide Before, From, Find, Free;
    var content, tail := Before(body, {'?', '#'}), From(body, {'?', '#'});
    if "//" <= content {
      var inner := content[2..];
      assert content == "//" + inner;
      FreeConcat("//", inner, {'?', '#'});
      FreeConcat(Before(inner, {'/'}), From(inner, {'/'}), {'?', '#'});
      FreeOfMore(Before(inner, {'/'}), {'/'}, {'?', '#'}, {'/', '?', '#'});
    }
    TailRecompose(p, tail);
  }

  lemma TailRecompose(p: Parts, tail: string)
    requires StartsIn(tail, {'?', '#'})
    requires p.query == (if tail != "" && tail[0] == '?' then Some(ParseQuery(tail)) else None)
    requires var rest := AfterQuery(tail); p.fragment == if rest != "" then Some(rest[1..]) else None
    ensures tail == Prefixed("?", p.query) + Prefixed("#", p.fragment)
    ensures p.query.Some? ==> Free(p.query.value, {'#'})
  {
    hide Before, From, Find, Free;
    var rest := AfterQuery(tail);
    assert rest != "" ==> rest == "#" + rest[1..];
    if p.query.Some? {
      assert tail == "?" + tail[1..];
    }
  }
}
