/** Which texts the parser accepts, over the parts of RFC 3986 Appendix B. */
module UriAcceptance {
  import opened Text
  import opened Wrappers
  import opened UriGrammar
  import opened UriRoundTrip
  import opened UriRfc3986

  /** The authority and everything behind it, cut into pieces. */
  datatype AuthorityCut = AuthorityCut(
    username: string, password: string, userinfo: bool, host: string, port: string, rest: string)

  function AfterUserinfo(c: AuthorityCut): string {
    c.host + (c.port + c.rest)
  }

  /** A colon and at least one digit, in range, with or without leading zeros. */
  predicate PortShape(port: string) {
    |port| > 1 && port[0] == ':' && AllDigits(port[1..]) && Value(port[1..]) <= 18446744073709551615
  }

  /** What each piece may be: userinfo wherever there is an `@`, a name or a bracketed literal, a
      port that ends the authority, and a path, or anything but a port behind a literal. */
  predicate Cuts(s: string, c: AuthorityCut) {
    && (if c.userinfo
        then && Free(c.username, {':', '@'}) && Free(c.password, {'@'})
             && s == c.username + (":" + (c.password + ("@" + AfterUserinfo(c))))
        else Free(s, {'@'}) && s == AfterUserinfo(c))
    && HostShape(c.host)
    && (c.port != "" ==> PortShape(c.port) && StartsIn(c.rest, {'/'}))
    && (c.port == "" && Free(c.host, {'[', ':', '/'}) ==> StartsIn(c.rest, {'/'}))
    && (c.port == "" && c.rest != "" ==> c.rest[0] != ':')
  }

  ghost predicate AuthorityAccepted(s: string) {
    exists c :: Cuts(s, c)
  }

  ghost predicate PartsAccepted(p: Parts, separator: Separator) {
    && SchemeChars(p.scheme)
    && DistinctKeys(Stanzas(OrEmpty(p.query), separator))
    && (p.authority.Some? ==> AuthorityAccepted(p.authority.value + p.path))
  }

  // ---------- from the pieces to the parser ----------

  lemma PortAccepts(port: string, rest: string)
    requires PortShape(port) && StartsIn(rest, {'/'})
    ensures ParsePort(port + rest).Ok?
  {
    hide Before, From, Find;
    var digits := port[1..];
    assert (port + rest)[1..] == digits + rest;
    FreeMeans(digits, {'/'});
    CutAt(digits, rest, {'/'});
  }

  lemma HostAccepts(c: AuthorityCut, s: string)
    requires Cuts(s, c)
    ensures ParseHost(AfterUserinfo(c)) == Ok(HostCut(c.host, c.port + c.rest))
  {
    hide Before, From, Find, HostShape;
    var after := c.port + c.rest;
    assert c.port == "" ==> after == c.rest;
    if Free(c.host, {'[', ':', '/'}) {
      HostBack(c.host, after);
    } else {
      var name, literal := HostPieces(c.host);
      LiteralBack(name, literal, after);
      Regroup(name, literal, "]", after);
    }
  }

  lemma TailAccepts(c: AuthorityCut, s: string)
    requires Cuts(s, c)
    ensures ParseHost(AfterUserinfo(c)).Ok? && ParsePort(ParseHost(AfterUserinfo(c)).value.rest).Ok?
  {
    hide Before, From, Find, HostShape, ParseHost;
    HostAccepts(c, s);
    if c.port != "" {
      PortAccepts(c.port, c.rest);
    } else {
      assert c.port + c.rest == c.rest;
    }
  }

  lemma UserinfoAccepts(c: AuthorityCut, s: string)
    requires Cuts(s, c)
    ensures ParseUserinfo("//" + s).Ok? && ParseUserinfo("//" + s).value.rest == AfterUserinfo(c)
  {
    hide Before, From, Find, ParseUserinfo, HostShape, AfterUserinfo;
    if c.userinfo {
      SomeUserinfoBack(c.username, c.password, AfterUserinfo(c));
    } else {
      NoUserinfoBack(s);
    }
  }

  lemma AuthorityParses(content: string)
    requires "//" <= content
    ensures var user := ParseUserinfo(content);
            ParseAuthority(content).Ok? <==>
            user.Ok? && ParseHost(user.value.rest).Ok? && ParsePort(ParseHost(user.value.rest).value.rest).Ok?
  {
    hide ParseUserinfo, ParseHost, ParsePort, PathAfter;
  }

  // ---------- from the parser to the pieces ----------

  lemma HostEnds(s: string, cut: HostCut)
    requires ParseHost(s) == Ok(cut)
    ensures Free(cut.host, {'[', ':', '/'}) ==> StartsIn(cut.rest, {':', '/'})
  {
    hide Find;
    var stops := {'[', ':', '/'};
    var name, tail := Before(s, stops), From(s, stops);
    if tail != "" && tail[0] == '[' {
      var literal := Before(tail, {']'});
      LiteralNotFree(name, literal, tail);
    }
  }

  lemma LiteralNotFree(name: string, literal: string, tail: string)
    requires tail != "" && tail[0] == '[' && literal == Before(tail, {']'})
    ensures !Free(name + literal + "]", {'[', ':', '/'})
  {
    hide Find, Free;
    FreeMeans("", {']'});
    assert literal + From(tail, {']'}) == tail;
    assert literal != "" && literal[0] == '[';
    FreeMeans(name + literal + "]", {'[', ':', '/'});
    assert (name + literal + "]")[|name|] == '[';
  }

  lemma PieceOfPort(s: string, cut: PortCut) returns (port: string, rest: string)
    requires ParsePort(s) == Ok(cut)
    ensures s == port + rest
    ensures port != "" ==> PortShape(port) && StartsIn(rest, {'/'})
    ensures port == "" && rest != "" ==> rest[0] != ':'
  {
    hide Before, From, Find;
    port, rest := "", cut.rest;
    if s != "" && s[0] == ':' {
      var digits := Before(s[1..], {'/'});
      port := ":" + digits;
      assert s == ":" + s[1..];
      assert port[1..] == digits;
    }
  }

  lemma PiecesOf(s: string) returns (c: AuthorityCut)
    requires ParseAuthority("//" + s).Ok?
    ensures Cuts(s, c)
  {
    hide Before, From, Find, ParseUserinfo, ParseHost, ParsePort, ParseAuthority, HostShape;
    var content := "//" + s;
    AuthorityParses(content);
    var user := ParseUserinfo(content).value;
    ParsedUserinfo(content, user);
    var host := ParseHost(user.rest).value;
    ParsedHost(user.rest, host);
    HostEnds(user.rest, host);
    var port, rest := PieceOfPort(host.rest, ParsePort(host.rest).value);
    assert port == "" ==> port + rest == rest;
    assert content[2..] == s;
    var userinfo := '@' in content;
    c := AuthorityCut(user.username, user.password, userinfo, host.host, port, rest);
    if !userinfo {
      FreeMeans(s, {'@'});
      assert forall i :: 0 <= i < |s| ==> s[i] == content[i + 2];
    }
  }

  lemma AuthorityAcceptedIff(s: string)
    ensures ParseAuthority("//" + s).Ok? <==> AuthorityAccepted(s)
  {
    hide ParseAuthority, Cuts;
    if ParseAuthority("//" + s).Ok? {
      var c := PiecesOf(s);
    }
    if AuthorityAccepted(s) {
      var c :| Cuts(s, c);
      UserinfoAccepts(c, s);
      TailAccepts(c, s);
      AuthorityParses("//" + s);
    }
  }

  // ---------- the whole text ----------

  lemma ContentAccepted(p: Parts)
    requires p.authority.Some? || !("//" <= p.path)
    ensures ParseContent(Prefixed("//", p.authority) + p.path, Hierarchical).Ok?
            <==> (p.authority.Some? ==> AuthorityAccepted(p.authority.value + p.path))
  {
    hide ParseAuthority, AuthorityAccepted;
    var content := Prefixed("//", p.authority) + p.path;
    if p.authority.Some? {
      assert content == "//" + (p.authority.value + p.path);
      AuthorityAcceptedIff(p.authority.value + p.path);
    } else {
      assert content == p.path;
    }
  }

  lemma BodyAccepted(scheme: string, body: string, separator: Separator)
    ensures ParseBody(scheme, body, Hierarchical, separator).Ok? <==>
              && ParseContent(Before(body, {'?', '#'}), Hierarchical).Ok?
              && DistinctKeys(Stanzas(ParseQuery(From(body, {'?', '#'})), separator))
  {
    hide Before, From, ParseContent, ParseQuery, DistinctKeys, Stanzas;
  }

  /** A text with these parts is accepted if and only if the parts are. */
  lemma PartsAcceptedIff(text: string, separator: Separator, p: Parts)
    requires AppendixB(text, p)
    ensures ParseUri(text, Hierarchical, separator).Ok? <==> PartsAccepted(p, separator)
  {
    hide Before, From, Find, ParseScheme, ParseBody, ParseContent, AuthorityAccepted, DistinctKeys;
    var content := Prefixed("//", p.authority) + p.path;
    var tail := Prefixed("?", p.query) + Prefixed("#", p.fragment);
    FreeOfFewer(p.scheme, {':', '/', '?', '#'}, {':'});
    SchemeAccepted(text, p.scheme, content + tail);
    QueryGroups(p.query, p.fragment, tail);
    ContentGroupsFree(p);
    CutAt(content, tail, {'?', '#'});
    BodyAccepted(p.scheme, content + tail, separator);
    ContentAccepted(p);
  }

  /** The accepted texts, without the parser: those with a decomposition whose scheme has the right
      characters, whose query has no key twice, and whose authority, if any, can be cut. */
  lemma AcceptedIff(text: string, separator: Separator)
    ensures ParseUri(text, Hierarchical, separator).Ok? <==>
              exists p :: AppendixB(text, p) && PartsAccepted(p, separator)
  {
    hide ParseUri, AppendixB, PartsAccepted, Groups;
    if ParseUri(text, Hierarchical, separator).Ok? {
      AppendixBExists(text, Hierarchical, separator, ParseUri(text, Hierarchical, separator).value);
      PartsAcceptedIff(text, separator, Groups(text));
    }
    if p :| AppendixB(text, p) && PartsAccepted(p, separator) {
      PartsAcceptedIff(text, separator, p);
    }
  }
}
