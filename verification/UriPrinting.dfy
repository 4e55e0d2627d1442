/** Exactly which accepted texts are printed as they were written. */
module UriPrinting {
  import opened Text
  import opened Wrappers
  import opened UriGrammar
  import opened UriRoundTrip
  import opened UriRfc3986
  import opened UriAcceptance

  // ---------- ports ----------

  lemma {:induction false} LeadingZero(d: string)
    requires AllDigits(d) && d != "" && d[0] == '0'
    ensures Value(d) == Value(d[1..])
  {
    var front := d[..|d| - 1];
    if front != "" {
      LeadingZero(front);
      assert d[1..][..|d| - 2] == front[1..];
    } else {
      assert d == ['0'] && d[1..] == "";
    }
  }

  lemma {:induction false} ValueIsPositive(d: string)
    requires AllDigits(d) && d != "" && d[0] != '0'
    ensures Value(d) > 0
  {
    if |d| > 1 { ValueIsPositive(d[..|d| - 1]); }
  }

  lemma {:induction false} DecimalOfValue(d: string)
    requires AllDigits(d) && d != "" && d[0] != '0'
    ensures Decimal(Value(d)) == d
  {
    var front, c := d[..|d| - 1], d[|d| - 1];
    assert d == front + [c];
    ValueSnoc(front, c);
    if front != "" {
      ValueIsPositive(front);
      DecimalOfValue(front);
      hide Value, Decimal;
      LastDigitAgain(Value(front), c);
    }
  }

  lemma LastDigitAgain(v: nat, c: char)
    requires IsDigit(c) && v > 0
    ensures Decimal(10 * v + (c as int - '0' as int)) == Decimal(v) + [c]
  {
    var n := 10 * v + (c as int - '0' as int);
    assert n / 10 == v && DigitChar(n % 10) == c;
  }

  /** A port is printed as it was written unless its first digit is zero; then it gets shorter. */
  lemma PortPrinted(port: string)
    requires PortShape(port)
    ensures port[1] != '0' ==> PortText(Value(port[1..])) == port
    ensures port[1] == '0' ==> |PortText(Value(port[1..]))| < |port|
  {
    var d := port[1..];
    assert port == ":" + d;
    if d[0] != '0' {
      DecimalOfValue(d);
      ValueIsPositive(d);
    } else {
      LeadingZero(d);
      if Value(d) > 0 { DecimalShortest(d[1..]); }
    }
  }

  // ---------- the authority and the path ----------

  /** What each piece is parsed to. */
  predicate ParsedCut(s: string, c: AuthorityCut, h: Hier) {
    && h.username == (if c.userinfo then c.username else "")
    && h.password == (if c.userinfo then c.password else "")
    && h.host == c.host
    && h.port == (if PortShape(c.port) then Value(c.port[1..]) else 0)
    && PathAfter("//" + s, c.rest) == (h.rooted, h.path)
  }

  lemma UserinfoOfCut(s: string, c: AuthorityCut)
    requires Cuts(s, c)
    ensures ParseUserinfo("//" + s) ==
            Ok(UserinfoCut(
                 if c.userinfo then c.username else "",
                 if c.userinfo then c.password else "",
                 AfterUserinfo(c)))
  {
    hide Before, From, Find, ParseUserinfo, HostShape, AfterUserinfo;
    if c.userinfo {
      SomeUserinfoBack(c.username, c.password, AfterUserinfo(c));
    } else {
      NoUserinfoBack(s);
    }
  }

  lemma PortOfCut(s: string, c: AuthorityCut)
    requires Cuts(s, c)
    ensures ParsePort(c.port + c.rest) == Ok(PortCut(if PortShape(c.port) then Value(c.port[1..]) else 0, c.rest))
  {
    hide Before, From, Find, HostShape;
    if c.port != "" {
      var digits := c.port[1..];
      assert (c.port + c.rest)[1..] == digits + c.rest;
      FreeMeans(digits, {'/'});
      CutAt(digits, c.rest, {'/'});
    } else {
      assert c.port + c.rest == c.rest;
    }
  }

  lemma CutIsParsed(s: string, c: AuthorityCut, h: Hier)
    requires Cuts(s, c) && ParseAuthority("//" + s) == Ok(h)
    ensures ParsedCut(s, c, h)
  {
    hide Before, From, Find, ParseUserinfo, ParseHost, ParsePort, PathAfter, HostShape, Cuts, AfterUserinfo, PortShape;
    UserinfoOfCut(s, c);
    HostAccepts(c, s);
    PortOfCut(s, c);
  }

  /** Userinfo with both halves, a port whose first digit is not zero, and then a path. */
  predicate NormalCut(c: AuthorityCut) {
    && (c.userinfo ==> c.username != "" && c.password != "")
    && (c.port != "" ==> |c.port| > 1 && c.port[1] != '0')
    && StartsIn(c.rest, {'/'})
  }

  function WrittenUserinfo(c: AuthorityCut): string {
    if c.userinfo then c.username + ":" + c.password + "@" else ""
  }

  lemma CutWritten(s: string, c: AuthorityCut)
    requires Cuts(s, c)
    ensures "//" + s == "//" + WrittenUserinfo(c) + c.host + c.port + c.rest
  {
    hide Before, From, Find, Free, HostShape, PortShape;
    if c.userinfo {
      Regroup4(c.username, c.password, AfterUserinfo(c));
    } else {
      assert "" + AfterUserinfo(c) == AfterUserinfo(c);
    }
    Regroup3(WrittenUserinfo(c), c.host, c.port, c.rest);
  }

  lemma Regroup4(username: string, password: string, after: string)
    ensures username + (":" + (password + ("@" + after))) == (username + ":" + password + "@") + after
  {
  }

  lemma Regroup3(a: string, b: string, c: string, d: string)
    ensures "//" + (a + (b + (c + d))) == "//" + a + b + c + d
  {
  }

  lemma UserinfoPrinted(s: string, c: AuthorityCut, h: Hier)
    requires ParsedCut(s, c, h)
    ensures (c.userinfo ==> c.username != "" && c.password != "") ==> UserinfoText(h) == WrittenUserinfo(c)
    ensures !(c.userinfo ==> c.username != "" && c.password != "") ==> |UserinfoText(h)| < |WrittenUserinfo(c)|
  {
    hide PathAfter, PortShape;
  }

  lemma PathPrinted(s: string, c: AuthorityCut, h: Hier)
    requires ParsedCut(s, c, h)
    ensures StartsIn(c.rest, {'/'}) ==> PathText(h) == c.rest
    ensures !StartsIn(c.rest, {'/'}) ==> PathText(h) == "//" + s
  {
    hide PortShape;
    if c.rest != "" && c.rest[0] == '/' {
      assert c.rest == "/" + c.rest[1..];
    }
  }

  lemma PortOfCutPrinted(s: string, c: AuthorityCut, h: Hier)
    requires Cuts(s, c) && ParsedCut(s, c, h)
    ensures (c.port == "" || c.port[1] != '0') ==> PortText(h.port) == c.port
    ensures (c.port != "" && c.port[1] == '0') ==> |PortText(h.port)| < |c.port|
  {
    hide HostShape, Free, PathAfter;
    if c.port != "" { PortPrinted(c.port); }
  }

  /** The content is printed as written exactly for a normal cut: otherwise it gets shorter, or
      longer by a path that is the whole content. */
  lemma ContentPrintedIff(s: string, c: AuthorityCut, h: Hier)
    requires Cuts(s, c) && ParseAuthority("//" + s) == Ok(h)
    ensures "//" + UserinfoText(h) + h.host + PortText(h.port) + PathText(h) == "//" + s <==> NormalCut(c)
  {
    CutIsParsed(s, c, h);
    CutWritten(s, c);
    UserinfoPrinted(s, c, h);
    PortOfCutPrinted(s, c, h);
    PathPrinted(s, c, h);
    assert h.host == c.host;
    assert c.port != "" ==> |c.port| > 1;
    hide Cuts, ParsedCut, UserinfoText, PortText, PathText, ParseAuthority, WrittenUserinfo, StartsIn;
    PiecesEqualOrNot(WrittenUserinfo(c), UserinfoText(h), c.host, c.port, PortText(h.port), c.rest, PathText(h));
  }

  lemma PiecesEqualOrNot(u: string, u': string, host: string, p: string, p': string, q: string, q': string)
    ensures u == u' && p == p' && q == q' ==> "//" + u' + host + p' + q' == "//" + u + host + p + q
    ensures q == q' && |u'| <= |u| && |p'| <= |p| && (|u'| < |u| || |p'| < |p|) ==>
              "//" + u' + host + p' + q' != "//" + u + host + p + q
    ensures q' == "//" + u + host + p + q ==> "//" + u' + host + p' + q' != "//" + u + host + p + q
  {
    assert |"//" + u' + host + p' + q'| == 2 + |u'| + |host| + |p'| + |q'|;
    assert |"//" + u + host + p + q| == 2 + |u| + |host| + |p| + |q|;
  }

  // ---------- the whole text ----------

  lemma MarksPrinted(query: Option<string>, fragment: Option<string>)
    ensures var printed := QueryText(OrEmpty(query)) + FragmentText(OrEmpty(fragment));
            printed == Prefixed("?", query) + Prefixed("#", fragment) <==> query != Some("") && fragment != Some("")
  {
    var q, q' := Prefixed("?", query), QueryText(OrEmpty(query));
    var f, f' := Prefixed("#", fragment), FragmentText(OrEmpty(fragment));
    assert |q'| <= |q| && (q' == q <==> query != Some("")) && (q' != q ==> |q'| < |q|);
    assert |f'| <= |f| && (f' == f <==> fragment != Some("")) && (f' != f ==> |f'| < |f|);
    assert |q' + f'| == |q'| + |f'| && |q + f| == |q| + |f|;
  }

  /** The texts agree exactly if their contents and what stands behind them do. */
  lemma HalvesAgree(scheme: string, content: string, tail: string, content': string, tail': string)
    requires Free(content, {'?', '#'}) && StartsIn(tail, {'?', '#'})
    requires Free(content', {'?', '#'}) && StartsIn(tail', {'?', '#'})
    ensures scheme + (":" + (content + tail)) == scheme + (":" + (content' + tail'))
            <==> content == content' && tail == tail'
  {
    hide Before, From, Find, Free;
    CutAt(content, tail, {'?', '#'});
    CutAt(content', tail', {'?', '#'});
    var a, b := content + tail, content' + tail';
    if scheme + (":" + a) == scheme + (":" + b) {
      assert (scheme + (":" + a))[|scheme| + 1..] == a;
      assert (scheme + (":" + b))[|scheme| + 1..] == b;
    }
  }

  lemma PrintRegrouped(u: UriValue)
    ensures PrintUri(u) == u.scheme + (":" + (ContentText(u) + (QueryText(u.query) + FragmentText(u.fragment))))
  {
    hide ContentText, QueryText, FragmentText;
    var a, b, c, d := u.scheme, ContentText(u), QueryText(u.query), FragmentText(u.fragment);
    assert a + ":" + b + c + d == a + (":" + (b + (c + d)));
  }

  lemma MarkedTail(query: string, fragment: string)
    ensures StartsIn(QueryText(query) + FragmentText(fragment), {'?', '#'})
  {
  }

  /** An accepted text of either category is printed as written exactly if its content is and it has
      no mark of an empty query or fragment. */
  lemma PrintedTextIff(text: string, category: Category, separator: Separator, u: UriValue, p: Parts)
    requires ParseUri(text, category, separator) == Ok(u) && AppendixB(text, p)
    requires Free(ContentText(u), {'?', '#'})
    ensures PrintUri(u) == text <==>
              ContentText(u) == u.content && p.query != Some("") && p.fragment != Some("")
  {
    hide Before, From, Find, Free, ParseUri, PrintUri, ContentText;
    hide QueryText, FragmentText, Prefixed, OrEmpty, StartsIn;
    OuterSplit(text, category, separator, u, p);
    ParsedText(text, category, separator, u);
    var tail := Prefixed("?", p.query) + Prefixed("#", p.fragment);
    var tail' := QueryText(u.query) + FragmentText(u.fragment);
    QueryGroups(p.query, p.fragment, tail);
    MarkedTail(u.query, u.fragment);
    PrintRegrouped(u);
    HalvesAgree(u.scheme, ContentText(u), tail', u.content, tail);
    MarksPrinted(p.query, p.fragment);
  }

  ghost predicate NormalAuthority(s: string) {
    exists c :: Cuts(s, c) && NormalCut(c)
  }

  /** An accepted hierarchical text is printed as it was written if and only if it has an authority
      with both halves of the userinfo or none, a port without leading zero other than 0, or none,
      nothing but a path behind that, and no mark of an empty query or fragment. */
  lemma PrintedAsWrittenIff(text: string, separator: Separator, u: UriValue, p: Parts)
    requires ParseUri(text, Hierarchical, separator) == Ok(u) && AppendixB(text, p)
    ensures PrintUri(u) == text <==>
              && p.authority.Some? && NormalAuthority(p.authority.value + p.path)
              && p.query != Some("") && p.fragment != Some("")
  {
    hide Before, From, Find, Free, ParseUri, PrintUri, ContentText, AppendixB, NormalAuthority, Prefixed, ParseContent;
    OuterSplit(text, Hierarchical, separator, u, p);
    ParsedText(text, Hierarchical, separator, u);
    ParsedContentFree(u, u.content);
    PrintedTextIff(text, Hierarchical, separator, u, p);
    if p.authority.Some? {
      WithAuthority(p);
      AuthorityPrintedIff(p.authority.value + p.path, u);
    } else {
      NoAuthorityPrinted(text, separator, u, p);
    }
  }

  lemma AuthorityPrintedIff(s: string, u: UriValue)
    requires u.category.Hierarchical? && u.content == "//" + s && ParseContent(u.content, Hierarchical) == Ok(u.hier)
    ensures ContentText(u) == u.content <==> NormalAuthority(s)
  {
    hide ParseAuthority, Cuts, NormalCut, UserinfoText, PortText, PathText;
    assert "//" <= u.content;
    var c := PiecesOf(s);
    ContentPrintedIff(s, c, u.hier);
    if NormalAuthority(s) {
      var normal :| Cuts(s, normal) && NormalCut(normal);
      ContentPrintedIff(s, normal, u.hier);
    }
  }

  /** Without an authority the printed text begins with slashes that the text does not have. */
  lemma NoAuthorityPrinted(text: string, separator: Separator, u: UriValue, p: Parts)
    requires ParseUri(text, Hierarchical, separator) == Ok(u) && AppendixB(text, p) && p.authority.None?
    ensures ContentText(u) != u.content
  {
    hide Before, From, Find, Free, ParseUri, PrintUri, ParseContent, UserinfoText, PortText, PathText;
    OuterSplit(text, Hierarchical, separator, u, p);
    ParsedText(text, Hierarchical, separator, u);
    assert u.content == p.path;
    assert ContentText(u)[0] == '/' && ContentText(u)[1] == '/';
    assert !("//" <= u.content);
    assert "//" <= ContentText(u);
  }

  /** An accepted non-hierarchical text is printed as it was written unless it has an empty mark. */
  lemma PlainPrintedIff(text: string, separator: Separator, u: UriValue, p: Parts)
    requires ParseUri(text, NonHierarchical, separator) == Ok(u) && AppendixB(text, p)
    ensures PrintUri(u) == text <==> p.query != Some("") && p.fragment != Some("")
  {
    ParsedText(text, NonHierarchical, separator, u);
    hide Before, From, Find, Free, ParseUri, PrintUri, AppendixB;
    assert ContentText(u) == u.content;
    PrintedTextIff(text, NonHierarchical, separator, u, p);
  }
}
