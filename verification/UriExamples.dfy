/** Accepted and refused texts on which the parser or the printer departs from what one would expect:
    one for each exact condition of the URI modules. */
module UriExamples {
  import opened Text
  import opened Wrappers
  import opened UriGrammar
  import opened UriRoundTrip
  import opened UriRfc3986
  import opened UriAcceptance

  /** A hierarchical URI without query and fragment. */
  function Plain(separator: Separator, content: string, h: Hier): UriValue {
    UriValue(Hierarchical, separator, "http", content, h, "", "", map[])
  }

  lemma PlainParses(separator: Separator, content: string)
    requires Free(content, {'?', '#'})
    ensures ParseUri("http:" + content, Hierarchical, separator) ==
            match ParseContent(content, Hierarchical)
            case Ok(h) => Ok(Plain(separator, content, h))
            case Err(e) => Err(e)
  {
    hide Before, From, Find, ParseContent;
    SchemeBack("http", content);
    assert "http" + ":" + content == "http:" + content;
    assert ("http:" + content)[5..] == content;
    assert content + "" == content;
    CutAt(content, "", {'?', '#'});
  }

  lemma HostOnly(content: string, username: string, password: string, host: string)
    requires content == "//" + (username + (":" + (password + ("@" + host))))
    requires Free(username, {':', '@'}) && Free(password, {'@'}) && Free(host, {'[', ':', '/'})
    ensures ParseContent(content, Hierarchical) == Ok(Hier(username, password, host, 0, false, ""))
  {
    hide Before, From, Find;
    SomeUserinfoBack(username, password, host);
    CutAt(host, "", {'[', ':', '/'});
    assert host + "" == host;
  }

  lemma UserinfoText()
    ensures "//u:@h" == "//" + ("u" + (":" + ("" + ("@" + "h")))) && "http:" + "//u:@h" == "http://u:@h"
    ensures Free("//u:@h", {'?', '#'}) && Free("u", {':', '@'}) && Free("", {'@'}) && Free("h", {'[', ':', '/'})
  {
    FreeMeans("//u:@h", {'?', '#'});
    FreeMeans("u", {':', '@'});
    FreeMeans("", {'@'});
    FreeMeans("h", {'[', ':', '/'});
  }

  /** A username with an empty password is accepted and not printed: the text is not a normal form,
      and the parsed value is not restored. */
  lemma UserinfoIsDropped(separator: Separator) returns (u: UriValue)
    ensures ParseUri("http://u:@h", Hierarchical, separator) == Ok(u) && u.hier.username == "u"
    ensures ParseUri(PrintUri(u), Hierarchical, separator) != Ok(Normalised(u))
    ensures ParseUri(PrintUri(u), Hierarchical, separator) != Ok(u)
  {
    hide Before, From, Find, Free, ParseUri, PrintUri, ParseContent, Normalised;
    UserinfoText();
    var content := "//u:@h";
    PlainParses(separator, content);
    HostOnly(content, "u", "", "h");
    u := Plain(separator, content, Hier("u", "", "h", 0, false, ""));
    Dropped("http:" + content, separator, u);
  }

  lemma Dropped(text: string, separator: Separator, u: UriValue)
    requires ParseUri(text, Hierarchical, separator) == Ok(u) && u.category.Hierarchical?
    requires u.hier.username != "" && u.hier.password == "" && u.separator == separator
    ensures ParseUri(PrintUri(u), Hierarchical, separator) != Ok(Normalised(u))
    ensures ParseUri(PrintUri(u), Hierarchical, separator) != Ok(u)
  {
    hide Before, From, Find, Free, ParseUri, PrintUri, ParseContent, Normalised;
    NormalFormIff(text, separator, u);
    RoundTripIff(u);
  }

  lemma LostText()
    ensures "//h:1/a@b" == "//" + ("h" + (":" + ("1/a" + ("@" + "b"))))
    ensures "http:" + "//h:1/a@b" == "http://h:1/a@b"
    ensures Free("//h:1/a@b", {'?', '#'}) && Free("h", {':', '@'}) && Free("1/a", {'@'})
    ensures Free("b", {'[', ':', '/'})
  {
    FreeMeans("//h:1/a@b", {'?', '#'});
    FreeMeans("h", {':', '@'});
    FreeMeans("1/a", {'@'});
    FreeMeans("b", {'[', ':', '/'});
  }

  lemma LostParts()
    ensures AppendixB("http://h:1/a@b", Parts("http", Some("h:1"), "/a@b", None, None))
  {
    hide Find, Free;
    FreeMeans("http", {':', '/', '?', '#'});
    FreeMeans("h:1", {'/', '?', '#'});
    FreeMeans("/a@b", {'?', '#'});
    assert "http://h:1/a@b" == "http" + (":" + (("//" + "h:1" + "/a@b") + ("" + "")));
  }

  /** An `@` in the path makes the parser read the front of the text as userinfo; the path is lost. */
  lemma PathIsLost(separator: Separator) returns (u: UriValue, p: Parts)
    ensures ParseUri("http://h:1/a@b", Hierarchical, separator) == Ok(u) && AppendixB("http://h:1/a@b", p)
    ensures u.hier == Hier("h", "1/a", "b", 0, false, "")
    ensures p == Parts("http", Some("h:1"), "/a@b", None, None) && PathText(u.hier) != p.path
  {
    hide Before, From, Find, Free, ParseUri, ParseContent, AppendixB;
    LostText();
    LostParts();
    var content := "//h:1/a@b";
    PlainParses(separator, content);
    HostOnly(content, "h", "1/a", "b");
    u := Plain(separator, content, Hier("h", "1/a", "b", 0, false, ""));
    p := Parts("http", Some("h:1"), "/a@b", None, None);
  }

  lemma RefusedText()
    ensures "//h/a@b" == "//" + ("h/a" + "@b") && "http:" + "//h/a@b" == "http://h/a@b"
    ensures Free("//h/a@b", {'?', '#'}) && Free("h/a", {':', '@'})
  {
    FreeMeans("//h/a@b", {'?', '#'});
    FreeMeans("h/a", {':', '@'});
  }

  lemma NoPassword(content: string, front: string, behind: string)
    requires content == "//" + (front + ("@" + behind)) && Free(front, {':', '@'})
    ensures ParseContent(content, Hierarchical) == Err(UsernameWithoutPassword)
  {
    hide Before, From, Find, Free;
    assert content[2..] == front + ("@" + behind);
    assert content[2 + |front|] == '@';
    CutAt(front, "@" + behind, {':', '@'});
  }

  lemma RefusedParts()
    ensures AppendixB("http://h/a@b", Parts("http", Some("h"), "/a@b", None, None))
  {
    hide Find, Free;
    FreeMeans("http", {':', '/', '?', '#'});
    FreeMeans("h", {'/', '?', '#'});
    FreeMeans("/a@b", {'?', '#'});
    assert "http://h/a@b" == "http" + (":" + (("//" + "h" + "/a@b") + ("" + "")));
  }

  /** Without a colon before it, the same `@` makes the parser refuse a text that RFC 3986 allows. */
  lemma PathIsRefused(separator: Separator)
    ensures ParseUri("http://h/a@b", Hierarchical, separator) == Err(UsernameWithoutPassword)
    ensures AppendixB("http://h/a@b", Parts("http", Some("h"), "/a@b", None, None))
  {
    hide Before, From, Find, Free, ParseUri, ParseContent, AppendixB;
    RefusedText();
    RefusedParts();
    PlainParses(separator, "//h/a@b");
    assert "@b" == "@" + "b";
    NoPassword("//h/a@b", "h/a", "b");
  }
}
