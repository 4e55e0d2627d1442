/** The URI class: cursor loops over the text that assign the fields one component at a time,
    each proved to compute its function of `UriGrammar`. A cursor is an index into the text,
    and every dereference is proved to be inside it. */
module Uri {
  import opened Text
  import opened UriGrammar
  import UriQuery

  /** A cursor over characters that are no stops is still inside `Before`. */
  lemma NotYet(s: string, stops: set<char>, i: nat)
    requires i < |s| && forall k :: 0 <= k <= i ==> s[k] !in stops
    ensures i < |Before(s, stops)| && Before(s, stops)[i] == s[i]
  {
    FindIsFirst(s, stops, 0, Find(s, stops, 0));
  }

  lemma BodySteps(scheme: string, body: string, category: Category, separator: Separator)
    ensures var content, tail := Before(body, {'?', '#'}), From(body, {'?', '#'});
            var hier := UriGrammar.ParseContent(content, category);
            var query := UriGrammar.ParseQuery(tail);
            var fragment := UriGrammar.ParseFragment(AfterQuery(tail));
            var dict := QueryDict(query, separator);
            ParseBody(scheme, body, category, separator) ==
            if hier.Err? then Err(hier.error)
            else if dict.Err? then Err(dict.error)
            else Ok(UriValue(category, separator, scheme, content, hier.value, query, fragment, dict.value))
  {
  }

  lemma TextSteps(text: string, category: Category, separator: Separator)
    ensures ParseUri(text, category, separator) ==
            if text == "" then Err(EmptyText)
            else
              var scheme := UriGrammar.ParseScheme(text);
              if scheme.Err? then Err(scheme.error)
              else ParseBody(scheme.value, text[|scheme.value| + 1..], category, separator)
  {
  }

  lemma QueryCursor(text: string, cursor: nat)
    requires cursor <= |text|
    ensures if cursor < |text| && text[cursor] == '?'
            then UriGrammar.ParseQuery(text[cursor..]) == Before(text[cursor + 1..], {'#'})
                 && AfterQuery(text[cursor..]) == From(text[cursor + 1..], {'#'})
            else UriGrammar.ParseQuery(text[cursor..]) == "" && AfterQuery(text[cursor..]) == text[cursor..]
  {
    hide Before, From, Find;
    if cursor < |text| {
      assert text[cursor..][1..] == text[cursor + 1..];
    }
  }

  lemma FragmentCursor(text: string, cursor: nat)
    requires cursor <= |text|
    ensures UriGrammar.ParseFragment(text[cursor..])
         == if cursor < |text| && text[cursor] == '#' then text[cursor + 1..] else ""
  {
  }

  lemma NoPort(s: string)
    ensures s == "" || s[0] != ':' ==> UriGrammar.ParsePort(s) == Ok(PortCut(0, s))
  {
  }

  lemma PathSlice(content: string, cursor: nat, pathStart: nat)
    requires cursor <= |content|
    requires pathStart == if cursor == |content| then |content|
                          else if content[cursor] == '/' then cursor + 1 else 0
    ensures PathAfter(content, content[cursor..])
         == (cursor < |content| && content[cursor] == '/', content[pathStart..])
  {
  }

  lemma AtBehindSlashes(content: string)
    requires "//" <= content && '@' in content
    ensures '@' in content[2..]
  {
    var i :| 0 <= i < |content| && content[i] == '@';
    assert content[2..][i - 2] == '@';
  }

  /** What the host parser makes of a `[` found at `i` and the `]` found, or not, at `j`. */
  lemma HostWithLiteral(content: string, start: nat, i: nat, j: nat)
    requires start <= i < j <= |content| && content[i] == '['
    requires forall k :: start <= k < i ==> content[k] !in {'[', ':', '/'}
    requires forall k :: i <= k < j ==> content[k] !in {']'}
    requires j == |content| || content[j] == ']'
    ensures UriGrammar.ParseHost(content[start..])
         == if j == |content| then Err(HostUnterminated)
            else Ok(HostCut(content[start..j + 1], content[j + 1..]))
  {
    hide Before, From, Find;
    CutAtCursor(content, {'[', ':', '/'}, start, i);
    CutAtCursor(content, {']'}, i, j);
    if j < |content| {
      assert content[start..i] + content[i..j] + "]" == content[start..j + 1];
    }
  }

  class Uri {
    var category: Category
    var separator: Separator
    var scheme: string
    var content: string
    var username: string
    var password: string
    var host: string
    var port: nat
    var rooted: bool
    var path: string
    var query: string
    var fragment: string
    var queryDict: map<string, string>

    /** The components as one value. */
    function Current(): UriValue
      reads this
    {
      UriValue(category, separator, scheme, content, Components(), query, fragment, queryDict)
    }

    function Components(): Hier
      reads this
    {
      Hier(username, password, host, port, rooted, path)
    }

    constructor (category: Category, separator: Separator)
      ensures Current() == UriValue(category, separator, "", "", NO_HIER, "", "", map[])
    {
      this.category, this.separator := category, separator;
      scheme, content, username, password, host := "", "", "", "", "";
      port, rooted, path, query, fragment, queryDict := 0, false, "", "", "", map[];
    }

    /** Parses `text` into a blank object, failing exactly when and as `ParseUri` fails. */
    method Setup(text: string) returns (r: Result<()>)
      requires Current() == UriValue(category, separator, "", "", NO_HIER, "", "", map[])
      modifies this
      ensures match ParseUri(text, old(category), old(separator))
              case Ok(u) => r == Ok(()) && Current() == u
              case Err(e) => r == Err(e)
    {
      hide Before, From, Find, ParseUri, ParseBody, QueryDict, AfterQuery;
      hide UriGrammar.ParseScheme, UriGrammar.ParseContent, UriGrammar.ParseQuery, UriGrammar.ParseFragment;
      TextSteps(text, category, separator);
      if |text| == 0 {
        return Err(EmptyText);
      }
      var cursor :- ParseScheme(text);
      BodySteps(scheme, text[cursor + 1..], category, separator);
      cursor :- ParseContent(text, cursor + 1);
      SetupQueryAndFragment(text, cursor);
      queryDict :- UriQuery.InitQueryDictionary(query, separator);
      return Ok(());
    }

    /** The two optional components of `Setup`, behind the content. */
    method SetupQueryAndFragment(text: string, start: nat)
      requires start <= |text| && query == "" && fragment == ""
      modifies this`query, this`fragment
      ensures query == UriGrammar.ParseQuery(text[start..])
      ensures fragment == UriGrammar.ParseFragment(AfterQuery(text[start..]))
    {
      hide Before, From, Find, UriGrammar.ParseQuery, AfterQuery, UriGrammar.ParseFragment;
      var cursor := start;
      QueryCursor(text, cursor);
      if cursor < |text| && text[cursor] == '?' {
        cursor := ParseQuery(text, cursor + 1);
      }
      FragmentCursor(text, cursor);
      if cursor < |text| && text[cursor] == '#' {
        cursor := ParseFragment(text, cursor + 1);
      }
    }

    method ParseScheme(text: string) returns (r: Result<nat>)
      modifies this`scheme
      ensures match UriGrammar.ParseScheme(text)
              case Ok(s) => r == Ok(|s|) && scheme == s && |s| < |text| && text[|s|] == ':'
              case Err(e) => r == Err(e)
    {
      var schemeEnd := 0;
      FindIsFirst(text, {':'}, 0, Find(text, {':'}, 0));
      while schemeEnd < |text| && text[schemeEnd] != ':'
        invariant schemeEnd <= |Before(text, {':'})|
        invariant SchemeChars(text[..schemeEnd])
      {
        if !SchemeChar(text[schemeEnd]) {
          assert Before(text, {':'})[schemeEnd] == text[schemeEnd];
          return Err(BadSchemeCharacter);
        }
        schemeEnd := schemeEnd + 1;
      }
      assert text[..schemeEnd] == Before(text, {':'});
      if schemeEnd == |text| {
        return Err(SchemeUnterminated);
      }
      if schemeEnd == 0 {
        return Err(SchemeEmpty);
      }
      scheme := text[..schemeEnd];
      return Ok(schemeEnd);
    }

    method ParseContent(text: string, start: nat) returns (r: Result<nat>)
      requires start <= |text| && Components() == NO_HIER
      modifies this`content, this`username, this`password, this`host, this`port, this`rooted, this`path
      ensures var body := text[start..];
              match UriGrammar.ParseContent(Before(body, {'?', '#'}), category)
              case Ok(h) => && r.Ok? && start <= r.value <= |text|
                            && text[r.value..] == From(body, {'?', '#'})
                            && content == Before(body, {'?', '#'}) && Components() == h
              case Err(e) => r == Err(e)
    {
      hide Before, From, Find, UriGrammar.ParseAuthority;
      var contentEnd := start;
      while contentEnd < |text| && text[contentEnd] != '?' && text[contentEnd] != '#'
        invariant start <= contentEnd <= |text|
        invariant forall k :: start <= k < contentEnd ==> text[k] !in {'?', '#'}
      {
        contentEnd := contentEnd + 1;
      }
      CutAtCursor(text, {'?', '#'}, start, contentEnd);
      content := text[start..contentEnd];
      if category.Hierarchical? && |content| > 0 {
        if "//" <= content {
          var _ :- ParseAuthority();
        } else if content[0] == '/' {
          rooted := true;
          path := content[1..];
        } else {
          path := content;
        }
      }
      return Ok(contentEnd);
    }

    method ParseAuthority() returns (r: Result<()>)
      requires "//" <= content && Components() == NO_HIER
      modifies this`username, this`password, this`host, this`port, this`rooted, this`path
      ensures match UriGrammar.ParseAuthority(content)
              case Ok(h) => r == Ok(()) && Components() == h
              case Err(e) => r == Err(e)
    {
      hide Before, From, Find, UriGrammar.ParseUserinfo, UriGrammar.ParseHost, UriGrammar.ParsePort;
      var cursor :- ParseUserinfo();
      cursor :- ParseHost(cursor);
      NoPort(content[cursor..]);
      if cursor < |content| && content[cursor] == ':' {
        cursor :- ParsePort(cursor + 1);
      }
      var pathStart := 0;
      if cursor < |content| && content[cursor] == '/' {
        rooted := true;
        pathStart := cursor + 1;
      }
      if cursor == |content| {
        pathStart := |content|;
      }
      path := content[pathStart..];
      PathSlice(content, cursor, pathStart);
      return Ok(());
    }

    method ParseUserinfo() returns (r: Result<nat>)
      requires "//" <= content && Components() == NO_HIER
      modifies this`username, this`password
      ensures match UriGrammar.ParseUserinfo(content)
              case Ok(cut) => r.Ok? && r.value <= |content| && content[r.value..] == cut.rest
                              && username == cut.username && password == cut.password
              case Err(e) => r == Err(e)
    {
      hide Before, From, Find, Free;
      var cursor := 2;
      if '@' in content {
        AtBehindSlashes(content);
        var divider :- ParseUsername(cursor);
        assert content[divider..][1..] == content[divider + 1..];
        cursor := ParsePassword(divider + 1);
        assert content[cursor..][1..] == content[cursor + 1..];
        cursor := cursor + 1;
      }
      return Ok(cursor);
    }

    /** The loop has no end-of-text test: the `@` ahead is what stops it. */
    method ParseUsername(start: nat) returns (r: Result<nat>)
      requires start <= |content| && '@' in content[start..]
      modifies this`username
      ensures var divider := From(content[start..], {':', '@'});
              && divider != ""
              && (if divider[0] == '@' then r == Err(UsernameWithoutPassword)
                  else && r.Ok? && r.value < |content| && content[r.value..] == divider
                       && username == Before(content[start..], {':', '@'})
                       && '@' in content[r.value + 1..])
    {
      var usernameEnd := start;
      while content[usernameEnd] != ':'
        invariant start <= usernameEnd <= |content| && '@' in content[usernameEnd..]
        invariant forall k :: start <= k < usernameEnd ==> content[k] !in {':', '@'}
        decreases |content| - usernameEnd
      {
        if content[usernameEnd] == '@' {
          CutAtCursor(content, {':', '@'}, start, usernameEnd);
          return Err(UsernameWithoutPassword);
        }
        assert content[usernameEnd..] == [content[usernameEnd]] + content[usernameEnd + 1..];
        usernameEnd := usernameEnd + 1;
      }
      CutAtCursor(content, {':', '@'}, start, usernameEnd);
      assert content[usernameEnd..] == [content[usernameEnd]] + content[usernameEnd + 1..];
      username := content[start..usernameEnd];
      return Ok(usernameEnd);
    }

    method ParsePassword(start: nat) returns (end: nat)
      requires start <= |content| && '@' in content[start..]
      modifies this`password
      ensures start <= end < |content| && content[end] == '@'
      ensures password == Before(content[start..], {'@'}) && content[end..] == From(content[start..], {'@'})
    {
      end := start;
      while content[end] != '@'
        invariant start <= end <= |content| && '@' in content[end..]
        invariant forall k :: start <= k < end ==> content[k] !in {'@'}
        decreases |content| - end
      {
        assert content[end..] == [content[end]] + content[end + 1..];
        end := end + 1;
      }
      CutAtCursor(content, {'@'}, start, end);
      password := content[start..end];
    }

    method ParseHost(start: nat) returns (r: Result<nat>)
      requires start <= |content|
      modifies this`host
      ensures match UriGrammar.ParseHost(content[start..])
              case Ok(cut) => r.Ok? && start <= r.value <= |content|
                              && content[r.value..] == cut.rest && host == cut.host
              case Err(e) => r == Err(e)
    {
      hide Before, From, Find;
      var hostEnd := start;
      ghost var literalFrom := |content|;
      while hostEnd < |content|
        invariant start <= hostEnd <= |content|
        invariant literalFrom == |content|
        invariant forall k :: start <= k < hostEnd ==> content[k] !in {'[', ':', '/'}
      {
        if content[hostEnd] == '[' {
          literalFrom := hostEnd;
          while hostEnd < |content| && content[hostEnd] != ']'
            invariant literalFrom <= hostEnd <= |content|
            invariant forall k :: literalFrom <= k < hostEnd ==> content[k] !in {']'}
          {
            hostEnd := hostEnd + 1;
          }
          HostWithLiteral(content, start, literalFrom, hostEnd);
          if hostEnd == |content| {
            return Err(HostUnterminated);
          }
          hostEnd := hostEnd + 1;
          break;
        } else if content[hostEnd] == ':' || content[hostEnd] == '/' {
          break;
        } else {
          hostEnd := hostEnd + 1;
        }
      }
      if literalFrom == |content| {
        CutAtCursor(content, {'[', ':', '/'}, start, hostEnd);
      }
      host := content[start..hostEnd];
      return Ok(hostEnd);
    }

    /** `start` is past the colon. `std::stoul` refuses no digits and more than 64 bits. */
    method ParsePort(start: nat) returns (r: Result<nat>)
      requires 0 < start <= |content| && content[start - 1] == ':'
      modifies this`port
      ensures match UriGrammar.ParsePort(content[start - 1..])
              case Ok(cut) => r.Ok? && start <= r.value <= |content|
                              && content[r.value..] == cut.rest && port == cut.port
              case Err(e) => r == Err(e)
    {
      hide Before, From;
      assert content[start - 1..][1..] == content[start..];
      ghost var digits := Before(content[start..], {'/'});
      var portEnd := start;
      while portEnd < |content| && content[portEnd] != '/'
        invariant start <= portEnd <= |content|
        invariant forall k :: start <= k < portEnd ==> content[k] !in {'/'}
        invariant AllDigits(content[start..portEnd])
      {
        if !IsDigit(content[portEnd]) {
          NotYet(content[start..], {'/'}, portEnd - start);
          return Err(BadPortCharacter);
        }
        assert content[start..portEnd + 1] == content[start..portEnd] + [content[portEnd]];
        portEnd := portEnd + 1;
      }
      CutAtCursor(content, {'/'}, start, portEnd);
      if portEnd == start {
        return Err(PortEmpty);
      }
      var value := Value(content[start..portEnd]);
      if value > MAX_PORT {
        return Err(PortOutOfRange);
      }
      port := value;
      return Ok(portEnd);
    }

    method ParseQuery(text: string, start: nat) returns (end: nat)
      requires start <= |text|
      modifies this`query
      ensures start <= end <= |text|
      ensures query == Before(text[start..], {'#'}) && text[end..] == From(text[start..], {'#'})
    {
      end := start;
      while end < |text| && text[end] != '#'
        invariant start <= end <= |text|
        invariant forall k :: start <= k < end ==> text[k] !in {'#'}
      {
        end := end + 1;
      }
      CutAtCursor(text, {'#'}, start, end);
      query := text[start..end];
    }

    method ParseFragment(text: string, start: nat) returns (end: nat)
      requires start <= |text|
      modifies this`fragment
      ensures fragment == text[start..] && end == |text|
    {
      fragment := text[start..];
      end := |text|;
    }

    /** Copy assignment takes over every field, the dictionary included. */
    method CopyFrom(other: Uri)
      modifies this
      ensures Current() == old(other.Current())
    {
      if this != other {
        scheme, content, username, password := other.scheme, other.content, other.username, other.password;
        host, path, query, fragment := other.host, other.path, other.query, other.fragment;
        queryDict, category, port := other.queryDict, other.category, other.port;
        rooted, separator := other.rooted, other.separator;
      }
    }

    method ToString() returns (fullUri: string)
      ensures fullUri == PrintUri(Current())
    {
      hide UserinfoText, PortText;
      fullUri := scheme;
      fullUri := fullUri + ":";
      ghost var head, front := fullUri, content;
      if category.Hierarchical? {
        fullUri := AppendAuthority(fullUri);
        front := "//" + UserinfoText(Components()) + host + PortText(port);
      } else {
        fullUri := fullUri + content;
      }
      assert fullUri == head + front;
      if rooted {
        fullUri := fullUri + "/";
      }
      fullUri := fullUri + path;
      assert fullUri == head + (front + PathText(Components()));
      if query != "" {
        fullUri := fullUri + "?";
        fullUri := fullUri + query;
      }
      assert fullUri == head + ContentText(Current()) + QueryText(query);
      if fragment != "" {
        fullUri := fullUri + "#";
        fullUri := fullUri + fragment;
      }
    }

    method AppendAuthority(head: string) returns (fullUri: string)
      ensures fullUri == head + ("//" + UserinfoText(Components()) + host + PortText(port))
    {
      ghost var userinfo, portText := UserinfoText(Components()), PortText(port);
      assert head + ("//" + userinfo + host + portText) == head + "//" + userinfo + host + portText;
      fullUri := head + "//";
      if !(username == "" || password == "") {
        fullUri := fullUri + username;
        fullUri := fullUri + ":";
        fullUri := fullUri + password;
        fullUri := fullUri + "@";
      }
      assert fullUri == head + "//" + userinfo;
      fullUri := fullUri + host;
      if port != 0 {
        fullUri := fullUri + ":";
        fullUri := fullUri + Decimal(port);
      }
    }
  }
}
