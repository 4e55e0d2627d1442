/** What a query means to the one who wrote it: `key=value` pairs joined by `&`, or by `;`. */
module UriQueryPairs {
  import opened Text
  import opened Wrappers
  import opened UriGrammar
  import opened UriQuery

  /** A pair as written; without a value it is written without `=`. */
  datatype Pair = Pair(key: string, value: Option<string>) {
    function Written(): string {
      if value.None? then key else key + "=" + value.value
    }

    function Given(): string {
      if value.None? then "" else value.value
    }
  }

  predicate Writable(p: Pair, mark: char) {
    mark !in p.key && '=' !in p.key && (p.value.Some? ==> mark !in p.value.value)
  }

  function WrittenPairs(pairs: seq<Pair>): (texts: seq<string>)
    ensures |texts| == |pairs|
    ensures forall i :: 0 <= i < |pairs| ==> texts[i] == pairs[i].Written()
  {
    seq(|pairs|, i requires 0 <= i < |pairs| => pairs[i].Written())
  }

  predicate KeysDiffer(pairs: seq<Pair>) {
    forall i, j :: 0 <= i < j < |pairs| ==> pairs[i].key != pairs[j].key
  }

  predicate IsAmong(pairs: seq<Pair>, key: string) {
    exists i :: 0 <= i < |pairs| && pairs[i].key == key
  }

  /** The dictionary of the pairs and of nothing else. */
  ghost predicate Holds(dict: map<string, string>, pairs: seq<Pair>) {
    && (forall i :: 0 <= i < |pairs| ==> pairs[i].key in dict && dict[pairs[i].key] == pairs[i].Given())
    && (forall key :: key in dict ==> IsAmong(pairs, key))
  }

  lemma AbsentIsFree(s: string, c: char)
    ensures c !in s <==> Free(s, {c})
  {
    FreeMeans(s, {c});
  }

  lemma PairReads(p: Pair, mark: char)
    requires Writable(p, mark) && mark != '='
    ensures Key(p.Written()) == p.key && ValueOf(p.Written()) == p.Given() && Free(p.Written(), {mark})
  {
    AbsentIsFree(p.key, '=');
    AbsentIsFree(p.key, mark);
    if p.value.None? {
      assert p.key + "" == p.key;
      CutAt(p.key, "", {'='});
    } else {
      var value := p.value.value;
      assert p.Written() == p.key + ("=" + value);
      CutAt(p.key, "=" + value, {'='});
      AbsentIsFree(value, mark);
      AbsentIsFree("=", mark);
      FreeConcat(p.key, "=", {mark});
      FreeConcat(p.key + "=", value, {mark});
    }
  }

  lemma PairsAreStanzas(pairs: seq<Pair>, separator: Separator, mark: char)
    requires mark == SeparatorChar(separator) && pairs != [] && Join(WrittenPairs(pairs), [mark]) != ""
    requires forall i :: 0 <= i < |pairs| ==> Writable(pairs[i], mark)
    ensures Stanzas(Join(WrittenPairs(pairs), [mark]), separator) == WrittenPairs(pairs)
  {
    forall i | 0 <= i < |pairs| ensures Free(WrittenPairs(pairs)[i], {mark}) {
      PairReads(pairs[i], mark);
    }
    SplitJoin(WrittenPairs(pairs), mark);
  }

  lemma PairsMeanDictionary(pairs: seq<Pair>, separator: Separator, mark: char)
    requires mark == SeparatorChar(separator)
    requires forall i :: 0 <= i < |pairs| ==> Writable(pairs[i], mark)
    ensures var query := Join(WrittenPairs(pairs), [mark]);
            var r := QueryDict(query, separator);
            && (r.Ok? <==> query == "" || KeysDiffer(pairs))
            && (r.Ok? ==> Holds(r.value, if query == "" then [] else pairs))
  {
    var texts := WrittenPairs(pairs);
    var query := Join(texts, [mark]);
    if query != "" {
      PairsAreStanzas(pairs, separator, mark);
      DictionaryIs(query, separator, texts);
      hide Join, QueryDict, Stanzas, Holds, DictOf;
      PairsRead(pairs, mark);
      KeysAgree(pairs, texts);
      if KeysDiffer(pairs) {
        PairsHeld(pairs, texts);
      }
    } else {
      DictionaryIs(query, separator, []);
    }
  }

  lemma DictionaryIs(query: string, separator: Separator, texts: seq<string>)
    requires Stanzas(query, separator) == texts
    ensures QueryDict(query, separator).Ok? <==> DistinctKeys(texts)
    ensures DistinctKeys(texts) ==> QueryDict(query, separator).value == DictOf(texts)
  {
  }

  lemma PairsRead(pairs: seq<Pair>, mark: char)
    requires mark != '=' && forall i :: 0 <= i < |pairs| ==> Writable(pairs[i], mark)
    ensures forall i :: 0 <= i < |pairs| ==>
              Key(WrittenPairs(pairs)[i]) == pairs[i].key && ValueOf(WrittenPairs(pairs)[i]) == pairs[i].Given()
  {
    hide Key, ValueOf;
    forall i | 0 <= i < |pairs|
      ensures Key(WrittenPairs(pairs)[i]) == pairs[i].key && ValueOf(WrittenPairs(pairs)[i]) == pairs[i].Given()
    {
      PairReads(pairs[i], mark);
    }
  }

  lemma PairsHeld(pairs: seq<Pair>, texts: seq<string>)
    requires |pairs| == |texts| && DistinctKeys(texts)
    requires forall i :: 0 <= i < |pairs| ==> Key(texts[i]) == pairs[i].key && ValueOf(texts[i]) == pairs[i].Given()
    ensures Holds(DictOf(texts), pairs)
  {
    hide DictOf, Key, ValueOf, DistinctKeys;
    forall i | 0 <= i < |pairs|
      ensures pairs[i].key in DictOf(texts) && DictOf(texts)[pairs[i].key] == pairs[i].Given()
    {
      DictLookup(texts, i);
    }
    forall key | key in DictOf(texts) ensures IsAmong(pairs, key) {
      DictKeys(texts, key);
      var i :| 0 <= i < |texts| && Key(texts[i]) == key;
      assert pairs[i].key == key;
    }
  }

  lemma KeysAgree(pairs: seq<Pair>, texts: seq<string>)
    requires |pairs| == |texts| && forall i :: 0 <= i < |pairs| ==> Key(texts[i]) == pairs[i].key
    ensures DistinctKeys(texts) <==> KeysDiffer(pairs)
  {
    hide Key;
    if DistinctKeys(texts) {
      forall i, j | 0 <= i < j < |pairs| ensures pairs[i].key != pairs[j].key {
        assert Key(texts[i]) != Key(texts[j]);
      }
    }
    if KeysDiffer(pairs) {
      forall i, j | 0 <= i < j < |texts| ensures Key(texts[i]) != Key(texts[j]) {
        assert pairs[i].key != pairs[j].key;
      }
    }
  }

  /** Pairs joined by "&" have, under the ampersand, exactly their dictionary if their keys differ,
      and none otherwise. One pair without a key or value is the empty query, which has no entry. */
  lemma AmpersandPairs(pairs: seq<Pair>)
    requires forall i :: 0 <= i < |pairs| ==> Writable(pairs[i], '&')
    ensures var query := Join(WrittenPairs(pairs), "&");
            var r := QueryDict(query, Ampersand);
            && (r.Ok? <==> query == "" || KeysDiffer(pairs))
            && (r.Ok? ==> Holds(r.value, if query == "" then [] else pairs))
  {
    PairsMeanDictionary(pairs, Ampersand, '&');
  }

  /** The same for ";" under the semicolon. */
  lemma SemicolonPairs(pairs: seq<Pair>)
    requires forall i :: 0 <= i < |pairs| ==> Writable(pairs[i], ';')
    ensures var query := Join(WrittenPairs(pairs), ";");
            var r := QueryDict(query, Semicolon);
            && (r.Ok? <==> query == "" || KeysDiffer(pairs))
            && (r.Ok? ==> Holds(r.value, if query == "" then [] else pairs))
  {
    PairsMeanDictionary(pairs, Semicolon, ';');
  }

  lemma TwoJoined(a: string, b: string, glue: string)
    ensures Join([a, b], glue) == a + glue + b
  {
    assert [a, b][1..] == [b];
  }

  /** Ordinary queries, and one that is refused. */
  lemma OrdinaryQueries()
    ensures QueryDict("a=1&b", Ampersand) == Ok(map["a" := "1", "b" := ""])
    ensures QueryDict("a=1&b", Semicolon) == Ok(map["a" := "1&b"])
    ensures QueryDict("a=1&a=2", Ampersand) == Err(DuplicateQueryKey)
  {
    hide QueryDict;
    TwoPairs("a", "1", Pair("b", None), "a=1&b");
    OnePair(Pair("a", Some("1&b")), "a=1&b");
    TwoPairs("a", "1", Pair("a", Some("2")), "a=1&a=2");
  }

  lemma OnePair(p: Pair, query: string)
    requires Writable(p, ';') && query == p.Written() != ""
    ensures QueryDict(query, Semicolon) == Ok(map[p.key := p.Given()])
  {
    hide QueryDict;
    var one := [p];
    assert WrittenPairs(one) == [p.Written()];
    assert Join([p.Written()], ";") == p.Written();
    SemicolonPairs(one);
    OneEntry(query, one);
  }

  lemma TwoPairs(key: string, value: string, second: Pair, query: string)
    requires Writable(Pair(key, Some(value)), '&') && Writable(second, '&')
    requires query == key + "=" + value + "&" + second.Written()
    ensures var r := QueryDict(query, Ampersand);
            if key == second.key then r == Err(DuplicateQueryKey)
            else r == Ok(map[key := value, second.key := second.Given()])
  {
    hide QueryDict;
    var pairs := [Pair(key, Some(value)), second];
    assert WrittenPairs(pairs) == [key + "=" + value, second.Written()];
    TwoJoined(key + "=" + value, second.Written(), "&");
    AmpersandPairs(pairs);
    DictOrDuplicate(query, Ampersand);
    var r := QueryDict(query, Ampersand);
    if key != second.key {
      var expected := map[key := value, second.key := second.Given()];
      assert pairs[0].key == key && pairs[1].key == second.key;
      assert forall k :: k in r.value ==> k == key || k == second.key;
      assert r.value == expected;
    } else {
      assert !KeysDiffer(pairs) by { assert pairs[0].key == pairs[1].key; }
    }
  }

  lemma DictOrDuplicate(query: string, separator: Separator)
    ensures QueryDict(query, separator).Err? ==> QueryDict(query, separator) == Err(DuplicateQueryKey)
  {
  }

  lemma OneEntry(query: string, one: seq<Pair>)
    requires |one| == 1 && QueryDict(query, Semicolon).Ok? && Holds(QueryDict(query, Semicolon).value, one)
    ensures QueryDict(query, Semicolon) == Ok(map[one[0].key := one[0].Given()])
  {
    hide QueryDict;
    var dict := QueryDict(query, Semicolon).value;
    assert forall key :: key in dict ==> key == one[0].key;
    assert dict == map[one[0].key := one[0].Given()];
  }
}
