/** The query dictionary: when it exists, what it holds, and the loop that fills it. */
module UriQuery {
  import opened Text
  import opened Wrappers
  import opened UriGrammar

  predicate HasKey(stanzas: seq<string>, key: string) {
    exists i :: 0 <= i < |stanzas| && Key(stanzas[i]) == key
  }

  lemma {:induction false} DictKeys(stanzas: seq<string>, key: string)
    ensures key in DictOf(stanzas) <==> HasKey(stanzas, key)
  {
    if stanzas != [] {
      var front, last := stanzas[..|stanzas| - 1], stanzas[|stanzas| - 1];
      DictKeys(front, key);
      if HasKey(front, key) {
        var i :| 0 <= i < |front| && Key(front[i]) == key;
        assert Key(stanzas[i]) == key;
      }
      if Key(last) == key {
        assert Key(stanzas[|stanzas| - 1]) == key;
      }
    }
  }

  /** The dictionary is the map of the stanzas' keys to their values. */
  lemma {:induction false} DictLookup(stanzas: seq<string>, i: nat)
    requires DistinctKeys(stanzas) && i < |stanzas|
    ensures Key(stanzas[i]) in DictOf(stanzas) && DictOf(stanzas)[Key(stanzas[i])] == ValueOf(stanzas[i])
  {
    var front := stanzas[..|stanzas| - 1];
    if i < |front| {
      DictLookup(front, i);
      assert front[i] == stanzas[i];
    }
  }

  lemma {:induction false} DictSize(stanzas: seq<string>)
    requires DistinctKeys(stanzas)
    ensures |DictOf(stanzas)| == |stanzas|
  {
    if stanzas != [] {
      var front, last := stanzas[..|stanzas| - 1], stanzas[|stanzas| - 1];
      DictSize(front);
      DictKeys(front, Key(last));
      forall i | 0 <= i < |front| ensures Key(front[i]) != Key(last) {
        assert front[i] == stanzas[i];
      }
    }
  }

  /** For every query: there is a dictionary unless two stanzas share a key, it maps every stanza's
      key to its value and nothing else, it has one entry more than the query has separators, and
      the stanzas joined by the separator are the query. */
  lemma DictionaryOfQuery(query: string, separator: Separator)
    ensures Join(Stanzas(query, separator), [SeparatorChar(separator)]) == query
    ensures forall s :: s in Stanzas(query, separator) ==> Free(s, {SeparatorChar(separator)})
    ensures QueryDict(query, separator).Err? <==> !DistinctKeys(Stanzas(query, separator))
    ensures QueryDict(query, separator).Ok? ==>
              var dict := QueryDict(query, separator).value;
              && (forall s :: s in Stanzas(query, separator) ==> Key(s) in dict && dict[Key(s)] == ValueOf(s))
              && (forall key :: key in dict <==> HasKey(Stanzas(query, separator), key))
              && |dict| == if query == "" then 0 else 1 + multiset(query)[SeparatorChar(separator)]
  {
    var stanzas := Stanzas(query, separator);
    if query != "" {
      JoinSplit(query, SeparatorChar(separator));
      SplitFree(query, SeparatorChar(separator));
      SplitCount(query, SeparatorChar(separator));
    }
    if DistinctKeys(stanzas) {
      DictSize(stanzas);
      forall i | 0 <= i < |stanzas|
        ensures Key(stanzas[i]) in DictOf(stanzas) && DictOf(stanzas)[Key(stanzas[i])] == ValueOf(stanzas[i])
      {
        DictLookup(stanzas, i);
      }
      forall key ensures key in DictOf(stanzas) <==> HasKey(stanzas, key) {
        DictKeys(stanzas, key);
      }
    }
  }

  /** A stanza is its key, or its key, `=` and its value. */
  lemma StanzaPieces(stanza: string)
    ensures Free(Key(stanza), {'='})
    ensures stanza == Key(stanza) + (if Free(stanza, {'='}) then "" else "=" + ValueOf(stanza))
  {
    var tail := From(stanza, {'='});
    FreeMeans(stanza, {'='});
    if tail == "" {
      assert stanza == Key(stanza);
    } else {
      assert tail == "=" + tail[1..];
      assert stanza[|Key(stanza)|] == '=';
    }
  }

  // ---------- the loop ----------

  /** `std::string::find_first_of` for one character; `None` is `npos` on either side. */
  function FindFirstOf(s: string, c: char, from: Option<nat>): (r: Option<nat>)
    requires from.Some? ==> from.value <= |s|
    ensures r.Some? ==> from.Some? && from.value <= r.value < |s|
  {
    if from.None? then None
    else
      var k := Find(s, {c}, from.value);
      if k == |s| then None else Some(k)
  }

  function StanzaAt(query: string, sep: char, carat: nat): string
    requires carat <= |query|
  {
    var end := FindFirstOf(query, sep, Some(carat));
    if end.Some? then query[carat..end.value] else query[carat..]
  }

  function NextCarat(query: string, sep: char, carat: nat): (next: Option<nat>)
    requires carat <= |query|
    ensures next.Some? ==> carat < next.value <= |query|
  {
    var end := FindFirstOf(query, sep, Some(carat));
    if end.Some? then Some(end.value + 1) else None
  }

  /** The stanzas the loop has still to read. */
  function Remaining(query: string, sep: char, carat: Option<nat>): seq<string>
    requires carat.Some? ==> carat.value <= |query|
  {
    if carat.Some? then Split(query[carat.value..], sep) else []
  }

  /** One turn of the loop takes exactly the next stanza. */
  lemma RemainingStep(query: string, sep: char, carat: nat)
    requires carat <= |query|
    ensures Remaining(query, sep, Some(carat)) ==
            [StanzaAt(query, sep, carat)] + Remaining(query, sep, NextCarat(query, sep, carat))
  {
    hide Find;
    var rest := query[carat..];
    var k := Find(query, {sep}, carat);
    FindIsFirst(query, {sep}, carat, k);
    FindIsFirst(rest, {sep}, 0, k - carat);
    if k < |query| {
      assert rest[..k - carat] == query[carat..k];
      assert rest[k - carat + 1..] == query[k + 1..];
    }
  }

  lemma DistinctExtends(done: seq<string>, stanza: string)
    requires DistinctKeys(done)
    ensures DistinctKeys(done + [stanza]) <==> Key(stanza) !in DictOf(done)
    ensures DictOf(done + [stanza]) == DictOf(done)[Key(stanza) := ValueOf(stanza)]
  {
    var all := done + [stanza];
    DictKeys(done, Key(stanza));
    assert all[..|all| - 1] == done;
    if HasKey(done, Key(stanza)) {
      var i :| 0 <= i < |done| && Key(done[i]) == Key(stanza);
      assert Key(all[i]) == Key(all[|done|]);
    }
  }

  lemma DistinctPrefix(done: seq<string>, rest: seq<string>)
    ensures DistinctKeys(done + rest) ==> DistinctKeys(done)
  {
    var all := done + rest;
    if DistinctKeys(all) {
      forall i, j | 0 <= i < j < |done| ensures Key(done[i]) != Key(done[j]) {
        assert done[i] == all[i] && done[j] == all[j];
      }
    }
  }

  lemma LoopTurn(query: string, sep: char, carat: nat, done: seq<string>)
    requires carat <= |query| && DistinctKeys(done)
    requires Split(query, sep) == done + Remaining(query, sep, Some(carat))
    ensures var stanza, next := StanzaAt(query, sep, carat), NextCarat(query, sep, carat);
            var done' := done + [stanza];
            && Split(query, sep) == done' + Remaining(query, sep, next)
            && (DistinctKeys(done') <==> Key(stanza) !in DictOf(done))
            && DictOf(done') == DictOf(done)[Key(stanza) := ValueOf(stanza)]
            && (DistinctKeys(Split(query, sep)) ==> DistinctKeys(done'))
  {
    hide Find, Split, DictOf, DistinctKeys, Remaining, StanzaAt, NextCarat;
    var stanza := StanzaAt(query, sep, carat);
    var rest := Remaining(query, sep, NextCarat(query, sep, carat));
    RemainingStep(query, sep, carat);
    assert done + ([stanza] + rest) == done + [stanza] + rest;
    DistinctExtends(done, stanza);
    DistinctPrefix(done + [stanza], rest);
  }

  /** A stanza taken apart at its first `=`. */
  method KeyAndValue(stanza: string) returns (key: string, value: string)
    ensures key == Key(stanza) && value == ValueOf(stanza)
  {
    var divider := FindFirstOf(stanza, '=', Some(0));
    key := if divider.Some? then stanza[..divider.value] else stanza;
    value := "";
    if divider.Some? {
      value := stanza[divider.value + 1..];
    }
  }

  /** The loop builds exactly the dictionary of the query, or finds the repeated key. */
  method InitQueryDictionary(query: string, separator: Separator) returns (r: Result<map<string, string>>)
    ensures r == QueryDict(query, separator)
  {
    hide Find, Split, DistinctKeys, Key, ValueOf, Remaining;
    var dict: map<string, string> := map[];
    if query == "" {
      assert DistinctKeys([]) by { EmptyDistinct(); }
      return Ok(dict);
    }
    var sep := SeparatorChar(separator);
    var carat: Option<nat> := Some(0);
    var stanzaEnd := FindFirstOf(query, sep, carat);
    ghost var done: seq<string> := [];
    var more := true;
    Start(query, sep);
    while more
      invariant more == carat.Some?
      invariant carat.Some? ==> carat.value <= |query| && stanzaEnd == FindFirstOf(query, sep, carat)
      invariant Split(query, sep) == done + Remaining(query, sep, carat)
      invariant DistinctKeys(done) && dict == DictOf(done)
      decreases if carat.Some? then |query| - carat.value + 1 else 0
    {
      LoopTurn(query, sep, carat.value, done);
      var stanza := if stanzaEnd.Some? then query[carat.value..stanzaEnd.value] else query[carat.value..];
      var key, value := KeyAndValue(stanza);
      if key in dict {
        return Err(DuplicateQueryKey);
      }
      dict := dict[key := value];
      done := done + [stanza];
      carat := if stanzaEnd.Some? then Some(stanzaEnd.value + 1) else None;
      stanzaEnd := FindFirstOf(query, sep, carat);
      more := stanzaEnd.Some? || carat.Some?;
    }
    NothingRemains(query, sep, done);
    return Ok(dict);
  }

  lemma EmptyDistinct()
    ensures DistinctKeys([])
  {
  }

  lemma Start(query: string, sep: char)
    ensures Split(query, sep) == [] + Remaining(query, sep, Some(0)) && DistinctKeys([])
  {
    assert query[0..] == query;
  }

  lemma NothingRemains(query: string, sep: char, done: seq<string>)
    requires Split(query, sep) == done + Remaining(query, sep, None)
    ensures done == Split(query, sep)
  {
  }
}
