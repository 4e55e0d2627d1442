/** Enumerations with a table of names: the loop that reverses the table, and when printing and
    parsing undo each other. */
module EnumNames {

  /** `r` is a reverse of `m`: where several keys share a value, one of them is chosen. */
  predicate Reverses<K(!new), V(!new)>(m: map<K, V>, r: map<V, K>) {
    && r.Keys == m.Values
    && (forall v :: v in r ==> r[v] in m && m[r[v]] == v)
  }

  /** The table is visited in an unspecified order. */
  method ReverseMap<K(==, !new), V(==, !new)>(m: map<K, V>) returns (r: map<V, K>)
    ensures Reverses(m, r)
  {
    r := map[];
    var left := m.Keys;
    while left != {}
      invariant left <= m.Keys
      invariant forall k :: k in m && k !in left ==> m[k] in r
      invariant forall v :: v in r ==> r[v] in m && m[r[v]] == v
    {
      var k :| k in left;
      r := r[m[k] := k];
      left := left - {k};
    }
  }

  predicate Injective<K(!new), V(==)>(m: map<K, V>) {
    forall a, b :: a in m && b in m && m[a] == m[b] ==> a == b
  }

  /** Reversing is an inverse exactly when no two keys share a value. */
  lemma ReverseIsInverseIff<K(!new), V(!new)>(m: map<K, V>, r: map<V, K>)
    requires Reverses(m, r)
    ensures Reverses(r, m) <==> Injective(m)
  {
    if Injective(m) {
      forall k | k in m ensures k in r.Values && m[k] in r && r[m[k]] == k {
        assert m[k] in m.Values;
        assert r[m[k]] in m && m[r[m[k]]] == m[k];
      }
      assert forall k :: k in m <==> k in r.Values;
    } else {
      var a, b :| a in m && b in m && m[a] == m[b] && a != b;
      assert m[a] in r && (r[m[a]] == a ==> r[m[b]] != b);
    }
  }

  /** The pair of functions every enumeration is given. */
  function EnumToStr<E>(names: map<E, string>, value: E): string {
    if value in names then names[value] else "unknown"
  }

  function ParseEnum<E>(reversed: map<string, E>, unknown: E, str: string): E {
    if str in reversed then reversed[str] else unknown
  }

  /** Exactly which enumerations survive print-then-parse in all their values. */
  lemma EnumRoundTripIff<E(!new)>(values: set<E>, names: map<E, string>, reversed: map<string, E>, unknown: E)
    requires Reverses(names, reversed) && names.Keys <= values
    ensures (forall v :: v in values ==> ParseEnum(reversed, unknown, EnumToStr(names, v)) == v)
            <==> Injective(names)
                 && forall v :: v in values && v !in names ==> v == unknown && "unknown" !in names.Values
  {
    forall v | v in names
      ensures v in values && names[v] in reversed
              && ParseEnum(reversed, unknown, EnumToStr(names, v)) == reversed[names[v]]
    {
      assert names[v] in names.Values;
    }
    if Injective(names) {
      ReverseIsInverseIff(names, reversed);
    } else {
      var a, b :| a in names && b in names && names[a] == names[b] && a != b;
      assert reversed[names[a]] == a ==> reversed[names[b]] != b;
    }
  }

  /** Exactly which texts survive parse-then-print. */
  lemma NameRoundTripIff<E(!new)>(names: map<E, string>, reversed: map<string, E>, unknown: E, str: string)
    requires Reverses(names, reversed)
    ensures EnumToStr(names, ParseEnum(reversed, unknown, str)) == str
            <==> str in names.Values || (str == "unknown" && unknown !in names)
  {
    if str in reversed {
      assert names[reversed[str]] == str;
    } else if unknown in names {
      assert names[unknown] in names.Values;
    }
  }
}
