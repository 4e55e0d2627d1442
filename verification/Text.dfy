/** Cutting, splitting, joining and decimal numbers over `string`: the vocabulary the
    parsers and printers of the other modules are specified in. A `char` stands for one byte. */
module Text {

  /** Where the first of `stops` stands in `s` at or after `i`; the length when there is none. */
  function Find(s: string, stops: set<char>, i: nat): (r: nat)
    requires i <= |s|
    ensures i <= r <= |s|
    decreases |s| - i
  {
    if i == |s| || s[i] in stops then i else Find(s, stops, i + 1)
  }

  /** `Find` is the first stop and nothing else. */
  lemma {:induction false} FindIsFirst(s: string, stops: set<char>, i: nat, r: nat)
    requires i <= r <= |s|
    ensures Find(s, stops, i) == r <==>
              (r == |s| || s[r] in stops) && forall j :: i <= j < r ==> s[j] !in stops
    decreases |s| - i
  {
    if i < |s| && i < r {
      FindIsFirst(s, stops, i + 1, r);
    }
  }

  /** No character of `s` is one of `stops`. */
  predicate Free(s: string, stops: set<char>) {
    Find(s, stops, 0) == |s|
  }

  lemma FreeMeans(s: string, stops: set<char>)
    ensures Free(s, stops) <==> forall i :: 0 <= i < |s| ==> s[i] !in stops
  {
    FindIsFirst(s, stops, 0, |s|);
  }

  lemma FreeOfFewer(s: string, stops: set<char>, fewer: set<char>)
    requires Free(s, stops) && fewer <= stops
    ensures Free(s, fewer)
  {
    FreeMeans(s, stops);
    FreeMeans(s, fewer);
  }

  /** `s` is empty or begins with one of `stops`. */
  predicate StartsIn(s: string, stops: set<char>) {
    s == "" || s[0] in stops
  }

  /** The longest prefix of `s` that is free of `stops`. */
  function Before(s: string, stops: set<char>): (r: string)
    ensures |r| <= |s| && Free(r, stops)
  {
    var k := Find(s, stops, 0);
    FindIsFirst(s, stops, 0, k);
    FreeMeans(s[..k], stops);
    s[..k]
  }

  /** What follows `Before`. */
  function From(s: string, stops: set<char>): (r: string)
    ensures Before(s, stops) + r == s
    ensures StartsIn(r, stops)
  {
    var k := Find(s, stops, 0);
    FindIsFirst(s, stops, 0, k);
    s[k..]
  }

  /** `Before` and `From` are the only way to cut `s` at its first stop. */
  lemma CutAt(a: string, b: string, stops: set<char>)
    requires Free(a, stops) && StartsIn(b, stops)
    ensures Before(a + b, stops) == a && From(a + b, stops) == b
  {
    FreeMeans(a, stops);
    FindIsFirst(a + b, stops, 0, |a|);
  }

  /** The same fact for a cursor that has been moved from `i` to `j` over `s`. */
  lemma CutAtCursor(s: string, stops: set<char>, i: nat, j: nat)
    requires i <= j <= |s|
    requires forall k :: i <= k < j ==> s[k] !in stops
    requires j == |s| || s[j] in stops
    ensures Before(s[i..], stops) == s[i..j] && From(s[i..], stops) == s[j..]
  {
    assert s[i..] == s[i..j] + s[j..];
    FreeMeans(s[i..j], stops);
    CutAt(s[i..j], s[j..], stops);
  }

  lemma FreeConcat(a: string, b: string, stops: set<char>)
    ensures Free(a + b, stops) <==> Free(a, stops) && Free(b, stops)
  {
    FreeMeans(a, stops);
    FreeMeans(b, stops);
    FreeMeans(a + b, stops);
    forall i | 0 <= i < |a| ensures a[i] == (a + b)[i] {}
    forall i | 0 <= i < |b| ensures b[i] == (a + b)[|a| + i] {}
  }

  // ---------- splitting and joining ----------

  /** The stanzas of `s` between the occurrences of `sep`. */
  function Split(s: string, sep: char): (parts: seq<string>)
    ensures |parts| > 0
    decreases |s|
  {
    var k := Find(s, {sep}, 0);
    if k == |s| then [s] else [s[..k]] + Split(s[k + 1..], sep)
  }

  /** There is one more stanza than there are separators. */
  lemma {:induction false} SplitCount(s: string, sep: char)
    ensures |Split(s, sep)| == 1 + multiset(s)[sep]
    decreases |s|
  {
    var k := Find(s, {sep}, 0);
    FindIsFirst(s, {sep}, 0, k);
    if k < |s| {
      SplitCount(s[k + 1..], sep);
      assert s == s[..k] + [sep] + s[k + 1..];
      assert sep !in s[..k];
    }
  }

  function Join(parts: seq<string>, glue: string): string {
    if |parts| == 0 then ""
    else if |parts| == 1 then parts[0]
    else parts[0] + glue + Join(parts[1..], glue)
  }

  lemma {:induction false} JoinSplit(s: string, sep: char)
    ensures Join(Split(s, sep), [sep]) == s
    decreases |s|
  {
    var k := Find(s, {sep}, 0);
    if k < |s| {
      var rest := Split(s[k + 1..], sep);
      JoinSplit(s[k + 1..], sep);
      FindIsFirst(s, {sep}, 0, k);
      assert ([s[..k]] + rest)[1..] == rest;
      assert s == s[..k] + [sep] + s[k + 1..];
    }
  }

  lemma {:induction false} SplitJoin(parts: seq<string>, sep: char)
    requires |parts| > 0
    requires forall i :: 0 <= i < |parts| ==> Free(parts[i], {sep})
    ensures Split(Join(parts, [sep]), sep) == parts
  {
    if |parts| == 1 {
      assert Find(parts[0], {sep}, 0) == |parts[0]|;
    } else {
      var head, tail := parts[0], parts[1..];
      assert Free(head, {sep});
      SplitPrefix(head, Join(tail, [sep]), sep);
      SplitJoin(tail, sep);
      assert Join(parts, [sep]) == head + ([sep] + Join(tail, [sep]));
    }
  }

  lemma SplitPrefix(a: string, rest: string, sep: char)
    requires Free(a, {sep})
    ensures Split(a + ([sep] + rest), sep) == [a] + Split(rest, sep)
  {
    var s := a + ([sep] + rest);
    assert s[|a|] == sep && s[|a| + 1..] == rest && s[..|a|] == a;
    FreeMeans(a, {sep});
    FindIsFirst(s, {sep}, 0, |a|);
  }

  lemma {:induction false} SplitFree(s: string, sep: char)
    ensures forall i :: 0 <= i < |Split(s, sep)| ==> Free(Split(s, sep)[i], {sep})
    decreases |s|
  {
    var k := Find(s, {sep}, 0);
    if k < |s| {
      SplitFree(s[k + 1..], sep);
      assert s[..k] == Before(s, {sep});
    }
  }

  /** A set of stops none of the parts and glue contains is absent from the joined text. */
  lemma {:induction false} JoinFree(parts: seq<string>, glue: string, stops: set<char>)
    requires forall i :: 0 <= i < |parts| ==> Free(parts[i], stops)
    requires Free(glue, stops)
    ensures Free(Join(parts, glue), stops)
  {
    if |parts| > 1 {
      JoinFree(parts[1..], glue, stops);
      FreeConcat(parts[0], glue, stops);
      FreeConcat(parts[0] + glue, Join(parts[1..], glue), stops);
    }
  }

  // ---------- ranges of characters, spelled out ----------

  lemma LowerCase(c: char)
    ensures 'a' <= c <= 'z' <==> c in "abcdefghijklmnopqrstuvwxyz"
  {
    var all := "abcdefghijklmnopqrstuvwxyz";
    if 'a' <= c <= 'z' {
      assert all[c as int - 'a' as int] == c;
    }
  }

  lemma UpperCase(c: char)
    ensures 'A' <= c <= 'Z' <==> c in "ABCDEFGHIJKLMNOPQRSTUVWXYZ"
  {
    var all := "ABCDEFGHIJKLMNOPQRSTUVWXYZ";
    if 'A' <= c <= 'Z' {
      assert all[c as int - 'A' as int] == c;
    }
  }

  lemma TenDigits(c: char)
    ensures IsDigit(c) <==> c in "0123456789"
  {
    var all := "0123456789";
    if IsDigit(c) {
      assert all[c as int - '0' as int] == c;
    }
  }

  // ---------- decimal numbers ----------

  const DIGIT_TEXT := "0123456789"

  predicate IsDigit(c: char) { '0' <= c <= '9' }

  predicate AllDigits(s: string) {
    forall i :: 0 <= i < |s| ==> IsDigit(s[i])
  }

  function DigitChar(d: nat): (c: char)
    requires d < 10
    ensures IsDigit(c) && c as int - '0' as int == d
  {
    ('0' as int + d) as char
  }

  /** The number a run of digits denotes; leading zeros do not matter. */
  function Value(s: string): nat
    requires AllDigits(s)
  {
    if s == "" then 0 else 10 * Value(s[..|s| - 1]) + (s[|s| - 1] as int - '0' as int)
  }

  /** The last digit counts once, everything before it ten times. */
  lemma ValueSnoc(s: string, c: char)
    requires AllDigits(s) && IsDigit(c)
    ensures AllDigits(s + [c]) && Value(s + [c]) == 10 * Value(s) + (c as int - '0' as int)
  {
    assert (s + [c])[..|s|] == s;
  }

  /** The shortest decimal text of `n`. */
  function Decimal(n: nat): (s: string)
    ensures s != "" && AllDigits(s)
  {
    if n < 10 then [DigitChar(n)] else Decimal(n / 10) + [DigitChar(n % 10)]
  }

  lemma {:induction false} ValueDecimal(n: nat)
    ensures Value(Decimal(n)) == n
  {
    if n < 10 {
      assert [DigitChar(n)][..0] == "";
    } else {
      ValueDecimal(n / 10);
      var s := Decimal(n);
      assert s[..|s| - 1] == Decimal(n / 10);
    }
  }

  /** `Decimal` really is the shortest text of its value. */
  lemma {:induction false} DecimalShortest(s: string)
    requires s != "" && AllDigits(s)
    ensures |Decimal(Value(s))| <= |s|
  {
    var front, v := s[..|s| - 1], Value(s);
    if v >= 10 {
      assert v / 10 == Value(front);
      DecimalShortest(front);
    }
  }

  lemma {:induction false} ValueBound(s: string, bound: nat)
    requires AllDigits(s) && bound == Pow10(|s|)
    ensures Value(s) < bound
  {
    if s != "" {
      ValueBound(s[..|s| - 1], Pow10(|s| - 1));
    }
  }

  function Pow10(n: nat): (p: nat)
    ensures p > 0
  {
    if n == 0 then 1 else 10 * Pow10(n - 1)
  }
}
