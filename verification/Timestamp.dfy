/** Reading a database timestamp: the whole seconds come from the calendar functions, the fraction
    from the text after the dot, padded to six digits and read as an integer. */
module Timestamp {
  import opened Text

  const MICROS := 1000000

  /** The fraction padded to six characters. */
  function Pad(d: string): (r: string)
    ensures |r| == if |d| < 6 then 6 else |d|
    decreases 6 - |d|
  {
    if |d| < 6 then Pad(d + "0") else d
  }

  function DigitRun(s: string): (r: string)
    ensures AllDigits(r)
  {
    if s == "" || !IsDigit(s[0]) then "" else [s[0]] + DigitRun(s[1..])
  }

  predicate IsBlank(c: char) {
    c in {' ', '\t', '\n', '\r', 11 as char, 12 as char}
  }

  /** What stands behind white space and one sign. */
  function Unsigned(s: string): string {
    if s == "" then ""
    else if IsBlank(s[0]) then Unsigned(s[1..])
    else if s[0] in {'-', '+'} then s[1..]
    else s
  }

  predicate Negative(s: string) {
    s != "" && if IsBlank(s[0]) then Negative(s[1..]) else s[0] == '-'
  }

  /** `atol` where the number fits in a long: white space, a sign, digits, and anything after them. */
  function Atol(s: string): int {
    var n: int := Value(DigitRun(Unsigned(s)));
    if Negative(s) then -n else n
  }

  /** The microseconds since the epoch, where `seconds` is what `mktime` returned and `tail` is
      what `strptime` left unread. */
  function Reading(seconds: int, tail: string): int {
    seconds * MICROS + if tail != "" && tail[0] == '.' then Atol(Pad(tail[1..])) else 0
  }

  method ReadTimestamp(seconds: int, tail: string) returns (r: int)
    ensures r == Reading(seconds, tail)
  {
    var decimalNum: int := 0;
    if tail != "" && tail[0] == '.' {
      var decimals := tail[1..];
      while |decimals| < 6
        invariant Pad(decimals) == Pad(tail[1..])
        decreases 6 - |decimals|
      {
        decimals := decimals + "0";
      }
      decimalNum := Atol(decimals);
    }
    r := seconds * MICROS + decimalNum;
  }

  // ---------- printing a fraction ----------

  /** `n` in exactly `width` digits, most significant first. */
  function Fixed(n: nat, width: nat): (s: string)
    ensures |s| == width && AllDigits(s)
  {
    if width == 0 then "" else Fixed(n / 10, width - 1) + [DigitChar(n % 10)]
  }

  function Trim(s: string): (r: string)
    ensures |r| <= |s|
    ensures r == "" || r[|r| - 1] != '0'
  {
    if s != "" && s[|s| - 1] == '0' then Trim(s[..|s| - 1]) else s
  }

  /** How the database writes `m` microseconds after the seconds. */
  function FractionText(m: nat): string
    requires m < MICROS
  {
    if m == 0 then "" else "." + Trim(Fixed(m, 6))
  }

  // ---------- what padding and reading do to digits ----------

  lemma {:induction false} DigitRunAll(s: string)
    requires AllDigits(s)
    ensures DigitRun(s) == s
  {
    if s != "" { DigitRunAll(s[1..]); }
  }

  lemma AtolDigits(s: string)
    requires AllDigits(s)
    ensures Atol(s) == Value(s)
  {
    DigitRunAll(s);
    if s != "" { assert IsDigit(s[0]); }
  }

  lemma {:induction false} PadDigits(d: string)
    requires AllDigits(d)
    ensures AllDigits(Pad(d))
    ensures Value(Pad(d)) == Value(d) * Pow10(if |d| < 6 then 6 - |d| else 0)
    decreases 6 - |d|
  {
    if |d| < 6 {
      var e := d + "0";
      assert e[..|e| - 1] == d;
      PadDigits(e);
      Regroup(Value(d), Pow10(6 - |e|));
    }
  }

  lemma Regroup(v: nat, p: nat)
    ensures (10 * v) * p == v * (10 * p)
  {
  }

  lemma {:induction false} FixedValue(n: nat, width: nat)
    requires n < Pow10(width)
    ensures Value(Fixed(n, width)) == n
  {
    if width > 0 {
      FixedValue(n / 10, width - 1);
      var s := Fixed(n, width);
      assert s[..|s| - 1] == Fixed(n / 10, width - 1);
    }
  }

  lemma {:induction false} FixedOfValue(s: string)
    requires AllDigits(s)
    ensures Fixed(Value(s), |s|) == s
  {
    if s != "" {
      var front, c := s[..|s| - 1], s[|s| - 1];
      FixedOfValue(front);
      LastDigit(Value(front), c);
      assert s == front + [c];
    }
  }

  lemma LastDigit(v: nat, c: char)
    requires IsDigit(c)
    ensures var n := 10 * v + (c as int - '0' as int); n / 10 == v && DigitChar(n % 10) == c
  {
  }

  lemma {:induction false} PadTrim(s: string)
    requires |s| <= 6
    ensures Pad(Trim(s)) == Pad(s)
  {
    if s != "" && s[|s| - 1] == '0' {
      PadTrim(s[..|s| - 1]);
      assert s[..|s| - 1] + "0" == s;
    }
  }

  lemma {:induction false} TrimPad(d: string)
    requires |d| <= 6
    ensures Trim(Pad(d)) == Trim(d)
    decreases 6 - |d|
  {
    if |d| < 6 {
      TrimPad(d + "0");
      assert (d + "0")[..|d|] == d;
    }
  }

  lemma Pow10Six()
    ensures Pow10(6) == MICROS
  {
    assert Pow10(1) == 10 && Pow10(2) == 100 && Pow10(3) == 1000;
  }

  // ---------- round trips ----------

  /** At least one digit, at most six, and not zero at the end. */
  predicate IsFraction(d: string) {
    0 < |d| <= 6 && AllDigits(d) && d[|d| - 1] != '0'
  }

  lemma {:induction false} TrimDigits(s: string)
    requires AllDigits(s)
    ensures AllDigits(Trim(s))
    ensures Trim(s) == "" ==> Value(s) == 0
  {
    if s != "" && s[|s| - 1] == '0' { TrimDigits(s[..|s| - 1]); }
  }

  /** Printing without trailing zeros, then reading, is exact for every second and microsecond. */
  lemma FractionRoundTrip(seconds: int, m: nat)
    requires m < MICROS
    ensures Reading(seconds, FractionText(m)) == seconds * MICROS + m
    ensures FractionText(m) == "" <==> m == 0
    ensures m > 0 ==> FractionText(m)[0] == '.' && IsFraction(FractionText(m)[1..])
  {
    if m > 0 {
      var six := Fixed(m, 6);
      TrimDigits(six);
      PadTrim(six);
      AtolDigits(six);
      Pow10Six();
      FixedValue(m, 6);
      assert ("." + Trim(six))[1..] == Trim(six);
    }
  }

  /** At most six digits that do not end in zero are what the database prints for what is read. */
  lemma ReadThenPrint(seconds: int, d: string)
    requires IsFraction(d)
    ensures var m := Reading(seconds, "." + d) - seconds * MICROS;
            0 < m < MICROS && FractionText(m) == "." + d
  {
    assert ("." + d)[1..] == d;
    PadDigits(d);
    AtolDigits(Pad(d));
    Pow10Six();
    ValueBound(Pad(d), Pow10(6));
    FixedOfValue(Pad(d));
    TrimPad(d);
    NotZero(d);
  }

  lemma NotZero(d: string)
    requires IsFraction(d) && AllDigits(Pad(d))
    ensures Value(Pad(d)) > 0
  {
    TrimPad(d);
    if Value(Pad(d)) == 0 {
      ZeroIsAllZeros(Pad(d));
      TrimZeros(Pad(d));
    }
  }

  lemma {:induction false} ZeroIsAllZeros(s: string)
    requires AllDigits(s) && Value(s) == 0
    ensures forall i :: 0 <= i < |s| ==> s[i] == '0'
  {
    if s != "" { ZeroIsAllZeros(s[..|s| - 1]); }
  }

  lemma {:induction false} TrimZeros(s: string)
    requires forall i :: 0 <= i < |s| ==> s[i] == '0'
    ensures Trim(s) == ""
  {
    if s != "" { TrimZeros(s[..|s| - 1]); }
  }

  /** Results are ordered as (second, microsecond) pairs are. */
  lemma OrderIsLexicographic(t: int, m: nat, t': int, m': nat)
    requires m < MICROS && m' < MICROS
    ensures Reading(t, FractionText(m)) < Reading(t', FractionText(m')) <==> t < t' || (t == t' && m < m')
  {
    FractionRoundTrip(t, m);
    FractionRoundTrip(t', m');
  }

  /** The microseconds a run of fraction digits denotes, rounded down: its first six digits. */
  function Microseconds(d: string): nat
    requires AllDigits(d)
  {
    if |d| <= 6 then Value(d) * Pow10(6 - |d|) else Value(d[..6])
  }

  lemma DigitsExactIff(d: string)
    requires AllDigits(d)
    ensures Atol(Pad(d)) == Microseconds(d) <==> |d| <= 6 || Value(d) == 0
  {
    PadDigits(d);
    AtolDigits(Pad(d));
    if |d| > 6 {
      LongerIsLarger(d, 6);
    }
  }

  /** The microseconds a text after the seconds stands for: those of the digits behind its dot. */
  function Meant(tail: string): nat {
    if tail != "" && tail[0] == '.' then Microseconds(DigitRun(tail[1..])) else 0
  }

  /** There are exactly six digits, or fewer and nothing behind them, or only zeros are read. */
  predicate ReadAsMeant(tail: string) {
    tail != "" && tail[0] == '.' ==>
      var d := tail[1..];
      var digits := DigitRun(d);
      |digits| == 6 || (|digits| < 6 && digits == d) || Value(DigitRun(Unsigned(d))) == 0
  }

  /** For every text after the seconds, exactly when the reading is what the text stands for. */
  lemma ReadingExactIff(seconds: int, tail: string)
    ensures Reading(seconds, tail) == seconds * MICROS + Meant(tail) <==> ReadAsMeant(tail)
  {
    if tail != "" && tail[0] == '.' {
      var d := tail[1..];
      RunOfDigits(d);
      if AllDigits(d) {
        DigitRunAll(d);
        DigitsExactIff(d);
        assert Unsigned(d) == d;
      } else {
        OtherTextIff(d);
      }
    }
  }

  lemma {:induction false} RunOfDigits(d: string)
    ensures |DigitRun(d)| <= |d| && (DigitRun(d) == d <==> AllDigits(d))
  {
    if d != "" && IsDigit(d[0]) {
      RunOfDigits(d[1..]);
      assert AllDigits(d) <==> AllDigits(d[1..]) by {
        assert forall i :: 0 <= i < |d| - 1 ==> d[1..][i] == d[i + 1];
      }
      assert d == [d[0]] + d[1..];
    }
  }

  lemma OtherTextIff(d: string)
    requires !AllDigits(d)
    ensures var digits := DigitRun(d);
            Atol(Pad(d)) == Microseconds(digits) <==> |digits| == 6 || Value(DigitRun(Unsigned(d))) == 0
  {
    var digits := DigitRun(d);
    PadOther(d);
    if IsDigit(d[0]) {
      assert !Negative(Pad(d)) && Unsigned(Pad(d)) == Pad(d) && Unsigned(d) == d;
      if |digits| > 6 {
        LongerIsLarger(digits, 6);
      } else if |digits| < 6 {
        Scaled(Value(digits), Pow10(5 - |digits|));
      }
    } else {
      assert digits == "" && Value(digits) == 0;
    }
  }

  lemma Scaled(v: nat, p: nat)
    requires p > 0
    ensures v * (10 * p) == v <==> v == 0
  {
    if v > 0 { assert v * (10 * p) >= v * 10; }
  }

  /** Padding a text that is not all digits adds no digit to its run, begins no sign, and changes no
      value to or from zero. */
  lemma {:induction false} PadOther(d: string)
    requires !AllDigits(d)
    ensures DigitRun(Pad(d)) == DigitRun(d) && Pad(d) != "" && Pad(d)[0] == d[0]
    ensures Value(DigitRun(Unsigned(Pad(d)))) == 0 <==> Value(DigitRun(Unsigned(d))) == 0
    decreases 6 - |d|
  {
    if |d| < 6 {
      var e := d + "0";
      assert !AllDigits(e) by {
        var i :| 0 <= i < |d| && !IsDigit(d[i]);
        assert e[i] == d[i];
      }
      RunSnoc(d);
      UnsignedSnoc(d);
      RunSnoc(Unsigned(d));
      PadOther(e);
    }
  }

  lemma {:induction false} UnsignedSnoc(d: string)
    ensures Unsigned(d + "0") == Unsigned(d) + "0"
  {
    if d != "" {
      assert (d + "0")[1..] == d[1..] + "0";
      if IsBlank(d[0]) { UnsignedSnoc(d[1..]); }
    }
  }

  lemma {:induction false} RunSnoc(d: string)
    ensures DigitRun(d + "0") == DigitRun(d) + if AllDigits(d) then "0" else ""
    ensures Value(DigitRun(d + "0")) == 0 <==> Value(DigitRun(d)) == 0
  {
    RunOfDigits(d);
    if AllDigits(d) {
      DigitRunAll(d + "0");
      ValueSnoc(d, '0');
    } else {
      RunStops(d);
    }
  }

  lemma {:induction false} RunStops(d: string)
    requires !AllDigits(d)
    ensures DigitRun(d + "0") == DigitRun(d)
  {
    assert (d + "0")[1..] == d[1..] + "0";
    if IsDigit(d[0]) {
      assert !AllDigits(d[1..]) by {
        var i :| 0 <= i < |d| && !IsDigit(d[i]);
        assert d[1..][i - 1] == d[i];
      }
      RunStops(d[1..]);
    }
  }

  /** What `atol` makes of blanks, a sign, digits and other text, whatever the blanks are: the space
      and the five characters from the tab to the carriage return. */
  lemma {:induction false} AtolReads(blanks: string, sign: string, digits: string, rest: string)
    requires forall i :: 0 <= i < |blanks| ==> blanks[i] == ' ' || 9 <= blanks[i] as int <= 13
    requires sign in {"", "+", "-"}
    requires AllDigits(digits) && (rest != "" ==> !IsDigit(rest[0]))
    requires sign == "" && digits == "" && rest != "" ==> rest[0] !in {' ', '+', '-'} && !(9 <= rest[0] as int <= 13)
    ensures sign == "-" ==> Atol(blanks + (sign + (digits + rest))) + Value(digits) == 0
    ensures sign != "-" ==> Atol(blanks + (sign + (digits + rest))) == Value(digits)
  {
    var s := blanks + (sign + (digits + rest));
    if blanks != "" {
      assert s[1..] == blanks[1..] + (sign + (digits + rest));
      AtolReads(blanks[1..], sign, digits, rest);
    } else {
      assert s == sign + (digits + rest);
      NoBlankAhead(sign, digits, rest);
      RunEnds(digits, rest);
    }
  }

  lemma NoBlankAhead(sign: string, digits: string, rest: string)
    requires sign in {"", "+", "-"} && AllDigits(digits)
    requires sign == "" && digits == "" && rest != "" ==> rest[0] !in {' ', '+', '-'} && !(9 <= rest[0] as int <= 13)
    ensures var s := sign + (digits + rest);
            Unsigned(s) == digits + rest && (Negative(s) <==> sign == "-")
  {
    var s := sign + (digits + rest);
    if sign == "" {
      assert s == digits + rest;
      if digits != "" { assert s[0] == digits[0]; } else if rest != "" { assert s[0] == rest[0]; }
    } else {
      assert s[1..] == digits + rest;
    }
  }

  lemma {:induction false} RunEnds(digits: string, rest: string)
    requires AllDigits(digits) && (rest != "" ==> !IsDigit(rest[0]))
    ensures DigitRun(digits + rest) == digits
  {
    if digits != "" {
      assert (digits + rest)[1..] == digits[1..] + rest;
      RunEnds(digits[1..], rest);
    } else {
      assert digits + rest == rest;
    }
  }

  /** A tenth of a microsecond is read as a whole one, and text behind the digits keeps the zeros
      away from them. */
  lemma ReadWrongly(seconds: int)
    ensures Reading(seconds, ".0000001") == seconds * MICROS + 1 && Meant(".0000001") == 0
    ensures Reading(seconds, ".5Z") == seconds * MICROS + 5 && Meant(".5Z") == 500000
  {
    SevenDigits("0000001");
    assert ".0000001"[1..] == "0000001";
    FiveAndText();
    assert ".5Z"[1..] == "5Z";
  }

  lemma SevenDigits(d: string)
    requires |d| == 7 && d[6] == '1' && forall i :: 0 <= i < 6 ==> d[i] == '0'
    ensures AllDigits(d) && DigitRun(d) == d && Atol(Pad(d)) == 1 && Microseconds(d) == 0
  {
    var front := d[..6];
    ZerosValue(front);
    ValueSnoc(front, '1');
    assert d == front + ['1'];
    DigitRunAll(d);
    AtolDigits(d);
  }

  lemma {:induction false} ZerosValue(s: string)
    requires forall i :: 0 <= i < |s| ==> s[i] == '0'
    ensures AllDigits(s) && Value(s) == 0
  {
    if s != "" { ZerosValue(s[..|s| - 1]); }
  }

  lemma FiveAndText()
    ensures DigitRun("5Z") == "5" && Microseconds("5") == 500000 && Atol(Pad("5Z")) == 5
  {
    assert "5Z"[0] == '5' && "5Z"[1..] == "Z" && !IsDigit('Z');
    assert DigitRun("Z") == "";
    assert !AllDigits("5Z") by { assert "5Z"[1] == 'Z'; }
    PadOther("5Z");
    ValueSnoc("", '5');
    assert "" + ['5'] == "5";
    assert Pow10(1) == 10 && Pow10(2) == 100 && Pow10(3) == 1000 && Pow10(5) == 100000;
  }

  lemma {:induction false} LongerIsLarger(d: string, n: nat)
    requires AllDigits(d) && n <= |d|
    ensures Value(d) >= Value(d[..n])
    ensures n < |d| ==> Value(d) >= 10 * Value(d[..n])
  {
    if n < |d| {
      var front := d[..|d| - 1];
      LongerIsLarger(front, n);
      assert front[..n] == d[..n];
    } else {
      assert d[..n] == d;
    }
  }
}
