/** Replacing every occurrence of a pattern: the loop, the split it computes, and what the result
    of a replacement still contains. */
module ReplaceAll {
  import opened Text
  import opened Wrappers

  predicate OccursAt(s: string, p: string, i: nat) {
    i + |p| <= |s| && s[i..i + |p|] == p
  }

  predicate Occurs(s: string, p: string) {
    exists i: nat :: i <= |s| && OccursAt(s, p, i)
  }

  /** `std::string::find`: the first occurrence at or after `from`. */
  function FindSub(s: string, p: string, from: nat): (r: Option<nat>)
    requires from <= |s|
    ensures r.Some? ==> from <= r.value && OccursAt(s, p, r.value) && r.value + |p| <= |s|
    ensures forall j :: from <= j < (if r.Some? then r.value else |s| + 1) ==> !OccursAt(s, p, j)
    decreases |s| - from
  {
    if OccursAt(s, p, from) then Some(from)
    else if from == |s| then None
    else FindSub(s, p, from + 1)
  }

  /** The text between the occurrences, found from the left without overlap. */
  function Pieces(s: string, p: string): (parts: seq<string>)
    requires p != ""
    ensures |parts| > 0
    decreases |s|
  {
    var i := FindSub(s, p, 0);
    if i.None? then [s] else [s[..i.value]] + Pieces(s[i.value + |p|..], p)
  }

  function Replaced(s: string, p: string, r: string): string
    requires p != ""
  {
    Join(Pieces(s, p), r)
  }

  // ---------- the split is the leftmost one ----------

  /** In `part` followed by the pattern, the pattern occurs at the end and nowhere before it. */
  predicate EndsAtFirst(part: string, p: string) {
    forall j :: 0 <= j < |part| ==> !OccursAt(part + p, p, j)
  }

  /** What a leftmost non-overlapping split is, without saying how to find it. */
  predicate LeftmostSplit(parts: seq<string>, s: string, p: string) {
    && |parts| > 0 && Join(parts, p) == s
    && (forall i :: 0 <= i < |parts| - 1 ==> EndsAtFirst(parts[i], p))
    && !Occurs(parts[|parts| - 1], p)
  }

  /** Before its end, an occurrence in `a + b` does not depend on `b`. */
  lemma OccursInFront(a: string, b: string, p: string, i: nat)
    requires i + |p| <= |a|
    ensures OccursAt(a + b, p, i) <==> OccursAt(a, p, i)
  {
    assert (a + b)[i..i + |p|] == a[i..i + |p|];
  }

  lemma FirstOccurrence(part: string, p: string, rest: string)
    requires p != "" && EndsAtFirst(part, p)
    ensures FindSub(part + p + rest, p, 0) == Some(|part|)
  {
    var s := part + p + rest;
    assert s[|part|..|part| + |p|] == p;
    assert OccursAt(s, p, |part|);
    forall j | 0 <= j < |part| ensures !OccursAt(s, p, j) {
      OccursInFront(part + p, rest, p, j);
    }
  }

  lemma CutInThree(s: string, i: nat, j: nat)
    requires i <= j <= |s|
    ensures s == s[..i] + s[i..j] + s[j..]
  {
  }

  lemma FoundEndsAtFirst(s: string, p: string, i: nat)
    requires p != "" && FindSub(s, p, 0) == Some(i)
    ensures EndsAtFirst(s[..i], p) && s == s[..i] + p + s[i + |p|..]
  {
    hide FindSub;
    var part, rest := s[..i], s[i + |p|..];
    assert forall j :: 0 <= j < i ==> !OccursAt(s, p, j);
    assert s[i..i + |p|] == p && s == part + p + rest by { CutInThree(s, i, i + |p|); }
    hide OccursAt;
    forall j | 0 <= j < |part| ensures !OccursAt(part + p, p, j) {
      OccursInFront(part + p, rest, p, j);
    }
  }

  /** `Pieces` is the leftmost split, and there is no other. */
  lemma {:induction false} LeftmostIff(parts: seq<string>, s: string, p: string)
    requires p != ""
    ensures LeftmostSplit(parts, s, p) <==> parts == Pieces(s, p)
    decreases |s|
  {
    PiecesAreLeftmost(s, p);
    if LeftmostSplit(parts, s, p) {
      LeftmostIsUnique(parts, s, p);
    }
  }

  lemma {:induction false} PiecesAreLeftmost(s: string, p: string)
    requires p != ""
    ensures LeftmostSplit(Pieces(s, p), s, p)
    decreases |s|
  {
    var i := FindSub(s, p, 0);
    if i.Some? {
      FoundEndsAtFirst(s, p, i.value);
      var rest := s[i.value + |p|..];
      PiecesAreLeftmost(rest, p);
      ConsLeftmost(s[..i.value], Pieces(rest, p), rest, p);
    } else {
      assert Pieces(s, p) == [s];
    }
  }

  lemma ConsLeftmost(part: string, parts: seq<string>, rest: string, p: string)
    requires LeftmostSplit(parts, rest, p) && EndsAtFirst(part, p)
    ensures LeftmostSplit([part] + parts, part + p + rest, p)
  {
    var all := [part] + parts;
    assert all[1..] == parts;
    forall i | 0 <= i < |all| - 1 ensures EndsAtFirst(all[i], p) {
      if i > 0 { assert all[i] == parts[i - 1]; }
    }
  }

  lemma {:induction false} LeftmostIsUnique(parts: seq<string>, s: string, p: string)
    requires p != "" && LeftmostSplit(parts, s, p)
    ensures parts == Pieces(s, p)
    decreases |s|
  {
    if |parts| == 1 {
      assert parts == [s];
      assert FindSub(s, p, 0).Some? ==> Occurs(s, p);
    } else {
      var rest := Join(parts[1..], p);
      FirstOccurrence(parts[0], p, rest);
      assert s[..|parts[0]|] == parts[0] && s[|parts[0]| + |p|..] == rest;
      TailLeftmost(parts, s, p);
      LeftmostIsUnique(parts[1..], rest, p);
    }
  }

  lemma TailLeftmost(parts: seq<string>, s: string, p: string)
    requires LeftmostSplit(parts, s, p) && |parts| > 1
    ensures LeftmostSplit(parts[1..], Join(parts[1..], p), p)
  {
    var tail := parts[1..];
    forall i | 0 <= i < |tail| - 1 ensures EndsAtFirst(tail[i], p) {
      assert tail[i] == parts[i + 1];
    }
  }

  // ---------- length ----------

  lemma {:induction false} JoinLength(parts: seq<string>, a: string, b: string)
    requires |parts| > 0
    ensures |Join(parts, b)| == |Join(parts, a)| + (|parts| - 1) * (|b| - |a|)
  {
    if |parts| > 1 {
      JoinLength(parts[1..], a, b);
      Distribute(|parts| - 2, |b| - |a|);
    }
  }

  lemma Distribute(n: int, d: int)
    ensures (n + 1) * d == n * d + d
  {
  }

  /** The length changes by the number of occurrences times the difference in size. */
  lemma ReplacedLength(s: string, p: string, r: string)
    requires p != ""
    ensures |Replaced(s, p, r)| == |s| + (|Pieces(s, p)| - 1) * (|r| - |p|)
  {
    PiecesAreLeftmost(s, p);
    JoinLength(Pieces(s, p), p, r);
  }

  // ---------- what the result contains ----------

  predicate ShareNoCharacter(a: string, b: string) {
    forall i, j :: 0 <= i < |a| && 0 <= j < |b| ==> a[i] != b[j]
  }

  lemma {:induction false} LeftmostPiecesAreFree(s: string, p: string, i: nat)
    requires p != "" && i < |Pieces(s, p)|
    ensures !Occurs(Pieces(s, p)[i], p)
  {
    PiecesAreLeftmost(s, p);
    var parts := Pieces(s, p);
    if i < |parts| - 1 {
      assert EndsAtFirst(parts[i], p);
      forall j: nat | j + |p| <= |parts[i]| ensures !OccursAt(parts[i], p, j) {
        OccursInFront(parts[i], p, p, j);
      }
    }
  }

  /** A non-empty end of `r` begins `p`. */
  predicate RunsInto(r: string, p: string) {
    exists j :: 0 < j <= |r| && j <= |p| && r[|r| - j..] == p[..j]
  }

  /** A beginning of `p` can stand in front of a match, and `r` then continues it to `p`, or at least
      does not stop it from becoming `p`. */
  predicate CompletedAt(p: string, r: string, k: nat)
    requires k <= |p|
  {
    EndsAtFirst(p[..k], p) && (p[k..] <= r || r <= p[k..])
  }

  predicate Completes(p: string, r: string) {
    exists k :: 0 < k < |p| && CompletedAt(p, r, k)
  }

  /** A replacement can never bring the pattern back. */
  predicate Inert(p: string, r: string) {
    !Occurs(r, p) && !RunsInto(r, p) && !Completes(p, r)
  }

  lemma OccursBehind(a: string, b: string, p: string, i: nat)
    requires i >= |a| && OccursAt(a + b, p, i)
    ensures OccursAt(b, p, i - |a|)
  {
    assert (a + b)[i..i + |p|] == b[i - |a|..i - |a| + |p|];
  }

  /** An occurrence that begins in the replacement lies in it or runs out of it. */
  lemma BeginsInGlue(r: string, rest: string, p: string, i: nat)
    requires p != "" && i < |r| && OccursAt(r + rest, p, i)
    ensures Occurs(r, p) || RunsInto(r, p)
  {
    var s := r + rest;
    if i + |p| <= |r| {
      OccursInFront(r, rest, p, i);
    } else {
      var j := |r| - i;
      assert r[|r| - j..] == s[i..i + |p|][..j];
    }
  }

  /** An occurrence that begins in a piece ends behind it. */
  lemma BeginsInPiece(part: string, r: string, rest: string, p: string, i: nat)
    requires i < |part| && |part| < i + |p| && OccursAt(part + (r + rest), p, i)
    requires EndsAtFirst(part, p)
    ensures Completes(p, r)
  {
    var s, k := part + (r + rest), |part| - i;
    assert part[i..] == s[i..i + |p|][..k] == p[..k];
    EndOfPiece(part, p, i, k);
    assert p[k..] == s[i..i + |p|][k..] == (r + rest)[..|p| - k];
    if |p| - k <= |r| {
      assert p[k..] == r[..|p| - k];
    } else {
      assert r == p[k..][..|r|];
    }
    assert CompletedAt(p, r, k);
  }

  lemma EndOfPiece(part: string, p: string, i: nat, k: nat)
    requires EndsAtFirst(part, p) && i + k == |part| && k <= |p| && part[i..] == p[..k]
    ensures EndsAtFirst(p[..k], p)
  {
    assert part + p == part[..i] + (p[..k] + p);
    forall j | 0 <= j < k ensures !OccursAt(p[..k] + p, p, j) {
      assert !OccursAt(part + p, p, i + j);
      OccursMoved(part[..i], p[..k] + p, p, j);
    }
  }

  lemma OccursMoved(a: string, b: string, p: string, j: nat)
    ensures OccursAt(a + b, p, |a| + j) <==> OccursAt(b, p, j)
  {
    if j + |p| <= |b| {
      assert (a + b)[|a| + j..|a| + j + |p|] == b[j..j + |p|];
    }
  }

  lemma {:induction false} JoinOccursNot(parts: seq<string>, r: string, p: string)
    requires |parts| > 0 && p != "" && Inert(p, r)
    requires forall i :: 0 <= i < |parts| ==> !Occurs(parts[i], p)
    requires forall i :: 0 <= i < |parts| - 1 ==> EndsAtFirst(parts[i], p)
    ensures !Occurs(Join(parts, r), p)
  {
    if |parts| > 1 {
      JoinOccursNot(parts[1..], r, p);
      var part, rest := parts[0], Join(parts[1..], r);
      assert Join(parts, r) == part + (r + rest);
      hide Join, EndsAtFirst, RunsInto, Completes;
      forall i: nat | i <= |Join(parts, r)| ensures !OccursAt(Join(parts, r), p, i) {
        if OccursAt(part + (r + rest), p, i) {
          NoneInStep(part, r, rest, p, i);
        }
      }
    }
  }

  lemma NoneInStep(part: string, r: string, rest: string, p: string, i: nat)
    requires p != "" && Inert(p, r) && EndsAtFirst(part, p) && !Occurs(part, p)
    requires OccursAt(part + (r + rest), p, i)
    ensures Occurs(rest, p)
  {
    hide EndsAtFirst, RunsInto, Completes;
    if i + |p| <= |part| {
      OccursInFront(part, r + rest, p, i);
    } else if i < |part| {
      BeginsInPiece(part, r, rest, p, i);
    } else {
      OccursBehind(part, r + rest, p, i);
      if i - |part| < |r| {
        BeginsInGlue(r, rest, p, i - |part|);
      } else {
        OccursBehind(r, rest, p, i - |part|);
      }
    }
  }

  lemma InertIsEnough(s: string, p: string, r: string)
    requires p != "" && Inert(p, r)
    ensures !Occurs(Replaced(s, p, r), p)
  {
    var parts := Pieces(s, p);
    PiecesAreLeftmost(s, p);
    forall i | 0 <= i < |parts| ensures !Occurs(parts[i], p) {
      LeftmostPiecesAreFree(s, p, i);
    }
    hide Inert, Pieces;
    JoinOccursNot(parts, r, p);
  }

  /** What replacing does to `part`, one match and a rest without one. */
  lemma OneMatch(part: string, p: string, rest: string, r: string)
    requires p != "" && EndsAtFirst(part, p) && !Occurs(rest, p)
    ensures Replaced(part + p + rest, p, r) == part + r + rest
  {
    var s := part + p + rest;
    FirstOccurrence(part, p, rest);
    assert s[..|part|] == part && s[|part| + |p|..] == rest;
    hide EndsAtFirst;
    ReplacedCons(s, p, r, |part|);
    RestUnchanged(rest, p, r);
  }

  lemma RestUnchanged(rest: string, p: string, r: string)
    requires p != "" && !Occurs(rest, p)
    ensures Replaced(rest, p, r) == rest
  {
    assert FindSub(rest, p, 0).Some? ==> Occurs(rest, p);
  }

  lemma TooShort(rest: string, p: string)
    requires |rest| < |p|
    ensures !Occurs(rest, p)
  {
  }

  lemma EndsThere(a: string, p: string)
    ensures Occurs(a + p, p)
  {
    assert OccursAt(a + p, p, |a|);
  }

  /** A text on which a replacement that is not inert leaves the pattern. */
  lemma NotInertLeaves(p: string, r: string) returns (s: string)
    requires p != "" && !Inert(p, r)
    ensures Occurs(Replaced(s, p, r), p)
  {
    if Occurs(r, p) {
      s := "" + p + "";
      TooShort("", p);
      OneMatch("", p, "", r);
      assert "" + r + "" == r;
    } else if RunsInto(r, p) {
      var j :| 0 < j <= |r| && j <= |p| && r[|r| - j..] == p[..j];
      s := RunIntoLeaves(p, r, j);
    } else {
      var k :| 0 < k < |p| && CompletedAt(p, r, k);
      s := CompletedLeaves(p, r, k);
    }
  }

  lemma RunIntoLeaves(p: string, r: string, j: nat) returns (s: string)
    requires 0 < j <= |r| && j <= |p| && r[|r| - j..] == p[..j]
    ensures Occurs(Replaced(s, p, r), p)
  {
    hide Replaced, Occurs;
    s := "" + p + p[j..];
    TooShort(p[j..], p);
    OneMatch("", p, p[j..], r);
    EndsThere(r[..|r| - j], p);
    assert p == p[..j] + p[j..];
    assert "" + r + p[j..] == r[..|r| - j] + p;
  }

  lemma CompletedLeaves(p: string, r: string, k: nat) returns (s: string)
    requires 0 < k < |p| && CompletedAt(p, r, k)
    ensures Occurs(Replaced(s, p, r), p)
  {
    hide Replaced;
    if p[k..] <= r {
      s := p[..k] + p + "";
      TooShort("", p);
      OneMatch(p[..k], p, "", r);
      assert OccursAt(p[..k] + r + "", p, 0);
    } else {
      s := p[..k] + p + p[k + |r|..];
      TooShort(p[k + |r|..], p);
      OneMatch(p[..k], p, p[k + |r|..], r);
      assert p[..k] + r + p[k + |r|..] == p;
      EndsThere("", p);
      assert "" + p == p;
    }
  }

  ghost predicate AlwaysGone(p: string, r: string)
    requires p != ""
  {
    forall s: string :: !Occurs(Replaced(s, p, r), p)
  }

  /** Exactly which replacements leave no pattern in any text: those in which the pattern does not
      occur, whose end does not begin it, and which complete no beginning of it. */
  lemma PatternGoneIff(p: string, r: string)
    requires p != ""
    ensures AlwaysGone(p, r) <==> Inert(p, r)
  {
    if Inert(p, r) {
      forall s: string ensures !Occurs(Replaced(s, p, r), p) {
        InertIsEnough(s, p, r);
      }
    } else {
      var s := NotInertLeaves(p, r);
    }
  }

  /** In particular, a non-empty replacement that shares no character with the pattern. */
  lemma PatternIsGone(s: string, p: string, r: string)
    requires p != "" && r != "" && ShareNoCharacter(r, p)
    ensures !Occurs(Replaced(s, p, r), p)
  {
    PatternGoneIff(p, r);
    if !Inert(p, r) { NotInertShares(p, r); }
  }

  lemma NotInertShares(p: string, r: string)
    requires p != "" && r != "" && !Inert(p, r)
    ensures !ShareNoCharacter(r, p)
  {
    if Occurs(r, p) {
      var i: nat :| i <= |r| && OccursAt(r, p, i);
      FirstCharacter(r, p, i);
    } else if RunsInto(r, p) {
      var j :| 0 < j <= |r| && j <= |p| && r[|r| - j..] == p[..j];
      assert r[|r| - j] == r[|r| - j..][0] == p[..j][0];
    } else {
      var k :| 0 < k < |p| && CompletedAt(p, r, k);
      assert r[0] == p[k..][0] == p[k];
    }
  }

  /** The empty replacement is inert exactly for a pattern of one repeated character. */
  lemma EmptyReplacementIff(p: string)
    requires p != ""
    ensures AlwaysGone(p, "") <==> forall i :: 0 <= i < |p| ==> p[i] == p[0]
  {
    PatternGoneIff(p, "");
    assert !Occurs("", p) && !RunsInto("", p);
    if forall i :: 0 <= i < |p| ==> p[i] == p[0] {
      forall k | 0 < k < |p| ensures !CompletedAt(p, "", k) {
        assert (p[..k] + p)[0..|p|] == p;
        assert OccursAt(p[..k] + p, p, 0);
      }
    } else if OccursAt(p[..1] + p, p, 0) {
      AllSame(p);
    } else {
      assert CompletedAt(p, "", 1);
    }
  }

  lemma {:induction false} AllSame(p: string)
    requires |p| > 1 && OccursAt(p[..1] + p, p, 0)
    ensures forall i :: 0 <= i < |p| ==> p[i] == p[0]
  {
    var s := p[..1] + p;
    assert s[0..|p|] == p;
    var i := 0;
    while i < |p|
      invariant i <= |p| && forall j :: 0 <= j < i ==> p[j] == p[0]
    {
      assert i > 0 ==> p[i] == s[0..|p|][i] == s[i] == p[i - 1];
      i := i + 1;
    }
  }

  /** A text on which it does leave the pattern. */
  lemma EmptyReplacementCanLeaveIt()
    ensures Replaced("aabb", "ab", "") == "ab" && Occurs("ab", "ab")
  {
    assert !OccursAt("aabb", "ab", 0) by { assert "aabb"[0..2][1] == 'a'; }
    assert OccursAt("aabb", "ab", 1) by { assert "aabb"[1..3] == "ab"; }
    assert FindSub("aabb", "ab", 0) == Some(1);
    assert "aabb"[..1] == "a" && "aabb"[3..] == "b";
    assert Pieces("b", "ab") == ["b"];
    assert Pieces("aabb", "ab") == ["a", "b"];
    assert OccursAt("ab", "ab", 0);
  }

  /** If the replacement shares no character with the text, replacing back restores the text. */
  lemma ReplaceBack(s: string, p: string, r: string)
    requires p != "" && r != "" && ShareNoCharacter(r, s)
    ensures Replaced(Replaced(s, p, r), r, p) == s
  {
    var parts := Pieces(s, p);
    PiecesAreLeftmost(s, p);
    PartsShareNone(parts, p, s, r);
    assert LeftmostSplit(parts, Join(parts, r), r) by {
      forall i | 0 <= i < |parts| ensures EndsAtFirst(parts[i], r) && !Occurs(parts[i], r) {
        DisjointEndsAtFirst(parts[i], r);
      }
    }
    LeftmostIff(parts, Join(parts, r), r);
  }

  lemma DisjointEndsAtFirst(part: string, r: string)
    requires r != "" && ShareNoCharacter(r, part)
    ensures EndsAtFirst(part, r) && !Occurs(part, r)
  {
    forall j: nat | j < |part| ensures !OccursAt(part + r, r, j) && !OccursAt(part, r, j) {
      FirstCharacter(part + r, r, j);
      FirstCharacter(part, r, j);
      assert (part + r)[j] == part[j];
    }
  }

  lemma FirstCharacter(s: string, p: string, i: nat)
    requires p != ""
    ensures OccursAt(s, p, i) ==> s[i] == p[0]
  {
    if OccursAt(s, p, i) {
      assert s[i..i + |p|][0] == s[i];
    }
  }

  lemma {:induction false} PartsShareNone(parts: seq<string>, glue: string, s: string, r: string)
    requires Join(parts, glue) == s && ShareNoCharacter(r, s)
    ensures forall i :: 0 <= i < |parts| ==> ShareNoCharacter(r, parts[i])
  {
    if |parts| > 1 {
      var rest := Join(parts[1..], glue);
      assert forall k :: 0 <= k < |parts[0]| ==> parts[0][k] == s[k];
      assert forall k :: 0 <= k < |rest| ==> rest[k] == s[|parts[0]| + |glue| + k];
      PartsShareNone(parts[1..], glue, rest, r);
    }
  }

  // ---------- the loop ----------

  /** The empty pattern, on which the loop of the source does not end, is not accepted. */
  method Replace(s: string, toReplace: string, replaceWith: string) returns (r: string)
    requires toReplace != ""
    ensures r == Replaced(s, toReplace, replaceWith)
  {
    hide FindSub, Replaced, OccursAt;
    var buf := "";
    var pos := 0;
    var prevPos := pos;
    assert buf + Replaced(s[0..], toReplace, replaceWith) == Replaced(s, toReplace, replaceWith) by {
      assert s[0..] == s;
    }
    while true
      invariant pos <= |s|
      invariant buf + Replaced(s[pos..], toReplace, replaceWith) == Replaced(s, toReplace, replaceWith)
      decreases |s| - pos
    {
      prevPos := pos;
      var found := FindSub(s, toReplace, pos);
      ReplacedStep(s, toReplace, replaceWith, pos);
      if found.None? {
        break;
      }
      pos := found.value;
      ghost var piece, rest := s[prevPos..pos], Replaced(s[pos + |toReplace|..], toReplace, replaceWith);
      assert buf + (piece + replaceWith + rest) == buf + piece + replaceWith + rest;
      buf := buf + s[prevPos..pos];
      buf := buf + replaceWith;
      pos := pos + |toReplace|;
    }
    buf := buf + s[prevPos..];
    r := buf;
  }

  lemma ReplacedStep(s: string, p: string, r: string, pos: nat)
    requires p != "" && pos <= |s|
    ensures var found := FindSub(s, p, pos);
            Replaced(s[pos..], p, r) ==
            if found.None? then s[pos..]
            else s[pos..found.value] + r + Replaced(s[found.value + |p|..], p, r)
  {
    hide FindSub, OccursAt, Pieces, Join;
    FindInRest(s, p, pos, 0);
    var found := FindSub(s, p, pos);
    if found.Some? {
      var i := found.value - pos;
      assert s[pos..][..i] == s[pos..found.value];
      assert s[pos..][i + |p|..] == s[found.value + |p|..];
      ReplacedCons(s[pos..], p, r, i);
    } else {
      ReplacedNone(s[pos..], p, r);
    }
  }

  lemma ReplacedCons(s: string, p: string, r: string, i: nat)
    requires p != "" && FindSub(s, p, 0) == Some(i)
    ensures Replaced(s, p, r) == s[..i] + r + Replaced(s[i + |p|..], p, r)
  {
    hide FindSub, OccursAt;
    var tail := Pieces(s[i + |p|..], p);
    assert ([s[..i]] + tail)[1..] == tail;
  }

  lemma ReplacedNone(s: string, p: string, r: string)
    requires p != "" && FindSub(s, p, 0) == None
    ensures Replaced(s, p, r) == s
  {
    hide FindSub, OccursAt;
  }

  lemma OccursInRest(s: string, p: string, pos: nat, k: nat)
    requires pos + k <= |s|
    ensures OccursAt(s[pos..], p, k) <==> OccursAt(s, p, pos + k)
  {
    if pos + k + |p| <= |s| {
      assert s[pos..][k..k + |p|] == s[pos + k..pos + k + |p|];
    }
  }

  lemma {:induction false} FindInRest(s: string, p: string, pos: nat, k: nat)
    requires pos + k <= |s|
    ensures var found := FindSub(s, p, pos + k);
            FindSub(s[pos..], p, k) == if found.None? then None else Some(found.value - pos)
    decreases |s| - k
  {
    hide OccursAt;
    OccursInRest(s, p, pos, k);
    if pos + k < |s| {
      FindInRest(s, p, pos, k + 1);
    }
  }
}
