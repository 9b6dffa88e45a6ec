/** The operations of Go's `strings` package that the site builder uses,
    over Dafny strings (sequences of Unicode scalar values). */
module Strings {

  /** `strings.HasPrefix` */
  predicate HasPrefix(s: string, p: string) {
    |p| <= |s| && s[..|p|] == p
  }

  /** `strings.TrimPrefix` */
  function TrimPrefix(s: string, p: string): (r: string)
    ensures HasPrefix(s, p) ==> s == p + r
    ensures !HasPrefix(s, p) ==> r == s
  {
    if HasPrefix(s, p) then s[|p|..] else s
  }

  /** `strings.HasSuffix` */
  predicate HasSuffix(s: string, p: string) {
    |p| <= |s| && s[|s| - |p|..] == p
  }

  /** `p` occurs in `s` starting at index `i`. */
  predicate OccursAt(s: string, p: string, i: int) {
    0 <= i && i + |p| <= |s| && s[i..i + |p|] == p
  }

  lemma OccursShift(s: string, p: string, j: int)
    requires |s| > 0 && j > 0
    ensures OccursAt(s, p, j) <==> OccursAt(s[1..], p, j - 1)
  {
    if j + |p| <= |s| {
      assert s[1..][j - 1..j - 1 + |p|] == s[j..j + |p|];
    }
  }

  /** `strings.Index`: the first index at which `p` occurs in `s`, or -1. */
  function Index(s: string, p: string): (i: int)
    ensures -1 <= i
    ensures i >= 0 ==> OccursAt(s, p, i)
    ensures forall j :: 0 <= j && (i < 0 || j < i) ==> !OccursAt(s, p, j)
    decreases |s|
  {
    if |s| < |p| then -1
    else if s[..|p|] == p then 0
    else
      var k := Index(s[1..], p);
      assert forall j :: j > 0 ==> (OccursAt(s, p, j) <==> OccursAt(s[1..], p, j - 1)) by {
        forall j | j > 0 { OccursShift(s, p, j); }
      }
      if k < 0 then -1 else k + 1
  }

  /** `strings.Contains` */
  predicate Contains(s: string, p: string) {
    Index(s, p) >= 0
  }

  /** `strings.ReplaceAll` for a non-empty pattern: the leftmost
      non-overlapping occurrences of `p` are replaced by `r`. */
  function ReplaceAll(s: string, p: string, r: string): string
    requires |p| > 0
    decreases |s|
  {
    if |s| < |p| then s
    else if s[..|p|] == p then r + ReplaceAll(s[|p|..], p, r)
    else [s[0]] + ReplaceAll(s[1..], p, r)
  }

  /** Replacing a pattern that does not occur changes nothing. */
  lemma {:induction false} ReplaceAllAbsent(s: string, p: string, r: string)
    requires |p| > 0
    requires !Contains(s, p)
    ensures ReplaceAll(s, p, r) == s
    decreases |s|
  {
    if |s| >= |p| {
      assert !OccursAt(s, p, 0);
      forall j | 0 <= j ensures !OccursAt(s[1..], p, j) {
        OccursShift(s, p, j + 1);
      }
      ReplaceAllAbsent(s[1..], p, r);
      assert [s[0]] + s[1..] == s;
    }
  }

  /** Replacing by something shorter never lengthens the string, and
      strictly shortens it when the pattern occurs. */
  lemma {:induction false} ReplaceAllLength(s: string, p: string, r: string)
    requires 0 <= |r| < |p|
    ensures |ReplaceAll(s, p, r)| <= |s|
    ensures Contains(s, p) ==> |ReplaceAll(s, p, r)| < |s|
    decreases |s|
  {
    if |s| >= |p| {
      if s[..|p|] == p {
        ReplaceAllLength(s[|p|..], p, r);
      } else {
        ReplaceAllLength(s[1..], p, r);
        if Contains(s, p) {
          OccursShift(s, p, Index(s, p));
        }
      }
    }
  }

  /** `strings.Replace(s, p, r, 1)`: only the first occurrence is replaced. */
  function ReplaceFirst(s: string, p: string, r: string): string
    requires |p| > 0
  {
    var i := Index(s, p);
    if i < 0 then s else s[..i] + r + s[i + |p|..]
  }

  /** `strings.TrimLeftFunc`: drop the leading characters satisfying `cut`. */
  function TrimLeft(s: string, cut: char -> bool): (r: string)
    ensures |r| <= |s|
    decreases |s|
  {
    if |s| > 0 && cut(s[0]) then TrimLeft(s[1..], cut) else s
  }

  /** `strings.TrimRightFunc`: drop the trailing characters satisfying `cut`. */
  function TrimRight(s: string, cut: char -> bool): (r: string)
    ensures |r| <= |s|
    decreases |s|
  {
    if |s| > 0 && cut(s[|s| - 1]) then TrimRight(s[..|s| - 1], cut) else s
  }

  /** `TrimLeft` keeps a suffix that does not start with a cut character,
      and every character it drops is cut. */
  lemma {:induction false} TrimLeftFacts(s: string, cut: char -> bool)
    ensures var r := TrimLeft(s, cut);
      r == s[|s| - |r|..] && (r == [] || !cut(r[0])) &&
      forall i :: 0 <= i < |s| - |r| ==> cut(s[i])
    decreases |s|
  {
    if |s| > 0 && cut(s[0]) {
      TrimLeftFacts(s[1..], cut);
      var r := TrimLeft(s[1..], cut);
      assert s[1..][|s| - 1 - |r|..] == s[|s| - |r|..];
      forall i | 1 <= i < |s| - |r| ensures cut(s[i]) {
        assert s[i] == s[1..][i - 1];
      }
    }
  }

  /** `TrimRight` keeps a prefix that does not end with a cut character,
      and every character it drops is cut. */
  lemma {:induction false} TrimRightFacts(s: string, cut: char -> bool)
    ensures var r := TrimRight(s, cut);
      r == s[..|r|] && (r == [] || !cut(r[|r| - 1])) &&
      forall i :: |r| <= i < |s| ==> cut(s[i])
    decreases |s|
  {
    if |s| > 0 && cut(s[|s| - 1]) {
      var s' := s[..|s| - 1];
      TrimRightFacts(s', cut);
      var r := TrimRight(s', cut);
      assert s'[..|r|] == s[..|r|];
      forall i | |r| <= i < |s| - 1 ensures cut(s[i]) {
        assert s[i] == s'[i];
      }
    }
  }

  /** `strings.TrimFunc`, and so `strings.Trim` with a one-character cut set
      and `strings.TrimSpace` with the space predicate. */
  function Trim(s: string, cut: char -> bool): string {
    TrimRight(TrimLeft(s, cut), cut)
  }

  /** What `Trim` keeps is a contiguous part of `s` that neither starts nor
      ends with a cut character, and it is empty exactly when every character
      of `s` is cut. */
  lemma TrimShape(s: string, cut: char -> bool)
    ensures var r := Trim(s, cut);
      var k := |s| - |TrimLeft(s, cut)|;
      k + |r| <= |s| && r == s[k..k + |r|] &&
      (r == [] || (!cut(r[0]) && !cut(r[|r| - 1]))) &&
      (r == [] <==> forall i :: 0 <= i < |s| ==> cut(s[i]))
  {
    var l := TrimLeft(s, cut);
    var r := TrimRight(l, cut);
    var k := |s| - |l|;
    TrimLeftFacts(s, cut);
    TrimRightFacts(l, cut);
    assert s[k..k + |r|] == l[..|r|];
    if r == [] {
      // Everything `TrimLeft` kept was cut again, so it kept nothing.
      assert l == [];
    } else {
      assert r[0] == l[0] == s[k];
    }
  }

  /** Number of (possibly overlapping) occurrences of `p` in `s`. */
  function Count(s: string, p: string): nat
    requires |p| > 0
    decreases |s|
  {
    if |s| < |p| then 0
    else (if s[..|p|] == p then 1 else 0) + Count(s[1..], p)
  }

  /** No occurrence of `p` can straddle the end of `a`: `a` is empty or its last
      character appears nowhere in `p` but at its end. */
  predicate SafeEnd(a: string, p: string)
    requires |p| > 0
  {
    a == [] || a[|a| - 1] !in p[..|p| - 1]
  }

  lemma {:induction false} CountConcat(a: string, b: string, p: string)
    requires |p| > 0
    requires SafeEnd(a, p)
    ensures Count(a + b, p) == Count(a, p) + Count(b, p)
    decreases |a|
  {
    if a == [] {
      assert a + b == b;
    } else {
      assert (a + b)[1..] == a[1..] + b;
      CountConcat(a[1..], b, p);
      if |a| < |p| {
        if |a + b| >= |p| {
          assert p[..|p| - 1][|a| - 1] == p[|a| - 1];
          assert (a + b)[..|p|][|a| - 1] == a[|a| - 1];
        }
        CountShort(a, p);
        CountShort(a[1..], p);
      } else {
        assert (a + b)[..|p|] == a[..|p|];
      }
    }
  }

  lemma CountShort(s: string, p: string)
    requires 0 < |p| && |s| < |p|
    ensures Count(s, p) == 0
  {
  }

  /** No occurrence of `p` can start in the last `|p| - 1` characters of `a`. */
  predicate NoTailStart(a: string, p: string)
    requires |p| > 0
  {
    forall k :: 0 <= k < |a| && |a| - k < |p| ==> a[k] != p[0]
  }

  /** Occurrences of `p` split over a concatenation when none can start in
      the last `|p| - 1` characters of the first part. */
  lemma {:induction false} CountSplit(a: string, b: string, p: string)
    requires |p| > 0
    requires NoTailStart(a, p)
    ensures Count(a + b, p) == Count(a, p) + Count(b, p)
    decreases |a|
  {
    if a == [] {
      assert a + b == b;
    } else {
      assert (a + b)[1..] == a[1..] + b;
      CountSplit(a[1..], b, p);
      if |a| < |p| {
        CountShort(a, p);
        CountShort(a[1..], p);
        if |a + b| >= |p| {
          assert (a + b)[..|p|][0] == a[0];
        }
      } else {
        assert (a + b)[..|p|] == a[..|p|];
      }
    }
  }

  /** A string that never holds the first character of `p` holds no occurrence. */
  lemma {:induction false} CountAbsentHead(s: string, p: string)
    requires |p| > 0
    requires p[0] !in s
    ensures Count(s, p) == 0
    decreases |s|
  {
    if |s| >= |p| {
      assert s[..|p|][0] == s[0];
      CountAbsentHead(s[1..], p);
    }
  }

  /** Concatenation of a sequence of strings. */
  function Concat(ss: seq<string>): string {
    if ss == [] then "" else ss[0] + Concat(ss[1..])
  }

  lemma {:induction false} ConcatAppend(ss: seq<string>, t: string)
    ensures Concat(ss + [t]) == Concat(ss) + t
  {
    if ss == [] {
      assert [] + [t] == [t];
    } else {
      assert (ss + [t])[1..] == ss[1..] + [t];
      ConcatAppend(ss[1..], t);
    }
  }
}
