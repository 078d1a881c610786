/**
 * The string operations the pipeline applies to object names:
 * Python's `str.lower`, `str.split(sep)`, `[-1]`, `str.replace(p, '')`
 * and `str(int)`.
 */
module Text {

  /** Lower-cases one character (ASCII letters only). */
  function LowerChar(c: char): char {
    if 'A' <= c <= 'Z' then (c as int + 32) as char else c
  }

  /** `s.lower()`. */
  function ToLower(s: string): (r: string)
    ensures |r| == |s|
    ensures forall i :: 0 <= i < |s| ==> r[i] == LowerChar(s[i])
  {
    if s == [] then [] else [LowerChar(s[0])] + ToLower(s[1..])
  }

  lemma ToLowerIdempotent(s: string)
    ensures ToLower(ToLower(s)) == ToLower(s)
  {
    var t := ToLower(s);
    assert forall i :: 0 <= i < |t| ==> ToLower(t)[i] == t[i];
  }

  /** Lower-casing commutes with taking a suffix. */
  lemma {:induction false} ToLowerSuffix(s: string, i: nat)
    requires i <= |s|
    ensures ToLower(s)[i..] == ToLower(s[i..])
  {
    var a := ToLower(s)[i..];
    var b := ToLower(s[i..]);
    forall k | 0 <= k < |a| ensures a[k] == b[k] {
      assert a[k] == ToLower(s)[i + k] == LowerChar(s[i + k]);
      assert s[i..][k] == s[i + k];
    }
  }

  /** Inverse of `Split`: the parts glued back together with `sep`. */
  function Join(parts: seq<string>, sep: char): string
    requires |parts| >= 1
    decreases |parts|
  {
    if |parts| == 1 then parts[0] else parts[0] + [sep] + Join(parts[1..], sep)
  }

  /**
   * `s.split(sep)` for a one-character separator: the maximal runs
   * between separators, empty ones included; never an empty list.
   */
  function Split(s: string, sep: char): (r: seq<string>)
    ensures |r| >= 1
    ensures forall k :: 0 <= k < |r| ==> sep !in r[k]
    ensures Join(r, sep) == s
    ensures |r| > 1 <==> sep in s
    decreases |s|
  {
    if |s| == 0 then [""]
    else
      var rest := Split(s[1..], sep);
      if s[0] == sep then
        assert ([""] + rest)[1..] == rest;
        [""] + rest
      else
        var r := [[s[0]] + rest[0]] + rest[1..];
        JoinPrepend(s[0], rest, sep);
        assert s == [s[0]] + s[1..];
        assert sep in s <==> sep in s[1..];
        r
  }

  /** Putting a character in front of the first part puts it in front of the joined text. */
  lemma JoinPrepend(c: char, parts: seq<string>, sep: char)
    requires |parts| >= 1
    ensures Join([[c] + parts[0]] + parts[1..], sep) == [c] + Join(parts, sep)
  {
    var r := [[c] + parts[0]] + parts[1..];
    assert r[0] == [c] + parts[0];
    assert r[1..] == parts[1..];
    if |parts| > 1 {
      assert Join(r, sep) == r[0] + [sep] + Join(r[1..], sep);
      assert Join(parts, sep) == parts[0] + [sep] + Join(parts[1..], sep);
    }
  }

  function Last(parts: seq<string>): string
    requires |parts| >= 1
  {
    parts[|parts| - 1]
  }

  /** Joining two lists is joining each and gluing them with `sep`. */
  lemma {:induction false} JoinAppend(a: seq<string>, b: seq<string>, sep: char)
    requires |a| >= 1 && |b| >= 1
    ensures Join(a + b, sep) == Join(a, sep) + [sep] + Join(b, sep)
    decreases |a|
  {
    if |a| == 1 {
      assert (a + b)[1..] == b;
    } else {
      assert (a + b)[1..] == a[1..] + b;
      JoinAppend(a[1..], b, sep);
    }
  }

  /** Joining around the part at `k`: what comes before, the part between separators, what comes after. */
  lemma JoinAround(parts: seq<string>, k: nat, sep: char)
    requires 0 < k < |parts| - 1
    ensures Join(parts, sep) == Join(parts[..k], sep) + ([sep] + parts[k] + [sep]) + Join(parts[k + 1..], sep)
  {
    var before := parts[..k];
    var from := parts[k..];
    var rest := parts[k + 1..];
    assert before + from == parts;
    assert from[0] == parts[k] && from[1..] == rest;
    calc {
      Join(parts, sep);
      == { JoinAppend(before, from, sep); }
      Join(before, sep) + [sep] + Join(from, sep);
      ==
      Join(before, sep) + [sep] + (parts[k] + [sep] + Join(rest, sep));
      ==
      Join(before, sep) + ([sep] + parts[k] + [sep]) + Join(rest, sep);
    }
  }

  /** `p` occurs in `a + p + b`. */
  lemma OccursInMiddle(a: string, p: string, b: string)
    ensures Occurs(a + p + b, p)
  {
    var s := a + p + b;
    assert s[|a|..|a| + |p|] == p;
    assert OccursAt(s, p, |a|);
  }

  /** A part that is neither first nor last stands between two separators. */
  lemma JoinHasPart(parts: seq<string>, k: nat, sep: char)
    requires 0 < k < |parts| - 1
    ensures Occurs(Join(parts, sep), [sep] + parts[k] + [sep])
  {
    JoinAround(parts, k, sep);
    OccursInMiddle(Join(parts[..k], sep), [sep] + parts[k] + [sep], Join(parts[k + 1..], sep));
  }

  /** Splitting `a + [sep] + b` where `a` holds no separator peels `a` off. */
  lemma {:induction false} SplitFirst(a: string, sep: char, b: string)
    requires sep !in a
    ensures Split(a + [sep] + b, sep) == [a] + Split(b, sep)
    decreases |a|
  {
    var s := a + [sep] + b;
    if a == [] {
      assert s[1..] == b;
    } else {
      assert s[1..] == a[1..] + [sep] + b;
      SplitFirst(a[1..], sep, b);
      assert [a[0]] + a[1..] == a;
    }
  }

  /** `Split` undoes `Join` when no part holds the separator. */
  lemma {:induction false} SplitJoin(parts: seq<string>, sep: char)
    requires |parts| >= 1
    requires forall k :: 0 <= k < |parts| ==> sep !in parts[k]
    ensures Split(Join(parts, sep), sep) == parts
    decreases |parts|
  {
    if |parts| == 1 {
      var r := Split(parts[0], sep);
      assert |r| == 1;
    } else {
      SplitJoin(parts[1..], sep);
      SplitFirst(parts[0], sep, Join(parts[1..], sep));
      assert [parts[0]] + parts[1..] == parts;
    }
  }

  /**
   * `t` is what `s.split(sep)[-1]` should be: a suffix of `s` without
   * separator that either is all of `s` or is preceded by a separator.
   */
  predicate IsLastSegment(s: string, sep: char, t: string) {
    && |t| <= |s|
    && t == s[|s| - |t|..]
    && sep !in t
    && (|t| < |s| ==> s[|s| - |t| - 1] == sep)
  }

  /** A last segment of `s[1..]` is one of `s`, unless it is all of `s[1..]` and `s[0]` is no separator. */
  lemma LastSegmentExtend(s: string, sep: char, t: string)
    requires |s| > 0 && IsLastSegment(s[1..], sep, t)
    requires |t| == |s| - 1 ==> s[0] == sep
    ensures IsLastSegment(s, sep, t)
  {
    assert s[|s| - |t|..] == s[1..][|s| - 1 - |t|..];
    if |t| < |s| - 1 {
      assert s[|s| - |t| - 1] == s[1..][|s| - 1 - |t| - 1];
    }
  }

  /** How the last piece of `s.split(sep)` relates to that of `s[1..]`. */
  lemma LastSplitStep(s: string, sep: char)
    requires |s| > 0
    ensures s[0] == sep || |Split(s[1..], sep)| > 1 ==> Last(Split(s, sep)) == Last(Split(s[1..], sep))
    ensures s[0] != sep && |Split(s[1..], sep)| == 1 ==> Last(Split(s, sep)) == s
  {
    var rest := Split(s[1..], sep);
    if s[0] == sep {
      assert Split(s, sep) == [""] + rest;
    } else if |rest| == 1 {
      assert rest[0] == Join(rest, sep) == s[1..];
      assert Split(s, sep) == [[s[0]] + rest[0]];
    } else {
      assert Split(s, sep) == [[s[0]] + rest[0]] + rest[1..];
    }
  }

  lemma {:induction false} LastSplitIsSuffix(s: string, sep: char)
    ensures IsLastSegment(s, sep, Last(Split(s, sep)))
    decreases |s|
  {
    if |s| > 0 {
      var rest := Split(s[1..], sep);
      LastSplitIsSuffix(s[1..], sep);
      LastSplitStep(s, sep);
      var t' := Last(rest);
      if s[0] == sep {
        LastSegmentExtend(s, sep, t');
      } else if |rest| == 1 {
        assert s[|s| - |s|..] == s;
      } else {
        assert sep in s[1..];
        assert |t'| != |s| - 1;
        LastSegmentExtend(s, sep, t');
      }
    }
  }

  /** With no separator at all, `s.split(sep)[-1]` is `s`. */
  lemma LastSplitNoSeparator(s: string, sep: char)
    requires sep !in s
    ensures Last(Split(s, sep)) == s
  {
    var r := Split(s, sep);
    assert |r| == 1;
  }

  /** Otherwise it is the text after the last separator. */
  lemma LastSplitAfterLastSeparator(s: string, sep: char, i: nat)
    requires i < |s| && s[i] == sep && sep !in s[i + 1..]
    ensures Last(Split(s, sep)) == s[i + 1..]
  {
    LastSplitIsSuffix(s, sep);
  }

  /** `p` occurs in `s` starting at index `i`. */
  predicate OccursAt(s: string, p: string, i: nat) {
    i + |p| <= |s| && s[i..i + |p|] == p
  }

  /** `p` occurs somewhere in `s`. */
  predicate Occurs(s: string, p: string) {
    exists i: nat :: i <= |s| && OccursAt(s, p, i)
  }

  /** `p` cannot occur in a string lacking one of its characters. */
  lemma NotOccursMissingChar(s: string, p: string, k: nat)
    requires k < |p| && p[k] !in s
    ensures !Occurs(s, p)
  {
  }

  /** An occurrence past the first character of `s` is one in `s[1..]`. */
  lemma OccursTail(s: string, p: string)
    requires |s| > 0 && !OccursAt(s, p, 0)
    ensures Occurs(s, p) <==> Occurs(s[1..], p)
  {
    if Occurs(s, p) {
      var i: nat :| i <= |s| && OccursAt(s, p, i);
      assert s[1..][i - 1..i - 1 + |p|] == s[i..i + |p|];
      assert OccursAt(s[1..], p, i - 1);
    }
    if Occurs(s[1..], p) {
      var i: nat :| i <= |s| - 1 && OccursAt(s[1..], p, i);
      assert s[1..][i..i + |p|] == s[i + 1..i + 1 + |p|];
      assert OccursAt(s, p, i + 1);
    }
  }

  /**
   * `s.replace(p, '')`: one left-to-right pass deleting each
   * non-overlapping occurrence of `p`. Matching is exact (case-sensitive),
   * and what the deletions leave behind is not searched again.
   */
  function RemoveAll(s: string, p: string): (r: string)
    requires |p| > 0
    ensures |r| <= |s|
    ensures forall c :: c in r ==> c in s
    ensures Occurs(s, p) <==> |r| < |s|
    decreases |s|
  {
    if |s| < |p| then
      s
    else if s[..|p|] == p then
      assert OccursAt(s, p, 0);
      RemoveAll(s[|p|..], p)
    else
      assert !OccursAt(s, p, 0);
      OccursTail(s, p);
      [s[0]] + RemoveAll(s[1..], p)
  }

  /** Removing a pattern that does not occur changes nothing. */
  lemma RemoveAllAbsent(s: string, p: string)
    requires |p| > 0 && !Occurs(s, p)
    ensures RemoveAll(s, p) == s
  {
    var r := RemoveAll(s, p);
    assert |r| == |s|;
    if |s| >= |p| {
      assert !OccursAt(s, p, 0);
      OccursTail(s, p);
      RemoveAllAbsent(s[1..], p);
    }
  }

  /** An occurrence at `i + 1` in `s` is one at `i` in `s[1..]`. */
  lemma OccursAtShift(s: string, p: string, i: nat)
    requires |s| > 0
    ensures OccursAt(s, p, i + 1) <==> OccursAt(s[1..], p, i)
  {
    if i + 1 + |p| <= |s| {
      assert s[i + 1..i + 1 + |p|] == s[1..][i..i + |p|];
    }
  }

  /** Without a match at the front, the pass keeps the first character. */
  lemma RemoveAllSkip(s: string, p: string)
    requires |p| > 0 && |s| > 0 && !OccursAt(s, p, 0)
    ensures RemoveAll(s, p) == [s[0]] + RemoveAll(s[1..], p)
  {
    if |s| < |p| {
      RemoveAllAbsent(s[1..], p);
    }
  }

  /** No match inside `x` means no match inside `x[1..]` either, one position to the left. */
  lemma NoMatchShift(x: string, p: string, y: string)
    requires |x| > 0
    requires forall i :: 0 <= i < |x| ==> !OccursAt(x + p + y, p, i)
    ensures forall i :: 0 <= i < |x| - 1 ==> !OccursAt(x[1..] + p + y, p, i)
  {
    var s := x + p + y;
    assert s[1..] == x[1..] + p + y;
    forall i | 0 <= i < |x| - 1 ensures !OccursAt(x[1..] + p + y, p, i) {
      assert !OccursAt(s, p, i + 1);
      OccursAtShift(s, p, i);
    }
  }

  /**
   * When no occurrence of `p` starts inside `x`, the pass keeps `x` and
   * deletes the `p` after it, then carries on with `y`.
   */
  lemma {:induction false} RemoveAllAfter(x: string, p: string, y: string)
    requires |p| > 0
    requires forall i :: 0 <= i < |x| ==> !OccursAt(x + p + y, p, i)
    ensures RemoveAll(x + p + y, p) == x + RemoveAll(y, p)
    decreases |x|
  {
    var s := x + p + y;
    if x == [] {
      assert s[..|p|] == p && s[|p|..] == y;
    } else {
      var t := RemoveAll(y, p);
      assert !OccursAt(s, p, 0);
      assert s[1..] == x[1..] + p + y;
      calc {
        RemoveAll(s, p);
        == { RemoveAllSkip(s, p); }
        [s[0]] + RemoveAll(s[1..], p);
        == { NoMatchShift(x, p, y); RemoveAllAfter(x[1..], p, y); }
        [x[0]] + (x[1..] + t);
        == { assert [x[0]] + x[1..] == x; }
        x + t;
      }
    }
  }

  /** The common case: `x` does not hold the first character of `p`. */
  lemma RemoveAllAfterPlain(x: string, p: string, y: string)
    requires |p| > 0 && p[0] !in x
    ensures RemoveAll(x + p + y, p) == x + RemoveAll(y, p)
  {
    forall i | 0 <= i < |x| ensures !OccursAt(x + p + y, p, i) {
      assert (x + p + y)[i] == x[i];
    }
    RemoveAllAfter(x, p, y);
  }

  /** A decimal digit. */
  function Digit(d: nat): (c: char)
    requires d < 10
    ensures '0' <= c <= '9'
    ensures c as int - '0' as int == d
  {
    ['0', '1', '2', '3', '4', '5', '6', '7', '8', '9'][d]
  }

  /** Every character is a decimal digit. */
  predicate IsDecimal(s: string) {
    forall k :: 0 <= k < |s| ==> '0' <= s[k] <= '9'
  }

  /** What `str` writes for a non-negative number: digits, at least one, no leading zero. */
  predicate IsNumeral(s: string) {
    |s| >= 1 && IsDecimal(s) && (|s| > 1 ==> s[0] != '0')
  }

  /** The value of a string of decimal digits. */
  function DecimalValue(s: string): nat
    requires IsDecimal(s)
    decreases |s|
  {
    if s == [] then 0 else 10 * DecimalValue(s[..|s| - 1]) + (s[|s| - 1] as int - '0' as int)
  }

  /** `str(n)` for `n >= 0`. */
  function NatToString(n: nat): (r: string)
    ensures IsNumeral(r)
    decreases n
  {
    if n < 10 then [Digit(n)] else NatToString(n / 10) + [Digit(n % 10)]
  }

  /** Reading back what `NatToString` wrote gives the number. */
  lemma {:induction false} NatToStringRoundTrip(n: nat)
    ensures DecimalValue(NatToString(n)) == n
    decreases n
  {
    var r := NatToString(n);
    if n < 10 {
      assert r == [Digit(n)];
      assert r[..0] == [];
    } else {
      NatToStringRoundTrip(n / 10);
      assert r == NatToString(n / 10) + [Digit(n % 10)];
      assert r[..|r| - 1] == NatToString(n / 10);
      assert r[|r| - 1] as int - '0' as int == n % 10;
      assert DecimalValue(r) == 10 * (n / 10) + n % 10;
    }
  }

  /** The numeral of a positive number does not start with '0', even when it is one digit long. */
  lemma PositiveNumeral(n: nat)
    requires n > 0
    ensures NatToString(n)[0] != '0'
  {
    var d := NatToString(n);
    NatToStringRoundTrip(n);
    if |d| == 1 {
      assert d[..0] == [];
      assert DecimalValue(d) == d[0] as int - '0' as int;
    }
  }

  /** A minus sign before the numeral of `n`: the rest is that numeral, and it reads back as `n`. */
  lemma NegativeNumeral(n: nat, r: string)
    requires n > 0 && r == "-" + NatToString(n)
    ensures |r| >= 2 && r[0] == '-' && IsNumeral(r[1..]) && r[1] != '0' && DecimalValue(r[1..]) == n
  {
    var d := NatToString(n);
    assert r[1..] == d;
    NatToStringRoundTrip(n);
    PositiveNumeral(n);
  }

  /** `str(i)`: a minus sign before the digits of a negative number. */
  function IntToString(i: int): (r: string)
    ensures i >= 0 ==> IsNumeral(r) && DecimalValue(r) == i
    ensures i < 0 ==> && |r| >= 2 && r[0] == '-' && IsNumeral(r[1..]) && r[1] != '0'
                      && DecimalValue(r[1..]) == -i
  {
    if i < 0 then
      var r := "-" + NatToString(-i);
      NegativeNumeral(-i, r);
      r
    else
      NatToStringRoundTrip(i);
      NatToString(i)
  }
}
