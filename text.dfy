/**
 * String helpers with Python's semantics: `str.strip`, `str.lower`,
 * `str.isdigit`, `int(...)`, `str(...)`, `in`, `split` and `replace`.
 * `lower` and `isdigit` are modelled on ASCII only.
 */
module Text {
  import opened Wrappers

  /** Python's `str.isspace` for one character. */
  predicate IsSpace(c: char)
  {
    ('\U{9}' <= c <= '\U{D}') || ('\U{1C}' <= c <= '\U{20}') || c == '\U{85}' || c == '\U{A0}'
    || c == '\U{1680}' || ('\U{2000}' <= c <= '\U{200A}') || c == '\U{2028}' || c == '\U{2029}'
    || c == '\U{202F}' || c == '\U{205F}' || c == '\U{3000}'
  }

  predicate AllSpace(s: string)
  {
    forall i :: 0 <= i < |s| ==> IsSpace(s[i])
  }

  /** `s.lstrip()` */
  function LStrip(s: string): (r: string)
    ensures |r| <= |s| && r == s[|s| - |r|..]
    ensures AllSpace(s[..|s| - |r|])
    ensures r != [] ==> !IsSpace(r[0])
  {
    if s == [] then []
    else if IsSpace(s[0]) then
      var t := LStrip(s[1..]);
      assert s[..|s| - |t|] == [s[0]] + s[1..][..|s[1..]| - |t|];
      t
    else s
  }

  /** `s.rstrip()` */
  function RStrip(s: string): (r: string)
    ensures |r| <= |s| && r == s[..|r|]
    ensures AllSpace(s[|r|..])
    ensures r != [] ==> !IsSpace(r[|r| - 1])
  {
    if s == [] then []
    else if IsSpace(s[|s| - 1]) then
      var t := RStrip(s[..|s| - 1]);
      assert s[|t|..] == s[..|s| - 1][|t|..] + [s[|s| - 1]];
      t
    else s
  }

  /**
   * `r` is what is left of `s` once every character `strip` accepts has been
   * removed from both ends: `r` sits at index `i` of `s`, everything before
   * and after it is stripped, and `r` neither starts nor ends with a
   * stripped character.
   */
  predicate Trimmed(s: string, r: string, i: int, strip: char -> bool)
  {
    OccursAt(s, r, i) &&
    (forall k :: 0 <= k < i ==> strip(s[k])) &&
    (forall k :: i + |r| <= k < |s| ==> strip(s[k])) &&
    (r != [] ==> !strip(r[0]) && !strip(r[|r| - 1]))
  }

  /** A string has one trim only: the maximal one. */
  lemma TrimUnique(s: string, r1: string, i1: int, r2: string, i2: int, strip: char -> bool)
    requires Trimmed(s, r1, i1, strip) && Trimmed(s, r2, i2, strip)
    ensures r1 == r2
  {
    if r1 != [] && r2 != [] {
      TrimSameStart(s, r1, i1, r2, i2, strip);
      TrimSameEnd(s, r1, i1, r2, i2, strip);
      assert r1 == s[i1..i1 + |r1|];
    }
  }

  lemma TrimSameStart(s: string, r1: string, i1: int, r2: string, i2: int, strip: char -> bool)
    requires Trimmed(s, r1, i1, strip) && Trimmed(s, r2, i2, strip) && r1 != [] && r2 != []
    ensures i1 == i2
  {
    assert s[i1] == r1[0] && s[i2] == r2[0];
  }

  lemma TrimSameEnd(s: string, r1: string, i1: int, r2: string, i2: int, strip: char -> bool)
    requires Trimmed(s, r1, i1, strip) && Trimmed(s, r2, i2, strip) && r1 != [] && r2 != []
    ensures i1 + |r1| == i2 + |r2|
  {
    assert s[i1 + |r1| - 1] == r1[|r1| - 1] && s[i2 + |r2| - 1] == r2[|r2| - 1];
  }

  /** The test `strip(c)` applies to each end character. */
  function Is(c: char): char -> bool
  {
    x => x == c
  }

  /** A trim of the tail of `s` is a trim of `s` when the first character is stripped too. */
  lemma TrimmedPastHead(s: string, r: string, i: int, strip: char -> bool)
    requires s != [] && strip(s[0]) && Trimmed(s[1..], r, i, strip)
    ensures Trimmed(s, r, i + 1, strip)
  {
    assert s[i + 1..i + 1 + |r|] == s[1..][i..i + |r|];
    forall k | 0 <= k < i + 1 ensures strip(s[k]) {
      if k > 0 { assert s[k] == s[1..][k - 1]; }
    }
    forall k | i + 1 + |r| <= k < |s| ensures strip(s[k]) {
      assert s[k] == s[1..][k - 1];
    }
  }

  /** A trim of `s` without its last character is a trim of `s` when that character is stripped too. */
  lemma TrimmedBeforeLast(s: string, r: string, i: int, strip: char -> bool)
    requires s != [] && strip(s[|s| - 1]) && Trimmed(s[..|s| - 1], r, i, strip)
    ensures Trimmed(s, r, i, strip)
  {
    assert s[i..i + |r|] == s[..|s| - 1][i..i + |r|];
    forall k | 0 <= k < i ensures strip(s[k]) {
      assert s[k] == s[..|s| - 1][k];
    }
    forall k | i + |r| <= k < |s| ensures strip(s[k]) {
      if k < |s| - 1 { assert s[k] == s[..|s| - 1][k]; }
    }
  }

  /** A string whose ends are not stripped is its own trim. */
  lemma TrimmedWhole(s: string, strip: char -> bool)
    requires s != [] ==> !strip(s[0]) && !strip(s[|s| - 1])
    ensures Trimmed(s, s, 0, strip)
  {
    assert s[0..|s|] == s;
  }

  /** `s.strip()`: the whitespace-free core of `s`, which is a slice of `s`. */
  function Strip(s: string): (r: string)
    ensures exists i :: 0 <= i <= |s| && OccursAt(s, r, i)
    ensures r != [] ==> !IsSpace(r[0]) && !IsSpace(r[|r| - 1])
  {
    var l := LStrip(s);
    var r := RStrip(l);
    StripTrims(s, l, r);
    r
  }

  /** `strip()` removes every leading and trailing whitespace character and nothing else. */
  lemma StripIsTrimmed(s: string)
    ensures exists i :: Trimmed(s, Strip(s), i, IsSpace)
  {
    var l := LStrip(s);
    StripTrims(s, l, RStrip(l));
    assert Trimmed(s, Strip(s), |s| - |l|, IsSpace);
  }

  lemma StripTrims(s: string, l: string, r: string)
    requires l == LStrip(s) && r == RStrip(l)
    ensures Trimmed(s, r, |s| - |l|, IsSpace)
  {
    SpacesBefore(s, |s| - |l|);
    SpacesAfter(s, l, r);
    TrimmedOfSpaces(s, l, r);
  }

  lemma TrimmedOfSpaces(s: string, l: string, r: string)
    requires |l| <= |s| && l == s[|s| - |l|..] && |r| <= |l| && r == l[..|r|]
    requires forall k :: 0 <= k < |s| - |l| ==> IsSpace(s[k])
    requires forall k :: |s| - |l| + |r| <= k < |s| ==> IsSpace(s[k])
    requires r != [] ==> !IsSpace(r[0]) && !IsSpace(r[|r| - 1])
    ensures Trimmed(s, r, |s| - |l|, IsSpace)
  {
    var i := |s| - |l|;
    assert s[i..i + |r|] == r;
  }

  lemma SpacesBefore(s: string, i: nat)
    requires i <= |s| && AllSpace(s[..i])
    ensures forall k :: 0 <= k < i ==> IsSpace(s[k])
  {
    forall k | 0 <= k < i ensures IsSpace(s[k]) {
      assert s[..i][k] == s[k];
    }
  }

  lemma SpacesAfter(s: string, l: string, r: string)
    requires |l| <= |s| && l == s[|s| - |l|..] && |r| <= |l| && AllSpace(l[|r|..])
    ensures forall k :: |s| - |l| + |r| <= k < |s| ==> IsSpace(s[k])
  {
    var i := |s| - |l|;
    forall k | i + |r| <= k < |s| ensures IsSpace(s[k]) {
      assert l[k - i] == s[k];
      assert l[|r|..][k - i - |r|] == l[k - i];
    }
  }

  /** `strip()` removes exactly the outer whitespace: any maximal trim of `s` is `Strip(s)`. */
  lemma StripIsTheTrim(s: string, r: string, i: int)
    requires Trimmed(s, r, i, IsSpace)
    ensures r == Strip(s)
  {
    StripIsTrimmed(s);
    var j :| Trimmed(s, Strip(s), j, IsSpace);
    TrimUnique(s, r, i, Strip(s), j, IsSpace);
  }

  /** `s.strip()` is empty exactly when `s` is all whitespace. */
  lemma {:induction false} StripEmptyIffAllSpace(s: string)
    ensures Strip(s) == [] <==> AllSpace(s)
  {
    var l := LStrip(s);
    if !AllSpace(s) {
      var k :| 0 <= k < |s| && !IsSpace(s[k]);
      assert k >= |s| - |l|;
      var j := k - (|s| - |l|);
      assert l[j] == s[k];
      assert |RStrip(l)| > 0;
    }
  }

  /** Stripping a string that has no outer whitespace leaves it unchanged. */
  lemma StripIdempotent(s: string)
    ensures Strip(Strip(s)) == Strip(s)
  {
  }

  /** Python's `str.lower()` restricted to ASCII letters. */
  function LowerChar(c: char): (d: char)
    ensures 'A' <= c <= 'Z' ==> d == c - 'A' + 'a'
    ensures !('A' <= c <= 'Z') ==> d == c
  {
    if 'A' <= c <= 'Z' then (c - 'A' + 'a') as char else c
  }

  function Lower(s: string): (r: string)
    ensures |r| == |s|
    ensures forall i :: 0 <= i < |s| ==> r[i] == LowerChar(s[i])
  {
    if s == [] then [] else [LowerChar(s[0])] + Lower(s[1..])
  }

  predicate IsLowerChar(c: char) { !('A' <= c <= 'Z') }

  predicate IsDigitChar(c: char) { '0' <= c <= '9' }

  /** `s.isdigit()` (ASCII digits): non-empty and every character a digit. */
  predicate IsDigits(s: string)
  {
    |s| > 0 && forall i :: 0 <= i < |s| ==> IsDigitChar(s[i])
  }

  /** The value of a string of decimal digits, as `int(s)` computes it. */
  function DigitsValue(s: string): nat
    requires forall i :: 0 <= i < |s| ==> IsDigitChar(s[i])
  {
    if s == [] then 0
    else
      var d := s[|s| - 1];
      assert IsDigitChar(d);
      DigitsValue(s[..|s| - 1]) * 10 + (d as int - '0' as int)
  }

  /** `str(n)` for a natural number. */
  function NatToString(n: nat): (r: string)
    ensures IsDigits(r)
    ensures n > 0 ==> r[0] != '0'
    decreases n
  {
    if n < 10 then [('0' as int + n) as char]
    else NatToString(n / 10) + [('0' as int + n % 10) as char]
  }

  /** Printing a number and reading it back gives the number. */
  lemma {:induction false} DigitsValueOfNatToString(n: nat)
    ensures DigitsValue(NatToString(n)) == n
    decreases n
  {
    var s := NatToString(n);
    if n >= 10 {
      DigitsValueOfNatToString(n / 10);
      assert s[..|s| - 1] == NatToString(n / 10);
    }
  }

  /** `str(i)` for any integer. */
  function IntToString(i: int): (r: string)
    ensures |r| > 0
    ensures (r[0] == '-') <==> i < 0
  {
    if i < 0 then "-" + NatToString(-i) else NatToString(i)
  }

  /** `sub in s` */
  predicate Contains(s: string, sub: string)
  {
    exists i :: 0 <= i <= |s| && OccursAt(s, sub, i)
  }

  /** `sub` occurs in `s` starting at index `i`. */
  predicate OccursAt(s: string, sub: string, i: int)
  {
    0 <= i <= |s| - |sub| && s[i..i + |sub|] == sub
  }

  predicate StartsWith(s: string, p: string)
  {
    |p| <= |s| && s[..|p|] == p
  }

  predicate EndsWith(s: string, p: string)
  {
    |p| <= |s| && s[|s| - |p|..] == p
  }

  /** A concatenation starts with its first part and ends with its last. */
  lemma ConcatEnds(a: string, b: string)
    ensures StartsWith(a + b, a) && EndsWith(a + b, b)
  {
    assert (a + b)[..|a|] == a;
    assert (a + b)[|a + b| - |b|..] == b;
  }

  /** Index of the first occurrence of `c`, or `|s|` when absent. */
  function IndexOf(s: string, c: char): (k: nat)
    ensures k <= |s|
    ensures k < |s| ==> s[k] == c
    ensures forall i :: 0 <= i < k ==> s[i] != c
  {
    if s == [] then 0
    else if s[0] == c then 0
    else 1 + IndexOf(s[1..], c)
  }

  /** Index just after the last occurrence of `c`, or 0 when absent. */
  function AfterLastIndex(s: string, c: char): (k: nat)
    ensures k <= |s|
    ensures k > 0 ==> s[k - 1] == c
    ensures forall i :: k <= i < |s| ==> s[i] != c
  {
    if s == [] then 0
    else if s[|s| - 1] == c then |s|
    else AfterLastIndex(s[..|s| - 1], c)
  }

  /** `s.split(c)[0]`: everything before the first `c`. */
  function FirstField(s: string, c: char): (r: string)
    ensures StartsWith(s, r) && !(c in r)
    ensures |r| < |s| ==> s[|r|] == c
  {
    s[..IndexOf(s, c)]
  }

  /** `s.split(c)[-1]`: everything after the last `c`. */
  function LastField(s: string, c: char): (r: string)
    ensures EndsWith(s, r) && !(c in r)
    ensures |r| < |s| ==> s[|s| - |r| - 1] == c
  {
    s[AfterLastIndex(s, c)..]
  }

  /** `s.split(c)`: the pieces between occurrences of `c`. */
  function Split(s: string, c: char): (r: seq<string>)
    ensures |r| > 0
    ensures r[0] == FirstField(s, c)
    decreases |s|
  {
    var k := IndexOf(s, c);
    if k == |s| then [s] else [s[..k]] + Split(s[k + 1..], c)
  }

  /** No piece of a split holds the separator. */
  lemma {:induction false} SplitPiecesFree(s: string, c: char)
    ensures forall i :: 0 <= i < |Split(s, c)| ==> !(c in Split(s, c)[i])
    decreases |s|
  {
    var k := IndexOf(s, c);
    if k < |s| {
      SplitPiecesFree(s[k + 1..], c);
      var rest := Split(s[k + 1..], c);
      assert Split(s, c) == [s[..k]] + rest;
      assert !(c in s[..k]);
    }
  }

  /** `sep.join(parts)` */
  function Join(parts: seq<string>, sep: string): (r: string)
    ensures |parts| == 1 ==> r == parts[0]
  {
    if parts == [] then []
    else if |parts| == 1 then parts[0]
    else parts[0] + sep + Join(parts[1..], sep)
  }

  /** Joining the pieces of a split with the separator gives back the string. */
  lemma {:induction false} JoinSplit(s: string, c: char)
    ensures Join(Split(s, c), [c]) == s
    decreases |s|
  {
    var k := IndexOf(s, c);
    if k < |s| {
      JoinSplit(s[k + 1..], c);
      assert s == s[..k] + [c] + s[k + 1..];
    }
  }

  /** `s.replace(pat, rep)`: every non-overlapping occurrence, left to right. */
  function Replace(s: string, pat: string, rep: string): (r: string)
    requires |pat| > 0
    ensures !Contains(s, pat) ==> r == s
    decreases |s|
  {
    if |s| < |pat| then s
    else if s[..|pat|] == pat then
      assert OccursAt(s, pat, 0);
      rep + Replace(s[|pat|..], pat, rep)
    else
      var t := Replace(s[1..], pat, rep);
      assert !Contains(s, pat) ==> !Contains(s[1..], pat) by {
        if Contains(s[1..], pat) { ContainsInTail(s, pat); }
      }
      [s[0]] + t
  }

  /**
   * When the replacement starts with the pattern's first character, a prefix
   * of the result that avoids that character is a prefix of the input.
   */
  lemma {:induction false} ReplaceKeepsPrefix(x: string, pat: string, rep: string, q: string)
    requires |pat| > 0 && rep != [] && rep[0] == pat[0] && !(pat[0] in q)
    ensures StartsWith(Replace(x, pat, rep), q) ==> StartsWith(x, q)
    decreases |x|
  {
    if q != [] && |x| >= |pat| {
      var r := Replace(x, pat, rep);
      if x[..|pat|] == pat {
        assert r[0] == pat[0];
      } else {
        var t := Replace(x[1..], pat, rep);
        assert r == [x[0]] + t;
        ReplaceKeepsPrefix(x[1..], pat, rep, q[1..]);
        if StartsWith(r, q) {
          assert StartsWith(t, q[1..]) by { assert r[1..|q|] == t[..|q| - 1]; }
          assert x[..|q|] == [x[0]] + x[1..][..|q| - 1];
        }
      }
    }
  }

  /**
   * `replace` leaves no occurrence of the pattern when the pattern's first
   * character appears nowhere else in the pattern, only at the start of the
   * replacement, and the replacement departs from the pattern at index `j`.
   */
  lemma {:induction false} ReplaceRemovesAll(s: string, pat: string, rep: string, j: nat)
    requires |pat| > 0 && !(pat[0] in pat[1..])
    requires rep != [] && rep[0] == pat[0] && !(pat[0] in rep[1..])
    requires j < |rep| && j < |pat| && rep[j] != pat[j]
    ensures !Contains(Replace(s, pat, rep), pat)
    decreases |s|
  {
    if |s| >= |pat| {
      if s[..|pat|] == pat {
        ReplaceRemovesAll(s[|pat|..], pat, rep, j);
        CleanAfterReplacement(pat, rep, j, Replace(s[|pat|..], pat, rep));
      } else {
        ReplaceRemovesAll(s[1..], pat, rep, j);
        ReplaceKeepsPrefix(s[1..], pat, rep, pat[1..]);
        CleanAfterSkip(s, pat, Replace(s[1..], pat, rep));
      }
    }
  }

  /** The replacement followed by clean text holds no occurrence. */
  lemma CleanAfterReplacement(pat: string, rep: string, j: nat, t: string)
    requires |pat| > 0 && rep != [] && rep[0] == pat[0] && !(pat[0] in rep[1..])
    requires j < |rep| && j < |pat| && rep[j] != pat[j]
    requires !Contains(t, pat)
    ensures !Contains(rep + t, pat)
  {
    var r := rep + t;
    forall i | 0 <= i <= |r| ensures !OccursAt(r, pat, i) {
      if i == 0 {
        assert r[j] == rep[j];
      } else if i < |rep| {
        assert r[i] == rep[i] && rep[i] == rep[1..][i - 1];
      } else if i + |pat| <= |r| {
        assert r[i..i + |pat|] == t[i - |rep|..i - |rep| + |pat|];
        assert !OccursAt(t, pat, i - |rep|);
      }
    }
  }

  /** A character that does not start a match, followed by clean text, holds no occurrence. */
  lemma CleanAfterSkip(s: string, pat: string, t: string)
    requires |pat| > 0 && |s| >= |pat| && s[..|pat|] != pat
    requires StartsWith(t, pat[1..]) ==> StartsWith(s[1..], pat[1..])
    requires !Contains(t, pat)
    ensures !Contains([s[0]] + t, pat)
  {
    var r := [s[0]] + t;
    forall i | 0 <= i <= |r| ensures !OccursAt(r, pat, i) {
      if i == 0 {
        if s[0] == pat[0] && |pat| <= |r| {
          assert s[..|pat|] == [s[0]] + s[1..][..|pat| - 1];
          assert pat == [pat[0]] + pat[1..];
          assert !StartsWith(s[1..], pat[1..]);
          assert t[..|pat| - 1] != pat[1..];
          assert r[..|pat|][1..] == t[..|pat| - 1];
        }
      } else if i + |pat| <= |r| {
        assert r[i..i + |pat|] == t[i - 1..i - 1 + |pat|];
        assert !OccursAt(t, pat, i - 1);
      }
    }
  }

  lemma ContainsInTail(s: string, sub: string)
    requires |s| > 0 && Contains(s[1..], sub)
    ensures Contains(s, sub)
  {
    var i :| 0 <= i <= |s[1..]| && OccursAt(s[1..], sub, i);
    assert s[i + 1..i + 1 + |sub|] == s[1..][i..i + |sub|];
    assert OccursAt(s, sub, i + 1);
  }

  /**
   * `int(s)` for a string: surrounding whitespace, an optional sign, then
   * decimal digits; anything else raises (`None`).
   */
  function ParseInt(s: string): (r: Option<int>)
    ensures r.Some? <==> IsSignedDigits(Strip(s))
    ensures r.Some? && IsDigits(Strip(s)) ==> r.value == DigitsValue(Strip(s))
    ensures r.Some? && Strip(s)[0] == '+' ==> r.value == DigitsValue(Strip(s)[1..])
    ensures r.Some? && Strip(s)[0] == '-' ==> r.value == -(DigitsValue(Strip(s)[1..]) as int)
  {
    ParseStripped(Strip(s))
  }

  /** Decimal digits, with one leading sign or none. */
  predicate IsSignedDigits(t: string)
  {
    IsDigits(t) || (t != [] && (t[0] == '-' || t[0] == '+') && IsDigits(t[1..]))
  }

  /** `int(t)` once the surrounding whitespace is gone. */
  function ParseStripped(t: string): (r: Option<int>)
    ensures r.Some? ==> t != []
  {
    if t == [] then None
    else if t[0] == '-' || t[0] == '+' then
      if IsDigits(t[1..]) then
        var v: int := DigitsValue(t[1..]);
        Some(if t[0] == '-' then -v else v)
      else None
    else if IsDigits(t) then Some(DigitsValue(t))
    else None
  }

  /** `int(s)` depends only on the text between the surrounding whitespace. */
  lemma ParseIntOfStripped(s: string)
    ensures ParseInt(s) == ParseInt(Strip(s))
  {
    StripIdempotent(s);
  }

  /** Digits, possibly none. */
  predicate AllDigits(s: string)
  {
    forall i :: 0 <= i < |s| ==> IsDigitChar(s[i])
  }

  /** The text after a leading sign, if there is one. */
  function Unsigned(t: string): (u: string)
    ensures |u| <= |t|
  {
    if t != [] && (t[0] == '-' || t[0] == '+') then t[1..] else t
  }

  /** The value of the decimal numeral `a.b`. */
  function PointValue(a: string, b: string): (x: real)
    requires AllDigits(a) && AllDigits(b)
    ensures x >= DigitsValue(a) as real
  {
    DigitsValue(a) as real + Shifted(DigitsValue(b), |b|)
  }

  /** `n` divided by ten `k` times: the digits `n` read after a decimal point. */
  function Shifted(n: nat, k: nat): (r: real)
    ensures r >= 0.0
  {
    if k == 0 then n as real else Shifted(n, k - 1) / 10.0
  }

  /**
   * `float(s)` for plain decimal notation: surrounding whitespace, an optional
   * sign, then digits around one decimal point, with at least one digit.
   */
  function ParseDecimal(s: string): (r: Option<real>)
    ensures r.Some? && Strip(s) != [] && Strip(s)[0] == '-' ==> r.value <= 0.0
    ensures r.Some? && !(Strip(s) != [] && Strip(s)[0] == '-') ==> r.value >= 0.0
  {
    DecimalOfStripped(Strip(s))
  }

  /** `float(t)` once the surrounding whitespace is gone. */
  function DecimalOfStripped(t: string): (r: Option<real>)
    ensures r.Some? && t != [] && t[0] == '-' ==> r.value <= 0.0
    ensures r.Some? && !(t != [] && t[0] == '-') ==> r.value >= 0.0
  {
    var u := Unsigned(t);
    var k := IndexOf(u, '.');
    if k < |u| && |u| >= 2 && AllDigits(u[..k]) && AllDigits(u[k + 1..]) then
      var v := DigitsValue(u[..k]) as real + Shifted(DigitsValue(u[k + 1..]), |u| - k - 1);
      Some(if t != [] && t[0] == '-' then -v else v)
    else None
  }

  /** A string that neither starts nor ends with whitespace is its own strip. */
  lemma StripOfUnpadded(s: string)
    requires s != [] && !IsSpace(s[0]) && !IsSpace(s[|s| - 1])
    ensures Strip(s) == s
  {
    assert LStrip(s) == s;
    assert RStrip(s) == s;
  }

  /** A string of digits reads as its value. */
  lemma ParseIntOfDigits(s: string)
    requires IsDigits(s)
    ensures ParseInt(s) == Some(DigitsValue(s))
  {
    assert IsDigitChar(s[0]) && IsDigitChar(s[|s| - 1]);
    StripOfUnpadded(s);
  }

  /** A minus sign before a string of digits reads as the negated value. */
  lemma ParseIntOfNegated(n: string, v: int)
    requires IsDigits(n) && v == DigitsValue(n)
    ensures ParseInt("-" + n) == Some(-v)
  {
    var s := "-" + n;
    NegatedShape(n);
    StripOfUnpadded(s);
    assert ParseStripped(s) == Some(-v);
  }

  /** A sign before a string of digits: `-` negates the value, `+` keeps it. */
  lemma ParseIntOfSigned(s: string, n: string)
    requires IsDigits(n) && s != [] && (s[0] == '-' || s[0] == '+') && s[1..] == n
    ensures ParseInt(s) == Some(if s[0] == '-' then -(DigitsValue(n) as int) else DigitsValue(n))
  {
    assert IsDigitChar(n[|n| - 1]) && s[|s| - 1] == n[|n| - 1];
    StripOfUnpadded(s);
  }

  /** Whitespace around a string of digits is ignored. */
  lemma ParseIntOfPadded(before: string, n: string, after: string)
    requires AllSpace(before) && IsDigits(n) && AllSpace(after)
    ensures ParseInt(before + n + after) == Some(DigitsValue(n))
  {
    var s := before + n + after;
    assert IsDigitChar(n[0]) && IsDigitChar(n[|n| - 1]);
    assert s[|before|..|before| + |n|] == n;
    forall k | 0 <= k < |before| ensures IsSpace(s[k]) {
      assert s[k] == before[k];
    }
    forall k | |before| + |n| <= k < |s| ensures IsSpace(s[k]) {
      assert s[k] == after[k - |before| - |n|];
    }
    assert Trimmed(s, n, |before|, IsSpace);
    StripIsTheTrim(s, n, |before|);
    ParseIntOfStripped(s);
    ParseIntOfDigits(n);
  }

  /** Digits, a point and digits: `int()` refuses them and `float()` reads them. */
  lemma ParseDecimalOfPoint(a: string, b: string)
    requires IsDigits(a) && AllDigits(b)
    ensures ParseInt(a + "." + b) == None
    ensures ParseDecimal(a + "." + b) == Some(PointValue(a, b))
  {
    ParseIntRefusesPoint(a, b);
    ParseDecimalReadsPoint(a, b);
  }

  lemma ParseIntRefusesPoint(a: string, b: string)
    requires IsDigits(a) && AllDigits(b)
    ensures ParseInt(a + "." + b) == None
  {
    PointedIsStripped(a, b);
    PointedNotInteger(a, b);
  }

  lemma ParseDecimalReadsPoint(a: string, b: string)
    requires IsDigits(a) && AllDigits(b)
    ensures ParseDecimal(a + "." + b) == Some(PointValue(a, b))
  {
    PointedIsStripped(a, b);
    PointedDecimal(a, b);
  }

  lemma PointedNotInteger(a: string, b: string)
    requires IsDigits(a)
    ensures !IsSignedDigits(a + "." + b)
  {
    var s := a + "." + b;
    assert s[0] == a[0] && IsDigitChar(a[0]);
    assert s[|a|] == '.' && !IsDigitChar(s[|a|]);
    assert 1 <= |a| ==> s[1..][|a| - 1] == '.';
  }

  lemma PointedIsStripped(a: string, b: string)
    requires IsDigits(a) && AllDigits(b)
    ensures Strip(a + "." + b) == a + "." + b
  {
    var s := a + "." + b;
    assert s[0] == a[0] && IsDigitChar(a[0]);
    assert !IsSpace(s[|s| - 1]) by {
      if b != [] { assert s[|s| - 1] == b[|b| - 1]; }
    }
    StripOfUnpadded(s);
  }

  lemma PointedDecimal(a: string, b: string)
    requires IsDigits(a) && AllDigits(b)
    ensures DecimalOfStripped(a + "." + b) == Some(PointValue(a, b))
  {
    var s := a + "." + b;
    assert s[0] == a[0] && IsDigitChar(a[0]);
    PointAt(a, b);
    assert s[..|a|] == a && s[|a| + 1..] == b;
    UnsignedDecimal(s, |a|);
  }

  lemma UnsignedDecimal(t: string, k: nat)
    requires t != [] && t[0] != '-' && t[0] != '+'
    requires k == IndexOf(t, '.') && k < |t| && |t| >= 2 && AllDigits(t[..k]) && AllDigits(t[k + 1..])
    ensures DecimalOfStripped(t) == Some(DigitsValue(t[..k]) as real + Shifted(DigitsValue(t[k + 1..]), |t| - k - 1))
  {
  }

  lemma PointAt(a: string, b: string)
    requires AllDigits(a)
    ensures IndexOf(a + "." + b, '.') == |a|
    decreases |a|
  {
    if a != [] {
      assert (a + "." + b)[1..] == a[1..] + "." + b;
      PointAt(a[1..], b);
    }
  }

  lemma NegatedShape(n: string)
    requires IsDigits(n)
    ensures var s := "-" + n; s != [] && s[0] == '-' && s[1..] == n
    ensures var s := "-" + n; !IsSpace(s[0]) && !IsSpace(s[|s| - 1])
  {
    var s := "-" + n;
    assert IsDigitChar(n[|n| - 1]) && s[|s| - 1] == n[|n| - 1];
    assert s[1..] == n;
  }

  /** `int(str(n)) == n` for a natural number. */
  lemma NatToStringParses(n: nat)
    ensures ParseInt(NatToString(n)) == Some(n)
  {
    ParseIntOfDigits(NatToString(n));
    DigitsValueOfNatToString(n);
  }

  /** `int(str(-n)) == -n` for a natural number. */
  lemma NegatedNatToStringParses(n: nat)
    ensures ParseInt("-" + NatToString(n)) == Some(-(n as int))
  {
    DigitsValueOfNatToString(n);
    ParseIntOfNegated(NatToString(n), n);
  }

  /** `int(str(i)) == i` */
  lemma IntToStringParses(i: int)
    ensures ParseInt(IntToString(i)) == Some(i)
  {
    if i < 0 {
      NegatedNatToStringParses(-i);
    } else {
      NatToStringParses(i);
    }
  }
}
