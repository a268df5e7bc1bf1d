/** The handful of Python `str` operations the naming rule is built from:
    `replace`, `split(sep, 1)[0]`, the slices `[:n]` and `[-n:]`, and `str()`
    of an integer. Each is stated with the property the naming rule relies on. */
module PyText {

  /** `p` occurs in `s` starting at index `i`. */
  predicate OccursAt(s: string, p: string, i: nat)
  {
    i + |p| <= |s| && s[i..i + |p|] == p
  }

  /** A one-character pattern occurs exactly where that character stands. */
  lemma OccursChar(s: string, c: char, i: nat)
    ensures OccursAt(s, [c], i) <==> i < |s| && s[i] == c
  {
    if i < |s| {
      assert s[i..i + 1] == [s[i]];
    }
  }

  /** `s.replace(pat, rep)`: every leftmost, non-overlapping occurrence of
      `pat`, scanning from the left, is replaced by `rep`. */
  function ReplaceAll(s: string, pat: string, rep: string): string
    requires pat != []
    decreases |s|
  {
    if |s| < |pat| then s
    else if s[..|pat|] == pat then rep + ReplaceAll(s[|pat|..], pat, rep)
    else [s[0]] + ReplaceAll(s[1..], pat, rep)
  }

  /** Replacing never invents characters: each character of the result comes
      from the subject or from the replacement. */
  lemma {:induction false} ReplaceAllChars(s: string, pat: string, rep: string, c: char)
    requires pat != []
    requires c in ReplaceAll(s, pat, rep)
    ensures c in s || c in rep
    decreases |s|
  {
    if |s| < |pat| {
    } else if s[..|pat|] == pat {
      if c !in rep {
        ReplaceAllChars(s[|pat|..], pat, rep, c);
      }
    } else {
      if c != s[0] {
        ReplaceAllChars(s[1..], pat, rep, c);
      }
    }
  }

  /** Replacing a single character by text that does not contain it leaves no
      occurrence of that character. */
  lemma {:induction false} ReplaceAllRemoves(s: string, c: char, rep: string)
    requires c !in rep
    ensures c !in ReplaceAll(s, [c], rep)
    decreases |s|
  {
    if |s| >= 1 {
      ReplaceAllRemoves(s[1..], c, rep);
    }
  }

  /** A pattern that cannot occur (one of its characters is absent) leaves the
      subject unchanged. */
  lemma {:induction false} ReplaceAllUnchanged(s: string, pat: string, rep: string, k: nat)
    requires k < |pat| && pat[k] !in s
    ensures ReplaceAll(s, pat, rep) == s
    decreases |s|
  {
    if |s| >= |pat| {
      assert s[..|pat|][k] == s[k];
      ReplaceAllUnchanged(s[1..], pat, rep, k);
    }
  }

  /** Replacing a single character by a single character works position by
      position and keeps the length. */
  lemma {:induction false} ReplaceCharPointwise(s: string, c: char, d: char)
    ensures |ReplaceAll(s, [c], [d])| == |s|
    ensures forall i :: 0 <= i < |s| ==>
      ReplaceAll(s, [c], [d])[i] == (if s[i] == c then d else s[i])
    decreases |s|
  {
    if |s| >= 1 {
      ReplaceCharPointwise(s[1..], c, d);
      assert s[..1] == [s[0]];
    }
  }

  /** A single-character pattern cannot straddle a concatenation. */
  lemma {:induction false} ReplaceAllConcat(a: string, b: string, c: char, rep: string)
    ensures ReplaceAll(a + b, [c], rep) == ReplaceAll(a, [c], rep) + ReplaceAll(b, [c], rep)
    decreases |a|
  {
    if a == [] {
      assert a + b == b;
    } else {
      assert (a + b)[1..] == a[1..] + b;
      assert (a + b)[..1] == [a[0]] && a[..1] == [a[0]];
      ReplaceAllConcat(a[1..], b, c, rep);
    }
  }

  /** Replacing keeps every character that is not part of the pattern. */
  lemma {:induction false} ReplaceAllKeeps(s: string, pat: string, rep: string, x: char)
    requires pat != [] && x in s && x !in pat
    ensures x in ReplaceAll(s, pat, rep)
    decreases |s|
  {
    if |s| < |pat| {
    } else if s[..|pat|] == pat {
      var k :| 0 <= k < |s| && s[k] == x;
      assert s[|pat|..][k - |pat|] == x;
      ReplaceAllKeeps(s[|pat|..], pat, rep, x);
    } else if s[0] != x {
      ReplaceAllKeeps(s[1..], pat, rep, x);
    }
  }

  /** A pattern that occurs nowhere leaves the subject unchanged. */
  lemma {:induction false} ReplaceAllAbsent(s: string, pat: string, rep: string)
    requires pat != []
    requires forall i: nat :: !OccursAt(s, pat, i)
    ensures ReplaceAll(s, pat, rep) == s
    decreases |s|
  {
    if |s| >= |pat| {
      assert !OccursAt(s, pat, 0);
      OccursShift(s, pat);
      forall i: nat
        ensures !OccursAt(s[1..], pat, i)
      {
        assert !OccursAt(s, pat, i + 1);
      }
      ReplaceAllAbsent(s[1..], pat, rep);
      assert s == [s[0]] + s[1..];
    }
  }

  /** When no occurrence of the pattern starts inside `a`, replacing in
      `a + t` keeps `a` and replaces in `t` alone. */
  lemma {:induction false} ReplaceAllPrefixFree(a: string, t: string, pat: string, rep: string)
    requires pat != []
    requires forall i: nat :: i < |a| ==> !OccursAt(a + t, pat, i)
    ensures ReplaceAll(a + t, pat, rep) == a + ReplaceAll(t, pat, rep)
    decreases |a|
  {
    var s := a + t;
    if a == [] {
      assert s == t;
    } else if |s| >= |pat| {
      assert !OccursAt(s, pat, 0);
      PrefixFreeTail(a, t, pat);
      assert s[1..] == a[1..] + t;
      ReplaceAllPrefixFree(a[1..], t, pat, rep);
      assert s[..|pat|] != pat;
      assert ReplaceAll(s, pat, rep) == [s[0]] + ReplaceAll(s[1..], pat, rep);
      assert s[0] == a[0] && a == [a[0]] + a[1..];
    }
  }

  lemma PrefixFreeTail(a: string, t: string, pat: string)
    requires a != []
    requires forall i: nat :: i < |a| ==> !OccursAt(a + t, pat, i)
    ensures forall i: nat :: i < |a[1..]| ==> !OccursAt(a[1..] + t, pat, i)
  {
    var s := a + t;
    OccursShift(s, pat);
    assert s[1..] == a[1..] + t;
    forall i: nat | i < |a[1..]|
      ensures !OccursAt(a[1..] + t, pat, i)
    {
      assert !OccursAt(s, pat, i + 1);
    }
  }

  /** An occurrence at the very start is replaced and the scan goes on after it. */
  lemma ReplaceAllLeading(pat: string, t: string, rep: string)
    requires pat != []
    ensures ReplaceAll(pat + t, pat, rep) == rep + ReplaceAll(t, pat, rep)
  {
    assert (pat + t)[..|pat|] == pat && (pat + t)[|pat|..] == t;
  }

  /** An occurrence after a part that lacks the pattern's first character is
      the first one replaced; the part before it is kept. */
  lemma ReplaceAllAfter(a: string, pat: string, b: string, rep: string)
    requires pat != [] && pat[0] !in a
    ensures ReplaceAll(a + pat + b, pat, rep) == a + rep + ReplaceAll(b, pat, rep)
  {
    var pb := pat + b;
    var s := a + pb;
    assert a + pat + b == s;
    forall i: nat | i < |a|
      ensures !OccursAt(s, pat, i)
    {
      if i + |pat| <= |s| {
        assert s[i..i + |pat|][0] == s[i] == a[i];
      }
    }
    ReplaceAllPrefixFree(a, pb, pat, rep);
    ReplaceAllLeading(pat, b, rep);
  }

  /** `s` with every `c` removed, in order: the reference for deleting one
      character. */
  function Delete(s: string, c: char): (r: string)
    ensures forall x :: x in r <==> x in s && x != c
  {
    if s == [] then []
    else if s[0] == c then Delete(s[1..], c)
    else [s[0]] + Delete(s[1..], c)
  }

  /** `s.replace(c, "")` is `Delete(s, c)`. */
  lemma {:induction false} ReplaceAllDeletes(s: string, c: char)
    ensures ReplaceAll(s, [c], []) == Delete(s, c)
    decreases |s|
  {
    if s != [] {
      assert s[..1] == [s[0]];
      ReplaceAllDeletes(s[1..], c);
    }
  }

  /** `s.split(p, 1)[0]`: the text before the first occurrence of `p`, or all
      of `s` when `p` does not occur. */
  function BeforeFirst(s: string, p: string): (r: string)
    requires p != []
    ensures |r| <= |s| && r == s[..|r|]
    ensures forall j :: 0 <= j < |r| ==> !OccursAt(s, p, j)
    ensures |r| < |s| ==> OccursAt(s, p, |r|)
    decreases |s|
  {
    if |s| < |p| then s
    else if s[..|p|] == p then []
    else
      var rest := BeforeFirst(s[1..], p);
      OccursShift(s, p);
      [s[0]] + rest
  }

  /** Occurrences in `s` past its first character are the occurrences in
      `s[1..]`, one position earlier. */
  lemma OccursShift(s: string, p: string)
    requires s != []
    ensures forall j {:trigger OccursAt(s, p, j)} :: 1 <= j ==> (OccursAt(s, p, j) <==> OccursAt(s[1..], p, j - 1))
  {
    forall j: nat | 1 <= j
      ensures OccursAt(s, p, j) <==> OccursAt(s[1..], p, j - 1)
    {
      if j + |p| <= |s| {
        var a := s[j..j + |p|];
        var b := s[1..][j - 1..j - 1 + |p|];
        forall k | 0 <= k < |p|
          ensures a[k] == b[k]
        {
        }
        assert a == b;
      }
    }
  }

  /** The first occurrence fixes the split: text before an occurrence at `n`
      with none earlier is exactly `s[..n]`. */
  lemma BeforeFirstAt(s: string, p: string, n: nat)
    requires p != [] && OccursAt(s, p, n)
    requires forall j :: 0 <= j < n ==> !OccursAt(s, p, j)
    ensures BeforeFirst(s, p) == s[..n]
  {
  }

  /** `s[:n]` for `n >= 0`. */
  function Take(s: string, n: nat): (r: string)
    ensures |r| == (if |s| < n then |s| else n) && r == s[..|r|]
  {
    if |s| < n then s else s[..n]
  }

  /** `s[-n:]` for `n > 0`. */
  function TakeLast(s: string, n: nat): (r: string)
    requires n > 0
    ensures |r| == (if |s| < n then |s| else n) && r == s[|s| - |r|..]
  {
    if |s| <= n then s else s[|s| - n..]
  }

  // ---------------------------------------------------------------------
  // Decimal rendering, `str(n)` for a Python int

  predicate IsDigit(c: char)
  {
    '0' <= c <= '9'
  }

  predicate AllDigits(s: string)
  {
    forall i :: 0 <= i < |s| ==> IsDigit(s[i])
  }

  function DigitValue(c: char): nat
    requires IsDigit(c)
  {
    (c - '0') as nat
  }

  function DigitChar(d: nat): (c: char)
    requires d < 10
    ensures IsDigit(c) && DigitValue(c) == d
  {
    ('0' as int + d) as char
  }

  /** The number a string of decimal digits denotes (most significant first). */
  function DecimalValue(s: string): nat
    requires AllDigits(s)
  {
    if s == [] then 0
    else DecimalValue(s[..|s| - 1]) * 10 + DigitValue(s[|s| - 1])
  }

  function Pow10(k: nat): (p: nat)
    ensures p >= 1
  {
    if k == 0 then 1 else 10 * Pow10(k - 1)
  }

  lemma {:induction false} Pow10Monotone(i: nat, j: nat)
    requires i <= j
    ensures Pow10(i) <= Pow10(j)
    decreases j
  {
    if i < j {
      Pow10Monotone(i, j - 1);
    }
  }

  /** `str(n)` for `n >= 0`: the shortest decimal numeral of `n`. It has a
      leading zero only for 0 itself, and its length is the number of decimal
      digits of `n`. */
  function NatToString(n: nat): (r: string)
    ensures |r| >= 1 && AllDigits(r)
    ensures DecimalValue(r) == n
    ensures r[0] == '0' ==> n == 0
    ensures n < Pow10(|r|)
    ensures |r| > 1 ==> Pow10(|r| - 1) <= n
    decreases n
  {
    if n < 10 then [DigitChar(n)]
    else
      var r := NatToString(n / 10) + [DigitChar(n % 10)];
      assert r[..|r| - 1] == NatToString(n / 10);
      r
  }

  /** A numeral of width `k` is exactly the numeral of a number with `k` digits. */
  lemma NatToStringWidth(n: nat, k: nat)
    requires 1 <= k
    requires (k == 1 || Pow10(k - 1) <= n) && n < Pow10(k)
    ensures |NatToString(n)| == k
  {
    var w := |NatToString(n)|;
    if w < k {
      Pow10Monotone(w, k - 1);
    } else if w > k {
      Pow10Monotone(k, w - 1);
    }
  }

  /** `'0' * k`. */
  function Zeros(k: nat): (z: string)
    ensures |z| == k && AllDigits(z)
    ensures forall i :: 0 <= i < k ==> z[i] == '0'
  {
    if k == 0 then [] else Zeros(k - 1) + ['0']
  }

  /** Leading zeros do not change the value of a numeral. */
  lemma {:induction false} LeadingZeros(k: nat, s: string)
    requires AllDigits(s)
    ensures AllDigits(Zeros(k) + s)
    ensures DecimalValue(Zeros(k) + s) == DecimalValue(s)
    decreases |s| + k
  {
    var z := Zeros(k) + s;
    if s == [] {
      assert z == Zeros(k);
      if k > 0 {
        assert z[..|z| - 1] == Zeros(k - 1);
        LeadingZeros(k - 1, []);
        assert Zeros(k - 1) + [] == Zeros(k - 1);
      }
    } else {
      assert z[..|z| - 1] == Zeros(k) + s[..|s| - 1];
      LeadingZeros(k, s[..|s| - 1]);
    }
  }

  /** `str(n)` for any Python int: a minus sign before the numeral of `|n|`. */
  function IntToString(n: int): (r: string)
    ensures |r| >= 1
    ensures forall i :: 0 <= i < |r| ==> IsDigit(r[i]) || r[i] == '-'
    ensures n >= 0 ==> r == NatToString(n)
    ensures n < 0 ==> r == "-" + NatToString(-n)
  {
    if n < 0 then "-" + NatToString(-n) else NatToString(n)
  }
}
