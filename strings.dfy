/**
  The Python string operations the upload pipeline relies on, on `seq<char>`:
  `endswith`, `replace`, `', '.join`, decimal formatting of integers, and the
  code-point order in which pandas sorts group keys.
 */
module Strings {
  import opened Seqs

  /** `s.endswith(suffix)`. */
  predicate EndsWith(s: string, suffix: string)
  {
    |suffix| <= |s| && s[|s| - |suffix|..] == suffix
  }

  /** No non-empty proper prefix of `p` is also a suffix of `p`: two occurrences of `p` never overlap. */
  predicate Unbordered(p: string)
  {
    forall b :: 0 < b < |p| ==> p[..b] != p[|p| - b..]
  }

  /** `s.replace(pat, rep)`: every non-overlapping occurrence of `pat`, found scanning left to right, is replaced. */
  function ReplaceAll(s: string, pat: string, rep: string): string
    requires |pat| > 0
    decreases |s|
  {
    if |s| < |pat| then s
    else if s[..|pat|] == pat then rep + ReplaceAll(s[|pat|..], pat, rep)
    else [s[0]] + ReplaceAll(s[1..], pat, rep)
  }

  /**
    When the last occurrence of an unbordered `pat` ends the string, the scan
    replaces it too, so the result ends with `rep`; and when `rep` is at least as
    long as `pat` the result grows by at least the difference.
   */
  lemma {:induction false} ReplaceAllAtEnd(s: string, pat: string, rep: string)
    requires |pat| > 0 && Unbordered(pat) && EndsWith(s, pat)
    ensures EndsWith(ReplaceAll(s, pat, rep), rep)
    ensures |rep| >= |pat| ==> |ReplaceAll(s, pat, rep)| >= |s| + |rep| - |pat|
    decreases |s|
  {
    var k := |pat|;
    if s[..k] == pat {
      if |s| == k {
        assert ReplaceAll(s[k..], pat, rep) == [];
        assert ReplaceAll(s, pat, rep) == rep;
      } else if |s| < 2 * k {
        OverlapIsBorder(s, pat);
        assert false;
      } else {
        var t := s[k..];
        assert t[|t| - k..] == s[|s| - k..];
        ReplaceAllAtEnd(t, pat, rep);
        var r := ReplaceAll(t, pat, rep);
        assert ReplaceAll(s, pat, rep) == rep + r;
        assert (rep + r)[|rep + r| - |rep|..] == r[|r| - |rep|..];
      }
    } else {
      assert |s| > k;
      var t := s[1..];
      assert t[|t| - k..] == s[|s| - k..];
      ReplaceAllAtEnd(t, pat, rep);
      var r := ReplaceAll(t, pat, rep);
      assert ReplaceAll(s, pat, rep) == [s[0]] + r;
      assert ([s[0]] + r)[|[s[0]] + r| - |rep|..] == r[|r| - |rep|..];
    }
  }

  /** Two occurrences of `pat` that overlap, at the start and at the end of `s`, make their overlap a border of `pat`. */
  lemma OverlapIsBorder(s: string, pat: string)
    requires |pat| < |s| < 2 * |pat|
    requires s[..|pat|] == pat && EndsWith(s, pat)
    ensures pat[..2 * |pat| - |s|] == pat[|s| - |pat|..]
  {
    var k, d := |pat|, |s| - |pat|;
    forall i | 0 <= i < k - d ensures pat[..k - d][i] == pat[d..][i] {
      assert pat[i] == s[d + i];
      assert pat[d + i] == s[d + i];
    }
  }

  /** `sep.join(items)`. */
  function Join(items: seq<string>, sep: string): string
  {
    if |items| == 0 then ""
    else if |items| == 1 then items[0]
    else items[0] + sep + Join(items[1..], sep)
  }

  /** Splits a list written by `Join(items, ", ")` back into its items: cut at each comma and skip the blank after it. */
  function SplitList(s: string): seq<string>
    decreases |s|
  {
    var i := IndexOf(s, ',');
    if i == |s| then [s]
    else [s[..i]] + SplitList(s[if i + 2 <= |s| then i + 2 else |s|..])
  }

  /** Joining items that contain no comma with `", "` and splitting again gives the items back. */
  lemma {:induction false} SplitJoin(items: seq<string>)
    requires |items| > 0
    requires forall k :: 0 <= k < |items| ==> ',' !in items[k]
    ensures SplitList(Join(items, ", ")) == items
  {
    var s := Join(items, ", ");
    if |items| == 1 {
      assert IndexOf(s, ',') == |s|;
    } else {
      var rest := Join(items[1..], ", ");
      var head := items[0];
      assert s == head + ", " + rest;
      var i := IndexOf(s, ',');
      assert s[|head|] == ',';
      assert i == |head|;
      assert s[..i] == head;
      assert s[i + 2..] == rest;
      SplitJoin(items[1..]);
      assert [head] + items[1..] == items;
    }
  }

  /** Every item of a non-empty list appears in the joined text, so the text is never shorter than the first item. */
  lemma JoinLength(items: seq<string>, sep: string)
    requires |items| > 0
    ensures |Join(items, sep)| >= |items[0]|
  {
  }

  predicate IsDigit(c: char)
  {
    '0' <= c <= '9'
  }

  predicate AllDigits(s: string)
  {
    forall k :: 0 <= k < |s| ==> IsDigit(s[k])
  }

  function DigitChar(d: nat): (c: char)
    requires d < 10
    ensures IsDigit(c) && c as int - '0' as int == d
  {
    ('0' as int + d) as char
  }

  function DigitValue(c: char): nat
  {
    if IsDigit(c) then c as int - '0' as int else 0
  }

  /** `str(n)` for a non-negative integer: decimal digits, most significant first, without leading zeros. */
  function NatStr(n: nat): (s: string)
    ensures |s| >= 1 && AllDigits(s)
    ensures |s| == 1 <==> n < 10
    ensures s[0] == '0' ==> n == 0
    decreases n
  {
    if n < 10 then [DigitChar(n)] else NatStr(n / 10) + [DigitChar(n % 10)]
  }

  /** Reads a string of decimal digits as a number (the inverse of `NatStr`). */
  function ParseNat(s: string): nat
    decreases |s|
  {
    if |s| == 0 then 0 else ParseNat(s[..|s| - 1]) * 10 + DigitValue(s[|s| - 1])
  }

  lemma {:induction false} ParseNatStr(n: nat)
    ensures ParseNat(NatStr(n)) == n
    decreases n
  {
    var s := NatStr(n);
    if n < 10 {
      assert s[..|s| - 1] == [];
    } else {
      ParseNatStr(n / 10);
      assert s[..|s| - 1] == NatStr(n / 10);
      assert s[|s| - 1] == DigitChar(n % 10);
    }
  }

  /** Python's `<` on `str`: lexicographic by code point, a proper prefix coming first. */
  predicate Less(a: string, b: string)
    decreases |a|
  {
    if |a| == 0 then |b| > 0
    else if |b| == 0 then false
    else a[0] < b[0] || (a[0] == b[0] && Less(a[1..], b[1..]))
  }

  lemma {:induction false} LessIrreflexive(a: string)
    ensures !Less(a, a)
    decreases |a|
  {
    if |a| > 0 { LessIrreflexive(a[1..]); }
  }

  lemma {:induction false} LessTransitive(a: string, b: string, c: string)
    requires Less(a, b) && Less(b, c)
    ensures Less(a, c)
    decreases |a|
  {
    if |a| > 0 && a[0] == b[0] && b[0] == c[0] {
      LessTransitive(a[1..], b[1..], c[1..]);
    }
  }

  lemma {:induction false} LessTotal(a: string, b: string)
    requires a != b
    ensures Less(a, b) || Less(b, a)
    decreases |a|
  {
    if |a| > 0 && |b| > 0 && a[0] == b[0] {
      assert a == [a[0]] + a[1..] && b == [b[0]] + b[1..];
      LessTotal(a[1..], b[1..]);
    }
  }

  lemma LessAsymmetric(a: string, b: string)
    requires Less(a, b)
    ensures !Less(b, a)
  {
    if Less(b, a) {
      LessTransitive(a, b, a);
      LessIrreflexive(a);
    }
  }
}
