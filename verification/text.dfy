/** The string helpers the page applies before display: `capitalizeFirst`,
    the first-hyphen `replace('-', ' ')`, and the id label
    `id.toString().padStart(3, '0')`. Characters are treated as ASCII. */
module Text {

  function Max(a: int, b: int): int
  {
    if a < b then b else a
  }

  // ---------------------------------------------------------------------
  // capitalizeFirst
  // ---------------------------------------------------------------------

  predicate IsLowerAscii(c: char)
  {
    'a' <= c <= 'z'
  }

  predicate IsUpperAscii(c: char)
  {
    'A' <= c <= 'Z'
  }

  /** ASCII `toUpperCase` of one character: lower-case letters move to the
      upper-case block, every other character is kept. */
  function UpperAscii(c: char): (u: char)
    ensures IsLowerAscii(c) ==> IsUpperAscii(u) && u as int + 32 == c as int
    ensures !IsLowerAscii(c) ==> u == c
  {
    if IsLowerAscii(c) then (c as int - 32) as char else c
  }

  /** `str.charAt(0).toUpperCase() + str.slice(1)`. On the empty string
      `charAt(0)` is `""`, so the result is `""`. */
  function CapitalizeFirst(s: string): (r: string)
    ensures |r| == |s|
    ensures |s| > 0 ==> r[0] == UpperAscii(s[0]) && r[1..] == s[1..]
  {
    if |s| == 0 then "" else [UpperAscii(s[0])] + s[1..]
  }

  /** Capitalising twice is capitalising once. */
  lemma CapitalizeIdempotent(s: string)
    ensures CapitalizeFirst(CapitalizeFirst(s)) == CapitalizeFirst(s)
  {
  }

  /** A string is left unchanged exactly when it is empty or does not start
      with a lower-case letter. */
  lemma CapitalizeFixedPoint(s: string)
    ensures CapitalizeFirst(s) == s <==> (|s| == 0 || !IsLowerAscii(s[0]))
  {
  }

  // ---------------------------------------------------------------------
  // replace('-', ' ')
  // ---------------------------------------------------------------------

  /** `k` is the position of the first occurrence of `c` in `s`. */
  predicate FirstOccurrence(s: string, c: char, k: int)
  {
    0 <= k < |s| && s[k] == c && c !in s[..k]
  }

  /** `s.indexOf(c)`: the first position holding `c`, or -1 when there is none. */
  function IndexOf(s: string, c: char): (k: int)
    ensures -1 <= k < |s|
    ensures k == -1 <==> c !in s
    ensures k != -1 ==> FirstOccurrence(s, c, k)
  {
    if |s| == 0 then -1
    else if s[0] == c then 0
    else
      var k := IndexOf(s[1..], c);
      if k == -1 then -1
      else
        assert s[..k + 1] == [s[0]] + s[1..][..k];
        k + 1
  }

  /** The first occurrence is the one `IndexOf` finds. */
  lemma IndexOfFindsFirst(s: string, c: char, k: int)
    requires FirstOccurrence(s, c, k)
    ensures IndexOf(s, c) == k
  {
  }

  /** `s.replace(pat, rep)` with a one-character string pattern: JavaScript
      replaces only the first occurrence. */
  function ReplaceFirst(s: string, pat: char, rep: char): (r: string)
    ensures |r| == |s|
    ensures pat !in s ==> r == s
    ensures pat in s ==> r == s[IndexOf(s, pat) := rep]
  {
    var k := IndexOf(s, pat);
    if k == -1 then s
    else
      assert s[..k] + [rep] + s[k + 1..] == s[k := rep];
      s[..k] + [rep] + s[k + 1..]
  }

  /** Splitting at the first occurrence: whatever precedes it is kept, it is
      replaced, and whatever follows it is kept, further occurrences included. */
  lemma ReplaceFirstSplit(a: string, pat: char, rep: char, b: string)
    requires pat !in a
    ensures ReplaceFirst(a + [pat] + b, pat, rep) == a + [rep] + b
  {
    var s := a + [pat] + b;
    assert s[..|a|] == a;
    assert s[|a| + 1..] == b;
    IndexOfFindsFirst(s, pat, |a|);
  }

  /** At most one position changes. */
  lemma ReplaceFirstChangesAtMostOne(s: string, pat: char, rep: char, i: int, j: int)
    requires 0 <= i < j < |s|
    ensures ReplaceFirst(s, pat, rep)[i] == s[i] || ReplaceFirst(s, pat, rep)[j] == s[j]
  {
  }

  /** When the pattern occurs and differs from its replacement, exactly one
      occurrence of it is traded for one occurrence of the replacement. */
  lemma ReplaceFirstCounts(s: string, pat: char, rep: char)
    requires pat in s && pat != rep
    ensures multiset(ReplaceFirst(s, pat, rep))[pat] == multiset(s)[pat] - 1
    ensures multiset(ReplaceFirst(s, pat, rep))[rep] == multiset(s)[rep] + 1
  {
  }

  /** Only the first hyphen becomes a space. */
  lemma ReplaceOnlyFirstHyphen()
    ensures ReplaceFirst("x-y-z", '-', ' ') == "x y-z"
  {
  }

  // ---------------------------------------------------------------------
  // id.toString().padStart(3, '0')
  // ---------------------------------------------------------------------

  predicate IsDigit(c: char)
  {
    '0' <= c <= '9'
  }

  predicate AllDigits(s: string)
  {
    forall i :: 0 <= i < |s| ==> IsDigit(s[i])
  }

  function DigitValue(c: char): nat
    requires IsDigit(c)
  {
    c as int - '0' as int
  }

  function DigitChar(d: nat): (c: char)
    requires d < 10
    ensures IsDigit(c) && DigitValue(c) == d
  {
    ('0' as int + d) as char
  }

  function Pow10(k: nat): nat
  {
    if k == 0 then 1 else 10 * Pow10(k - 1)
  }

  /** The number a string of decimal digits denotes (leading zeros allowed). */
  function Value(s: string): nat
    requires AllDigits(s)
  {
    if |s| == 0 then 0 else 10 * Value(s[..|s| - 1]) + DigitValue(s[|s| - 1])
  }

  /** `n.toString()` for a non-negative integer: decimal digits, most
      significant first, with no leading zero except for `0` itself. */
  function NatToString(n: nat): (r: string)
    ensures 1 <= |r|
    ensures AllDigits(r)
    ensures n > 0 ==> r[0] != '0'
  {
    if n < 10 then [DigitChar(n)] else NatToString(n / 10) + [DigitChar(n % 10)]
  }

  /** `toString` and reading the digits back are inverse. */
  lemma {:induction false} NatToStringValue(n: nat)
    ensures Value(NatToString(n)) == n
  {
    if n >= 10 {
      var s := NatToString(n / 10);
      var r := s + [DigitChar(n % 10)];
      assert r[..|r| - 1] == s;
      NatToStringValue(n / 10);
    }
  }

  /** `toString` uses at most `k` digits exactly when the number is below 10^k. */
  lemma {:induction false} NatToStringLength(n: nat, k: nat)
    requires k >= 1
    ensures |NatToString(n)| <= k <==> n < Pow10(k)
  {
    if n >= 10 {
      if k == 1 {
        assert |NatToString(n)| >= 2;
      } else {
        NatToStringLength(n / 10, k - 1);
        assert n / 10 < Pow10(k - 1) <==> n < 10 * Pow10(k - 1);
      }
    } else {
      PowerAtLeastTen(k);
    }
  }

  lemma {:induction false} PowerAtLeastTen(k: nat)
    requires k >= 1
    ensures Pow10(k) >= 10
  {
    if k > 1 {
      PowerAtLeastTen(k - 1);
    }
  }

  /** `k` copies of `c`. */
  function Repeat(c: char, k: nat): (r: string)
    ensures |r| == k
    ensures forall i :: 0 <= i < k ==> r[i] == c
  {
    if k == 0 then "" else [c] + Repeat(c, k - 1)
  }

  /** `s.padStart(width, fill)` with a one-character fill: strings at least
      `width` long are returned as they are, shorter ones get `fill` in front
      until they are `width` long. */
  function PadStart(s: string, width: nat, fill: char): (r: string)
    ensures |r| == Max(width, |s|)
    ensures r[|r| - |s|..] == s
    ensures forall i :: 0 <= i < |r| - |s| ==> r[i] == fill
  {
    if width <= |s| then s else Repeat(fill, width - |s|) + s
  }

  /** A leading zero does not change the value of a digit string. */
  lemma {:induction false} ValueLeadingZero(s: string)
    requires AllDigits(s)
    ensures AllDigits(['0'] + s) && Value(['0'] + s) == Value(s)
    decreases |s|
  {
    if |s| > 0 {
      var t := ['0'] + s;
      assert t[..|t| - 1] == ['0'] + s[..|s| - 1];
      ValueLeadingZero(s[..|s| - 1]);
    }
  }

  /** Any number of leading zeros does not change the value. */
  lemma {:induction false} ValueLeadingZeros(k: nat, s: string)
    requires AllDigits(s)
    ensures AllDigits(Repeat('0', k) + s) && Value(Repeat('0', k) + s) == Value(s)
  {
    if k > 0 {
      var t := Repeat('0', k - 1) + s;
      ValueLeadingZeros(k - 1, s);
      assert Repeat('0', k) + s == ['0'] + t;
      ValueLeadingZero(t);
    } else {
      assert Repeat('0', k) + s == s;
    }
  }

  /** The `#001`-style label without its `#`: at least three characters, all
      digits, denoting the id itself. */
  function IdLabel(id: nat): (r: string)
    ensures |r| == Max(3, |NatToString(id)|)
    ensures AllDigits(r)
    ensures Value(r) == id
  {
    var digits := NatToString(id);
    NatToStringValue(id);
    if 3 <= |digits| then digits
    else
      ValueLeadingZeros(3 - |digits|, digits);
      PadStart(digits, 3, '0')
  }

  /** Ids below 1000 get exactly three characters; from 100 on the label is
      the plain decimal string. */
  lemma IdLabelThreeWide(id: nat)
    requires id < 1000
    ensures |IdLabel(id)| == 3
    ensures id >= 100 ==> IdLabel(id) == NatToString(id)
  {
    NatToStringLength(id, 3);
    if id >= 100 {
      NatToStringLength(id, 2);
    }
  }

  /** Different ids get different labels. */
  lemma IdLabelInjective(a: nat, b: nat)
    requires IdLabel(a) == IdLabel(b)
    ensures a == b
  {
  }

  lemma IdLabelExamples()
    ensures IdLabel(1) == "001"
    ensures IdLabel(25) == "025"
    ensures IdLabel(151) == "151"
  {
    assert NatToString(25) == "25";
    assert NatToString(151) == "151";
  }
}
