/** The Python string built-ins that the board's text rendering relies on:
    `str()` of a non-negative integer, `format(s, '^w')` (centring in a
    field of width w, never truncating) and `sep.join(xs)`. */
module Strings {

  function Max(a: int, b: int): int { if a < b then b else a }

  /** A string of n blanks. */
  function Blanks(n: nat): (r: string)
    ensures |r| == n
    ensures forall i :: 0 <= i < n ==> r[i] == ' '
  {
    if n == 0 then "" else Blanks(n - 1) + " "
  }

  predicate IsDigit(c: char) { '0' <= c <= '9' }

  predicate AllDigits(s: string) { forall i :: 0 <= i < |s| ==> IsDigit(s[i]) }

  function DigitChar(d: nat): (c: char)
    requires d < 10
    ensures IsDigit(c) && c as int - '0' as int == d
  {
    ('0' as int + d) as char
  }

  /** The value of a string of decimal digits, most significant first. */
  function DigitsValue(s: string): nat
    requires AllDigits(s)
  {
    if s == [] then 0 else DigitsValue(s[..|s| - 1]) * 10 + (s[|s| - 1] as int - '0' as int)
  }

  /** `str(n)` for a non-negative integer: a non-empty string of decimal
      digits without a leading zero whose value is n. */
  function Decimal(n: nat): (r: string)
    ensures |r| >= 1 && AllDigits(r)
    ensures |r| > 1 ==> r[0] != '0'
    ensures DigitsValue(r) == n
  {
    if n < 10 then [DigitChar(n)]
    else
      var front := Decimal(n / 10);
      assert (front + [DigitChar(n % 10)])[..|front|] == front;
      front + [DigitChar(n % 10)]
  }

  function Pow10(k: nat): (r: nat)
    ensures r >= 1
    ensures k >= 1 ==> r >= 10
  {
    if k == 0 then 1 else 10 * Pow10(k - 1)
  }

  /** `str(n)` has at most k digits exactly when n < 10^k. */
  lemma {:induction false} DecimalLength(n: nat, k: nat)
    requires k >= 1
    ensures |Decimal(n)| <= k <==> n < Pow10(k)
  {
    if n >= 10 && k > 1 {
      DecimalLength(n / 10, k - 1);
      assert n / 10 < Pow10(k - 1) <==> n < Pow10(k);
    }
  }

  /** `format(s, '^w')`: s padded with blanks to width w when it is
      shorter, unchanged otherwise. Width 0 stands for the empty format
      spec, which also leaves s unchanged. */
  function Center(s: string, w: nat): (r: string)
    ensures |r| == Max(|s|, w)
  {
    if |s| >= w then s
    else
      var pad := w - |s|;
      Blanks(pad / 2) + s + Blanks(pad - pad / 2)
  }

  /** The centred string is never truncated: s stands at offset
      floor(padding / 2), everything before and after it is blank, so the
      right pad takes the odd blank. */
  lemma CenterShape(s: string, w: nat)
    ensures var r := Center(s, w);
            var left := (|r| - |s|) / 2;
            && r[left..left + |s|] == s
            && (forall i :: 0 <= i < left ==> r[i] == ' ')
            && (forall i :: left + |s| <= i < |r| ==> r[i] == ' ')
  {
    if |s| < w {
      var pad := w - |s|;
      var r := Center(s, w);
      assert r == Blanks(pad / 2) + s + Blanks(pad - pad / 2);
      assert r[pad / 2..pad / 2 + |s|] == s;
    }
  }

  /** A character other than a blank occurs in a centred string only if it
      occurs in the string being centred. */
  lemma CenterKeepsOut(s: string, w: nat, c: char)
    requires c != ' ' && c !in s
    ensures c !in Center(s, w)
  {
    var r := Center(s, w);
    var left := (|r| - |s|) / 2;
    CenterShape(s, w);
    forall i | 0 <= i < |r| ensures r[i] != c {
      if left <= i < left + |s| {
        assert r[i] == r[left..left + |s|][i - left] == s[i - left];
      }
    }
  }

  /** Number of occurrences of c in s. */
  function Occurrences(c: char, s: string): (k: nat)
    ensures k == 0 <==> c !in s
  {
    if s == [] then 0 else Occurrences(c, s[..|s| - 1]) + (if s[|s| - 1] == c then 1 else 0)
  }

  lemma {:induction false} OccurrencesConcat(c: char, s: string, t: string)
    ensures Occurrences(c, s + t) == Occurrences(c, s) + Occurrences(c, t)
  {
    if t != [] {
      OccurrencesConcat(c, s, t[..|t| - 1]);
      assert (s + t)[..|s + t| - 1] == s + t[..|t| - 1];
    } else {
      assert s + t == s;
    }
  }

  /** The strings of xs one after another (`s += x` for each x in turn):
      empty for no strings, otherwise at least as long as the first and
      the last of them. */
  function Concat(xs: seq<string>): (r: string)
    ensures xs == [] ==> r == ""
    ensures xs != [] ==> |xs[0]| <= |r| && |xs[|xs| - 1]| <= |r|
  {
    if xs == [] then "" else Concat(xs[..|xs| - 1]) + xs[|xs| - 1]
  }

  /** A concatenation starts with the first string and ends with the last. */
  lemma {:induction false} ConcatEnds(xs: seq<string>)
    requires xs != []
    ensures xs[0] <= Concat(xs)
    ensures Concat(xs)[|Concat(xs)| - |xs[|xs| - 1]|..] == xs[|xs| - 1]
  {
    if |xs| > 1 {
      ConcatEnds(xs[..|xs| - 1]);
    }
  }

  /** When c occurs exactly once in each of the strings, it occurs once per
      string in their concatenation. */
  lemma {:induction false} ConcatOccurrences(c: char, xs: seq<string>)
    requires forall i :: 0 <= i < |xs| ==> Occurrences(c, xs[i]) == 1
    ensures Occurrences(c, Concat(xs)) == |xs|
  {
    if xs != [] {
      ConcatOccurrences(c, xs[..|xs| - 1]);
      OccurrencesConcat(c, Concat(xs[..|xs| - 1]), xs[|xs| - 1]);
    }
  }

  /** A prefix of a prefix of r is a prefix of r. */
  lemma PrefixOfPrefix(p: string, q: string, r: string)
    requires q <= r && p <= q
    ensures p <= r
  {
  }

  /** A suffix of a suffix of r is a suffix of r. */
  lemma SuffixOfSuffix(p: string, q: string, r: string)
    requires |q| <= |r| && r[|r| - |q|..] == q
    requires |p| <= |q| && q[|q| - |p|..] == p
    ensures |p| <= |r| && r[|r| - |p|..] == p
  {
    assert r[|r| - |p|..] == r[|r| - |q|..][|q| - |p|..];
  }

  /** `sep.join(xs)`: empty for no entries, the entry itself for one. */
  function Join(sep: string, xs: seq<string>): (r: string)
    ensures |xs| == 0 ==> r == ""
    ensures |xs| == 1 ==> r == xs[0]
  {
    if |xs| == 0 then ""
    else if |xs| == 1 then xs[0]
    else Join(sep, xs[..|xs| - 1]) + sep + xs[|xs| - 1]
  }

  /** A join of several entries starts with the first entry and a
      separator, and ends with a separator and the last entry. */
  lemma {:induction false} JoinEnds(sep: string, xs: seq<string>)
    requires |xs| >= 2
    ensures xs[0] + sep <= Join(sep, xs)
    ensures |sep + xs[|xs| - 1]| <= |Join(sep, xs)|
    ensures Join(sep, xs)[|Join(sep, xs)| - |sep + xs[|xs| - 1]|..] == sep + xs[|xs| - 1]
  {
    if |xs| > 2 {
      JoinEnds(sep, xs[..|xs| - 1]);
    }
    var r := Join(sep, xs);
    assert r == Join(sep, xs[..|xs| - 1]) + (sep + xs[|xs| - 1]);
  }

  /** A character that occurs neither in the separator nor in any of the
      joined strings does not occur in the result. */
  lemma {:induction false} JoinKeepsOut(sep: string, xs: seq<string>, c: char)
    requires c !in sep
    requires forall i :: 0 <= i < |xs| ==> c !in xs[i]
    ensures c !in Join(sep, xs)
  {
    if |xs| > 1 {
      JoinKeepsOut(sep, xs[..|xs| - 1], c);
    }
  }

  /** The length of a join: the entries' lengths plus one separator between
      each pair of neighbours. */
  lemma {:induction false} JoinLength(sep: string, xs: seq<string>, w: nat)
    requires |xs| >= 1
    requires forall i :: 0 <= i < |xs| ==> |xs[i]| == w
    ensures |Join(sep, xs)| == |xs| * w + (|xs| - 1) * |sep|
  {
    if |xs| > 1 {
      JoinLength(sep, xs[..|xs| - 1], w);
    }
  }
}
