/** Decimal text for unsigned integers, and the small scanners that read it back.
    The element and header rendering of the matrix writes numbers in decimal; the
    readers here are the inverse used to state that nothing is lost in rendering. */
module Decimal {
  import opened Options

  predicate IsDigit(c: char) {
    '0' <= c <= '9'
  }

  function DigitChar(d: nat): (c: char)
    requires d < 10
    ensures IsDigit(c)
  {
    (48 + d) as char
  }

  function DigitValue(c: char): nat
    requires IsDigit(c)
  {
    c as nat - 48
  }

  /** Decimal rendering of x, most significant digit first, no leading zeros. */
  function DecimalDigits(x: nat): (s: string)
    ensures |s| > 0
    ensures forall k :: 0 <= k < |s| ==> IsDigit(s[k])
    decreases x
  {
    if x < 10 then [DigitChar(x)] else DecimalDigits(x / 10) + [DigitChar(x % 10)]
  }

  /** Value of a string of decimal digits, read most significant digit first. */
  function ParseDecimal(s: string): nat
    requires forall k :: 0 <= k < |s| ==> IsDigit(s[k])
    decreases |s|
  {
    if s == [] then 0 else 10 * ParseDecimal(s[..|s| - 1]) + DigitValue(s[|s| - 1])
  }

  lemma {:induction false} ParseDecimalDigits(x: nat)
    ensures ParseDecimal(DecimalDigits(x)) == x
    decreases x
  {
    var s := DecimalDigits(x);
    if x >= 10 {
      ParseDecimalDigits(x / 10);
      assert s[..|s| - 1] == DecimalDigits(x / 10);
    }
  }

  /** The longest prefix of s made of decimal digits. */
  function DigitPrefix(s: string): (d: string)
    ensures |d| <= |s| && d == s[..|d|]
    ensures forall k :: 0 <= k < |d| ==> IsDigit(d[k])
    ensures |d| < |s| ==> !IsDigit(s[|d|])
    decreases |s|
  {
    if s == [] || !IsDigit(s[0]) then [] else [s[0]] + DigitPrefix(s[1..])
  }

  /** Reads a non-empty run of digits from the front of s; returns its value and the rest. */
  function ReadNumber(s: string): (r: Option<(nat, string)>)
    ensures r.Some? ==> |r.value.1| < |s| && s == s[..|s| - |r.value.1|] + r.value.1
  {
    var d := DigitPrefix(s);
    if d == [] then None else Some((ParseDecimal(d), s[|d|..]))
  }

  /** Consumes the literal p from the front of s. */
  function ReadLiteral(p: string, s: string): (r: Option<string>)
    ensures r.Some? <==> |p| <= |s| && s[..|p|] == p
    ensures r.Some? ==> s == p + r.value
  {
    if |p| <= |s| && s[..|p|] == p then Some(s[|p|..]) else None
  }

  lemma ReadLiteralFront(p: string, t: string)
    ensures ReadLiteral(p, p + t) == Some(t)
  {
    assert (p + t)[..|p|] == p;
    assert (p + t)[|p|..] == t;
  }

  lemma {:induction false} DigitPrefixStops(d: string, t: string)
    requires forall k :: 0 <= k < |d| ==> IsDigit(d[k])
    requires t == [] || !IsDigit(t[0])
    ensures DigitPrefix(d + t) == d
    decreases |d|
  {
    if d != [] {
      assert (d + t)[0] == d[0];
      assert (d + t)[1..] == d[1..] + t;
      DigitPrefixStops(d[1..], t);
      assert [d[0]] + d[1..] == d;
    } else {
      assert d + t == t;
    }
  }

  /** Reading back a rendered number recovers it, as long as a non-digit follows. */
  lemma ReadNumberDigits(x: nat, t: string)
    requires t == [] || !IsDigit(t[0])
    ensures ReadNumber(DecimalDigits(x) + t) == Some((x, t))
  {
    var d := DecimalDigits(x);
    DigitPrefixStops(d, t);
    ParseDecimalDigits(x);
    assert (d + t)[|d|..] == t;
  }

  /** Number of occurrences of c in s. */
  function Occurrences(s: string, c: char): nat
    decreases |s|
  {
    if s == [] then 0 else Occurrences(s[..|s| - 1], c) + (if s[|s| - 1] == c then 1 else 0)
  }

  lemma {:induction false} OccurrencesAppend(a: string, b: string, c: char)
    ensures Occurrences(a + b, c) == Occurrences(a, c) + Occurrences(b, c)
    decreases |b|
  {
    if b == [] {
      assert a + b == a;
    } else {
      var b' := b[..|b| - 1];
      assert (a + b)[..|a + b| - 1] == a + b';
      OccurrencesAppend(a, b', c);
    }
  }

  /** Appending a string with one occurrence of c adds one to the count. */
  lemma CountStep(a: string, b: string, c: char, k: nat)
    requires Occurrences(a, c) == k && Occurrences(b, c) == 1
    ensures Occurrences(a + b, c) == k + 1
  {
    OccurrencesAppend(a, b, c);
  }

  /** A string without c has no occurrence of it. */
  lemma {:induction false} OccurrencesAbsent(s: string, c: char)
    requires c !in s
    ensures Occurrences(s, c) == 0
    decreases |s|
  {
    if s != [] {
      OccurrencesAbsent(s[..|s| - 1], c);
    }
  }

  /** Decimal text contains no character other than digits. */
  lemma OccurrencesInDigits(x: nat, c: char)
    requires !IsDigit(c)
    ensures Occurrences(DecimalDigits(x), c) == 0
  {
    OccurrencesAbsent(DecimalDigits(x), c);
  }
}
