/** The element types of the crate: the `Zero` capability for `usize` and for the
    unsigned `Complex` value type, and the textual rendering of each. */
module Scalars {
  import opened Options
  import opened Decimal

  /** `usize`, without its upper bound (see README, "Left out"). */
  type Usize = nat

  /** A complex number with unsigned parts `real` and `img`; `real` is a reserved word
      in Dafny, so that part is called `re` here. */
  datatype Complex = Complex(re: nat, img: nat)

  /** The `+` that `usize` lends to matrix addition. */
  function UsizePlus(a: Usize, b: Usize): Usize {
    a + b
  }

  /** `Zero::zero()` for `usize`: the identity of its `+`. */
  function UsizeZero(): (z: Usize)
    ensures forall x :: UsizePlus(z, x) == x
  {
    0
  }

  /** `Zero::zero()` for `Complex`: both parts zero. */
  function ComplexZero(): (z: Complex)
    ensures z.re == 0 && z.img == 0
  {
    Complex(0, 0)
  }

  /** `Display` for `usize`: a non-empty run of decimal digits that reads back as `x`. */
  function ShowUsize(x: Usize): (s: string)
    ensures |s| > 0 && forall k :: 0 <= k < |s| ==> IsDigit(s[k])
    ensures ParseDecimal(s) == x
  {
    ParseDecimalDigits(x);
    DecimalDigits(x)
  }

  /** `Display` for `Complex`: `(real, img)`, both parts in decimal. */
  function ShowComplex(c: Complex): (s: string)
    ensures |s| == |DecimalDigits(c.re)| + |DecimalDigits(c.img)| + 4
    ensures s[0] == '(' && s[|s| - 1] == ')'
  {
    "(" + DecimalDigits(c.re) + ", " + DecimalDigits(c.img) + ")"
  }

  /** Reads back the text `ShowComplex` writes; the whole string must be consumed. */
  function ParseComplex(s: string): Option<Complex> {
    match ReadLiteral("(", s)
    case None => None
    case Some(s1) => ParseParts(s1)
  }

  function ParseParts(s: string): Option<Complex> {
    match ReadNumber(s)
    case None => None
    case Some((r, rest)) =>
      match ParseImaginary(rest)
      case None => None
      case Some(i) => Some(Complex(r, i))
  }

  function ParseImaginary(s: string): Option<nat> {
    match ReadLiteral(", ", s)
    case None => None
    case Some(s1) =>
      match ReadNumber(s1)
      case None => None
      case Some((i, rest)) => if rest == ")" then Some(i) else None
  }

  lemma ParseImaginaryFront(i: nat)
    ensures ParseImaginary(", " + (DecimalDigits(i) + ")")) == Some(i)
  {
    ReadLiteralFront(", ", DecimalDigits(i) + ")");
    ReadNumberDigits(i, ")");
  }

  lemma ParsePartsFront(re: nat, img: nat)
    ensures ParseParts(DecimalDigits(re) + (", " + (DecimalDigits(img) + ")"))) == Some(Complex(re, img))
  {
    var tail := ", " + (DecimalDigits(img) + ")");
    ReadNumberDigits(re, tail);
    ParseImaginaryFront(img);
  }

  /** Rendering a complex value loses nothing: it can be read back exactly. */
  lemma ShowComplexRoundTrip(c: Complex)
    ensures ParseComplex(ShowComplex(c)) == Some(c)
  {
    var s1 := DecimalDigits(c.re) + (", " + (DecimalDigits(c.img) + ")"));
    assert ShowComplex(c) == "(" + s1;
    ReadLiteralFront("(", s1);
    ParsePartsFront(c.re, c.img);
  }

  /** The zero of `usize` is the identity of its `+`. */
  lemma UsizeZeroIsIdentity(x: Usize)
    ensures UsizePlus(UsizeZero(), x) == x
  {
  }

  /** The zero of `Complex` renders as `(0, 0)`, that of `usize` as `0`. */
  lemma ShowComplexZero()
    ensures ShowComplex(ComplexZero()) == "(0, 0)"
    ensures ShowUsize(UsizeZero()) == "0"
  {
    assert DecimalDigits(0) == "0";
  }

  /** Neither element type renders with a line break. */
  lemma ShowHasNoLineBreak(x: Usize, c: Complex)
    ensures '\n' !in ShowUsize(x)
    ensures '\n' !in ShowComplex(c)
  {
    OccurrencesInDigits(x, '\n');
    OccurrencesInDigits(c.re, '\n');
    OccurrencesInDigits(c.img, '\n');
  }
}
