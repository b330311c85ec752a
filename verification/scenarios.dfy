/** The concrete situations the crate's unit tests set up, stated as lemmas. */
module Scenarios {
  import opened Decimal
  import opened Scalars
  import opened Matrices

  /** `create_usize`: a 5 by 6 zero matrix of `usize` renders as its header and five
      lines of six `0 ` cells. */
  lemma CreateUsize()
    ensures Rendered(NewZeros(5, 6, UsizeZero()), ShowUsize)
         == "n: 5, m: 6\ndata:\n" + Repeat(Repeat("0 ", 6) + "\n", 5)
  {
    ShowComplexZero();
    RenderedZeros(5, 6, UsizeZero(), ShowUsize);
    assert DecimalDigits(5) == "5" && DecimalDigits(6) == "6";
    assert Header(5, 6) == "n: 5, m: 6\ndata:\n";
    assert ShowUsize(UsizeZero()) + " " == "0 ";
  }

  /** `create_complex`: a 7 by 8 zero matrix of `Complex` renders every cell as
      `(0, 0)`. */
  lemma CreateComplex()
    ensures Rendered(NewZeros(7, 8, ComplexZero()), ShowComplex)
         == "n: 7, m: 8\ndata:\n" + Repeat(Repeat("(0, 0) ", 8) + "\n", 7)
  {
    ShowComplexZero();
    RenderedZeros(7, 8, ComplexZero(), ShowComplex);
    assert DecimalDigits(7) == "7" && DecimalDigits(8) == "8";
    assert Header(7, 8) == "n: 7, m: 8\ndata:\n";
    assert ShowComplex(ComplexZero()) + " " == "(0, 0) ";
  }

  /** A 0 by 0 zero matrix renders as the header alone. */
  lemma CreateEmpty<T>(zero: T, show: T -> string)
    ensures Rendered(NewZeros(0, 0, zero), show) == "n: 0, m: 0\ndata:\n"
  {
    RenderedNoRows(NewZeros(0, 0, zero), show);
    assert DecimalDigits(0) == "0";
  }

  /** `add`: with `m1[5][2] = 66` and `m2[5][2] = 21` in two 6 by 6 zero matrices,
      `m1 + m2` holds 21 at (5, 2) and 0 everywhere else; the 66 of `m1` is lost,
      so the cell is not the sum 87. */
  lemma AddTest()
    ensures var m1 := SetCell(NewZeros(6, 6, UsizeZero()), 5, 2, 66);
            var m2 := SetCell(NewZeros(6, 6, UsizeZero()), 5, 2, 21);
            var r := AddResult(m1, m2, UsizeZero(), UsizePlus);
            Valid(r) && r.n == 6 && r.m == 6 &&
            r.data[5][2] == 21 && r.data[5][2] != UsizePlus(m1.data[5][2], m2.data[5][2]) &&
            forall i, j :: 0 <= i < 6 && 0 <= j < 6 && (i, j) != (5, 2) ==> r.data[i][j] == 0
  {
    var z := NewZeros(6, 6, UsizeZero());
    var m1 := SetCell(z, 5, 2, 66);
    var m2 := SetCell(z, 5, 2, 21);
    var r := AddResult(m1, m2, UsizeZero(), UsizePlus);
    AddCopiesOperand(m1, m2, UsizeZero(), UsizePlus);
    assert r == m2;
  }

  /** Any matrix of `usize` or of `Complex` that can be rendered renders as the
      two header lines and one line per row. */
  lemma RenderedLinesOfScalars(a: Matrix<Usize>, b: Matrix<Complex>)
    requires Covers(a, a.n, a.m) && Covers(b, b.n, b.m)
    ensures Occurrences(Rendered(a, ShowUsize), '\n') == a.n + 2
    ensures Occurrences(Rendered(b, ShowComplex), '\n') == b.n + 2
  {
    forall x: Usize ensures '\n' !in ShowUsize(x) {
      ShowHasNoLineBreak(x, ComplexZero());
    }
    forall c: Complex ensures '\n' !in ShowComplex(c) {
      ShowHasNoLineBreak(0, c);
    }
    RenderedLineCount(a, ShowUsize);
    RenderedLineCount(b, ShowComplex);
  }

  /** With no columns nothing is indexed. `new(3, 0)` renders as its header and
      three empty lines, and `new_zeros(3, 0) + new(0, 0)` is the 3 by 0 zero
      matrix, although neither `new` matrix has any rows. */
  lemma NoColumns()
    ensures Rendered(New<Usize>(3, 0), ShowUsize) == "n: 3, m: 0\ndata:\n\n\n\n"
    ensures AddResult(NewZeros(3, 0, UsizeZero()), New(0, 0), UsizeZero(), UsizePlus)
         == NewZeros(3, 0, UsizeZero())
  {
    assert DecimalDigits(3) == "3" && DecimalDigits(0) == "0";
    assert Header(3, 0) == "n: 3, m: 0\ndata:\n";
    var empty := New<Usize>(3, 0);
    assert Lines(empty, 3, ShowUsize) == "\n\n\n";
    var z := NewZeros(3, 0, UsizeZero());
    SameMatrix(AddResult(z, New(0, 0), UsizeZero(), UsizePlus), z);
  }
}
