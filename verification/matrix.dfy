/** The generic dense matrix `Matrix<T>`: a row count `n`, a column count `m` and
    row-major storage `data`. The element type's capabilities (`Zero::zero`, `+`,
    `Display`) are passed as parameters where an operation needs them. */
module Matrices {
  import opened Options
  import opened Decimal

  /** A matrix value. The dimensions are recorded independently of the storage,
      so a matrix need not be `Valid`. */
  datatype Matrix<T> = Matrix(n: nat, m: nat, data: seq<seq<T>>)

  /** The shape invariant: `n` rows of `m` elements each. */
  predicate Valid<T>(mat: Matrix<T>)
    ensures Valid(mat) ==> Covers(mat, mat.n, mat.m)
  {
    |mat.data| == mat.n && forall i :: 0 <= i < |mat.data| ==> |mat.data[i]| == mat.m
  }

  /** Every index `data[i][j]` with `i < rows` and `j < cols` is in bounds: what
      the indexing loops of `add` and `fmt` need in order not to panic. The index
      sits in the inner loop, so with no columns no row is ever indexed. */
  predicate Covers<T>(mat: Matrix<T>, rows: nat, cols: nat) {
    cols == 0 || (rows <= |mat.data| && forall i :: 0 <= i < rows ==> cols <= |mat.data[i]|)
  }

  // ---------------------------------------------------------------- construction

  /** `Matrix::new`: records the dimensions, allocates no rows. */
  function New<T>(n: nat, m: nat): (r: Matrix<T>)
    ensures r.n == n && r.m == m && |r.data| == 0
    ensures Valid(r) <==> n == 0
    ensures Covers(r, r.n, r.m) <==> n == 0 || m == 0
  {
    Matrix(n, m, [])
  }

  /** `Matrix::new_zeros`: `n` rows of `m` copies of the element type's zero. */
  function NewZeros<T>(n: nat, m: nat, zero: T): (r: Matrix<T>)
    ensures Valid(r) && r.n == n && r.m == m
    ensures forall i, j :: 0 <= i < n && 0 <= j < m ==> r.data[i][j] == zero
  {
    Matrix(n, m, seq(n, _ => seq(m, _ => zero)))
  }

  /** `Matrix::new_square`: `new(k, k)`, with the same empty storage. */
  function NewSquare<T>(k: nat): (r: Matrix<T>)
    ensures r == New(k, k)
    ensures r.n == r.m == k && r.data == []
  {
    New(k, k)
  }

  /** `Matrix::new_ident`: an unfinished stub; no diagonal is set, so the result is
      the empty-storage square descriptor and not an identity matrix. */
  function NewIdent<T>(k: nat): (r: Matrix<T>)
    ensures r == NewSquare(k)
    ensures k > 0 ==> !Valid(r) && !Covers(r, k, k)
  {
    var mat := NewSquare(k);
    mat
  }

  /** Direct element assignment `mat.data[i][j] = v`, which panics out of bounds. */
  function SetCell<T>(mat: Matrix<T>, i: nat, j: nat, v: T): (r: Matrix<T>)
    requires i < |mat.data| && j < |mat.data[i]|
    ensures r.n == mat.n && r.m == mat.m && |r.data| == |mat.data|
    ensures forall a :: 0 <= a < |mat.data| ==> |r.data[a]| == |mat.data[a]|
    ensures Valid(mat) ==> Valid(r)
    ensures r.data[i][j] == v
    ensures forall a, b :: 0 <= a < |mat.data| && 0 <= b < |mat.data[a]| && (a, b) != (i, j) ==>
              r.data[a][b] == mat.data[a][b]
  {
    mat.(data := mat.data[i := mat.data[i][j := v]])
  }

  // ---------------------------------------------------------------- addition

  /** What `add(self, op)` returns: a `self.n` by `self.m` matrix whose cell (i, j)
      is `zero + op[i][j]`. Only the dimensions of `self` are used. */
  function AddResult<T>(self: Matrix<T>, op: Matrix<T>, zero: T, plus: (T, T) -> T): (r: Matrix<T>)
    requires Covers(op, self.n, self.m)
    ensures Valid(r) && r.n == self.n && r.m == self.m
    ensures forall i, j :: 0 <= i < self.n && 0 <= j < self.m ==> r.data[i][j] == plus(zero, op.data[i][j])
  {
    Matrix(self.n, self.m,
      seq(self.n, i requires 0 <= i < self.n =>
        seq(self.m, j requires 0 <= j < self.m => plus(zero, op.data[i][j]))))
  }

  /** `Add::add` as the source runs it: seed a zero matrix of `self`'s shape, then
      overwrite every cell with `mat[i][j] + op[i][j]` in two nested loops.
      Indexing `op` out of bounds panics, hence the precondition. */
  method Add<T>(self: Matrix<T>, op: Matrix<T>, zero: T, plus: (T, T) -> T) returns (r: Matrix<T>)
    requires Covers(op, self.n, self.m)
    ensures r == AddResult(self, op, zero, plus)
  {
    var mat := NewZeros(self.n, self.m, zero);
    for i := 0 to self.n
      invariant Valid(mat) && mat.n == self.n && mat.m == self.m
      invariant forall a, b :: 0 <= a < i && 0 <= b < self.m ==> mat.data[a][b] == plus(zero, op.data[a][b])
      invariant forall a, b :: i <= a < self.n && 0 <= b < self.m ==> mat.data[a][b] == zero
    {
      for j := 0 to self.m
        invariant Valid(mat) && mat.n == self.n && mat.m == self.m
        invariant forall a, b :: 0 <= a < i && 0 <= b < self.m ==> mat.data[a][b] == plus(zero, op.data[a][b])
        invariant forall b :: 0 <= b < j ==> mat.data[i][b] == plus(zero, op.data[i][b])
        invariant forall a, b :: i <= a < self.n && 0 <= b < self.m && (a > i || b >= j) ==> mat.data[a][b] == zero
      {
        mat := mat.(data := mat.data[i := mat.data[i][j := plus(mat.data[i][j], op.data[i][j])]]);
      }
    }
    r := mat;
    SameMatrix(r, AddResult(self, op, zero, plus));
  }

  /** Two valid matrices of one shape with equal cells are equal. */
  lemma SameMatrix<T>(x: Matrix<T>, y: Matrix<T>)
    requires Valid(x) && Valid(y) && x.n == y.n && x.m == y.m
    requires forall i, j :: 0 <= i < x.n && 0 <= j < x.m ==> x.data[i][j] == y.data[i][j]
    ensures x == y
  {
    forall i | 0 <= i < x.n
      ensures x.data[i] == y.data[i]
    {
    }
  }

  /** The values of `self` are never read: only its dimensions matter. */
  lemma AddIgnoresSelfData<T>(self: Matrix<T>, other: Matrix<T>, op: Matrix<T>, zero: T, plus: (T, T) -> T)
    requires self.n == other.n && self.m == other.m
    requires Covers(op, self.n, self.m)
    ensures AddResult(self, op, zero, plus) == AddResult(other, op, zero, plus)
  {
  }

  /** With the zero of the element type an identity of its `+`, as for `usize`,
      adding an operand of the same shape yields exactly that operand. */
  lemma AddCopiesOperand<T>(self: Matrix<T>, op: Matrix<T>, zero: T, plus: (T, T) -> T)
    requires Valid(op) && op.n == self.n && op.m == self.m
    requires forall i, j :: 0 <= i < op.n && 0 <= j < op.m ==> plus(zero, op.data[i][j]) == op.data[i][j]
    ensures AddResult(self, op, zero, plus) == op
  {
    SameMatrix(AddResult(self, op, zero, plus), op);
  }

  // ---------------------------------------------------------------- display

  /** The header line: `n: N, m: M` followed by a `data:` line. */
  function Header(n: nat, m: nat): string {
    "n: " + DecimalDigits(n) + ", m: " + DecimalDigits(m) + "\ndata:\n"
  }

  /** The first `j` cells of row `i`, each followed by one space. */
  function Cells<T>(mat: Matrix<T>, i: nat, j: nat, show: T -> string): string
    requires j <= mat.m && Covers(mat, i + 1, mat.m)
  {
    if j == 0 then "" else Cells(mat, i, j - 1, show) + show(mat.data[i][j - 1]) + " "
  }

  /** Row `i` as one line: its `m` cells, then a newline. */
  function Line<T>(mat: Matrix<T>, i: nat, show: T -> string): string
    requires Covers(mat, i + 1, mat.m)
  {
    Cells(mat, i, mat.m, show) + "\n"
  }

  /** The first `i` rows, one line each. */
  function Lines<T>(mat: Matrix<T>, i: nat, show: T -> string): string
    requires Covers(mat, i, mat.m)
  {
    if i == 0 then "" else Lines(mat, i - 1, show) + Line(mat, i - 1, show)
  }

  /** The full text `Display::fmt` writes for a matrix. */
  function Rendered<T>(mat: Matrix<T>, show: T -> string): (s: string)
    requires Covers(mat, mat.n, mat.m)
    ensures |Header(mat.n, mat.m)| <= |s| && s[..|Header(mat.n, mat.m)|] == Header(mat.n, mat.m)
  {
    Header(mat.n, mat.m) + Lines(mat, mat.n, show)
  }

  /** `Display::fmt` as the source runs it: the header, then for each row every
      element and a space, then a newline. The sink is a string here. */
  method Fmt<T>(mat: Matrix<T>, show: T -> string) returns (s: string)
    requires Covers(mat, mat.n, mat.m)
    ensures s == Rendered(mat, show)
  {
    s := Header(mat.n, mat.m);
    for i := 0 to mat.n
      invariant s == Header(mat.n, mat.m) + Lines(mat, i, show)
    {
      ghost var before := s;
      for j := 0 to mat.m
        invariant s == before + Cells(mat, i, j, show)
      {
        s := s + show(mat.data[i][j]) + " ";
      }
      s := s + "\n";
    }
  }

  /** Reads the dimensions back from the header of a rendered matrix. */
  function ParseHeader(s: string): Option<(nat, nat)> {
    match ReadLiteral("n: ", s)
    case None => None
    case Some(s1) => ParseRowsAndCols(s1)
  }

  function ParseRowsAndCols(s: string): Option<(nat, nat)> {
    match ReadNumber(s)
    case None => None
    case Some((n, rest)) =>
      match ParseCols(rest)
      case None => None
      case Some(m) => Some((n, m))
  }

  function ParseCols(s: string): Option<nat> {
    match ReadLiteral(", m: ", s)
    case None => None
    case Some(s1) =>
      match ReadNumber(s1)
      case None => None
      case Some((m, rest)) => if ReadLiteral("\ndata:\n", rest).Some? then Some(m) else None
  }

  lemma ParseColsFront(m: nat, body: string)
    ensures ParseCols(", m: " + (DecimalDigits(m) + ("\ndata:\n" + body))) == Some(m)
  {
    var tail := "\ndata:\n" + body;
    ReadLiteralFront(", m: ", DecimalDigits(m) + tail);
    ReadNumberDigits(m, tail);
    ReadLiteralFront("\ndata:\n", body);
  }

  lemma ParseRowsAndColsFront(n: nat, m: nat, body: string)
    ensures ParseRowsAndCols(DecimalDigits(n) + (", m: " + (DecimalDigits(m) + ("\ndata:\n" + body)))) == Some((n, m))
  {
    ReadNumberDigits(n, ", m: " + (DecimalDigits(m) + ("\ndata:\n" + body)));
    ParseColsFront(m, body);
  }

  /** Reading the header back recovers the dimensions, whatever text follows it. */
  lemma ParseHeaderFront(n: nat, m: nat, body: string)
    ensures ParseHeader(Header(n, m) + body) == Some((n, m))
  {
    var s1 := DecimalDigits(n) + (", m: " + (DecimalDigits(m) + ("\ndata:\n" + body)));
    assert Header(n, m) + body == "n: " + s1;
    ReadLiteralFront("n: ", s1);
    ParseRowsAndColsFront(n, m, body);
  }

  /** Rendering a matrix, then reading its header, recovers its dimensions. */
  lemma HeaderRoundTrip<T>(mat: Matrix<T>, show: T -> string)
    requires Covers(mat, mat.n, mat.m)
    ensures ParseHeader(Rendered(mat, show)) == Some((mat.n, mat.m))
  {
    ParseHeaderFront(mat.n, mat.m, Lines(mat, mat.n, show));
  }

  /** A matrix without rows renders as the header alone. */
  lemma RenderedNoRows<T>(mat: Matrix<T>, show: T -> string)
    requires mat.n == 0
    ensures Rendered(mat, show) == Header(0, mat.m)
  {
  }

  /** `k` copies of `s`, one after another. */
  function Repeat(s: string, k: nat): (r: string)
    ensures |r| == k * |s|
  {
    if k == 0 then "" else Repeat(s, k - 1) + s
  }

  lemma {:induction false} CellsOfConstant<T>(mat: Matrix<T>, i: nat, j: nat, z: T, show: T -> string)
    requires j <= mat.m && Covers(mat, i + 1, mat.m)
    requires forall b :: 0 <= b < j ==> mat.data[i][b] == z
    ensures Cells(mat, i, j, show) == Repeat(show(z) + " ", j)
  {
    if j > 0 {
      CellsOfConstant(mat, i, j - 1, z, show);
    }
  }

  lemma {:induction false} LinesOfConstant<T>(mat: Matrix<T>, i: nat, z: T, show: T -> string)
    requires Covers(mat, i, mat.m)
    requires forall a, b :: 0 <= a < i && 0 <= b < mat.m ==> mat.data[a][b] == z
    ensures Lines(mat, i, show) == Repeat(Repeat(show(z) + " ", mat.m) + "\n", i)
  {
    if i > 0 {
      LinesOfConstant(mat, i - 1, z, show);
      CellsOfConstant(mat, i - 1, mat.m, z, show);
    }
  }

  /** A zero matrix renders as the header and `n` lines of `m` rendered zeros,
      each followed by a space. */
  lemma RenderedZeros<T>(n: nat, m: nat, zero: T, show: T -> string)
    ensures Covers(NewZeros(n, m, zero), n, m)
    ensures Rendered(NewZeros(n, m, zero), show) == Header(n, m) + Repeat(Repeat(show(zero) + " ", m) + "\n", n)
  {
    var mat := NewZeros(n, m, zero);
    LinesOfConstant(mat, n, zero, show);
  }

  /** The header is two lines: no decimal digit is a newline. */
  lemma HeaderLines(n: nat, m: nat)
    ensures Occurrences(Header(n, m), '\n') == 2
  {
    var a := "n: " + DecimalDigits(n);
    var b := a + ", m: ";
    var c := b + DecimalDigits(m);
    assert Header(n, m) == c + "\ndata:\n";
    OccurrencesAbsent("n: ", '\n');
    OccurrencesInDigits(n, '\n');
    OccurrencesAppend("n: ", DecimalDigits(n), '\n');
    OccurrencesAbsent(", m: ", '\n');
    OccurrencesAppend(a, ", m: ", '\n');
    OccurrencesInDigits(m, '\n');
    OccurrencesAppend(b, DecimalDigits(m), '\n');
    OccurrencesAppend("\ndata:", "\n", '\n');
    assert Occurrences("\ndata:", '\n') == 1 by {
      OccurrencesAbsent("data:", '\n');
      OccurrencesAppend("\n", "data:", '\n');
      assert "\n" + "data:" == "\ndata:";
    }
    assert "\ndata:" + "\n" == "\ndata:\n";
    OccurrencesAppend(c, "\ndata:\n", '\n');
  }

  lemma {:induction false} CellsLines<T>(mat: Matrix<T>, i: nat, j: nat, show: T -> string)
    requires j <= mat.m && Covers(mat, i + 1, mat.m)
    requires forall x :: '\n' !in show(x)
    ensures Occurrences(Cells(mat, i, j, show), '\n') == 0
  {
    if j > 0 {
      var front, cell := Cells(mat, i, j - 1, show), show(mat.data[i][j - 1]);
      CellsLines(mat, i, j - 1, show);
      OccurrencesAbsent(cell, '\n');
      OccurrencesAppend(front, cell, '\n');
      OccurrencesAbsent(" ", '\n');
      OccurrencesAppend(front + cell, " ", '\n');
    }
  }

  lemma LineCount<T>(mat: Matrix<T>, r: nat, show: T -> string)
    requires Covers(mat, r + 1, mat.m)
    requires forall x :: '\n' !in show(x)
    ensures Occurrences(Line(mat, r, show), '\n') == 1
  {
    CellsLines(mat, r, mat.m, show);
    OccurrencesAppend(Cells(mat, r, mat.m, show), "\n", '\n');
  }

  lemma {:induction false} LinesCount<T>(mat: Matrix<T>, i: nat, show: T -> string)
    requires Covers(mat, i, mat.m)
    requires forall x :: '\n' !in show(x)
    ensures Occurrences(Lines(mat, i, show), '\n') == i
  {
    if i > 0 {
      var k := i - 1;
      assert Covers(mat, k, mat.m);
      var front, last := Lines(mat, k, show), Line(mat, k, show);
      assert Occurrences(front, '\n') == k by {
        LinesCount(mat, k, show);
      }
      LineCount(mat, k, show);
      CountStep(front, last, '\n', k);
    }
  }

  /** When no element renders with a line break, the text has the two header
      lines and then exactly one line per row. */
  lemma RenderedLineCount<T>(mat: Matrix<T>, show: T -> string)
    requires Covers(mat, mat.n, mat.m)
    requires forall x :: '\n' !in show(x)
    ensures Occurrences(Rendered(mat, show), '\n') == mat.n + 2
  {
    HeaderLines(mat.n, mat.m);
    LinesCount(mat, mat.n, show);
    OccurrencesAppend(Header(mat.n, mat.m), Lines(mat, mat.n, show), '\n');
  }
}
