# rmatrix in Dafny

A model of the Rust crate `rmatrix`: a generic dense matrix `Matrix<T>` with a row
count `n`, a column count `m` and row-major storage `data: Vec<Vec<T>>`, its four
constructors, its `Add` operator, its `Display` implementation, and the `Zero`
capability with its two instances, `usize` and the unsigned `Complex` type.

Modules:

- `Options` (`options.dfy`): the optional value returned by the text readers.
- `Decimal` (`decimal.dfy`): decimal text of unsigned integers, the scanners that read it
  back, and a character count. These are helpers for stating what the rendering produces.
- `Scalars` (`scalars.dfy`): `usize` (as `nat`), `Complex`, `Zero::zero` for both, and
  the `Display` of each element type.
- `Matrices` (`matrix.dfy`): the `Matrix` datatype, the shape invariant `Valid`, the
  bounds condition `Covers`, the constructors, `add` and `fmt`. `Covers(mat, rows, cols)`
  says that every index `data[i][j]` with `i < rows` and `j < cols` is in bounds. The
  index sits inside the loop over columns, so with `cols == 0` no row is needed.
- `Scenarios` (`scenarios.dfy`): the situations set up by the crate's unit tests.

A Rust matrix is a value owned by one holder, and `add` consumes both operands and
returns a fresh matrix. So `Matrix<T>` is a Dafny datatype. The two operations that
work step by step are methods. `Add` updates a local matrix cell by cell in two nested
loops. `Fmt` appends to a string in two nested loops. Each method is proved equal to a
specification function: `AddResult` for `Add` and `Rendered` for `Fmt`. The lemmas are
stated about those functions.

The element type's capabilities are parameters of the operations that need them:
`zero: T` for `Zero::zero()`, `plus: (T, T) -> T` for `+`, and `show: T -> string`
for the element's `Display`. The `usize` and `Complex` instances are in `Scalars`.

What the code does, as modelled:

- `new(n, m)` and `new_square(k)` record the dimensions and keep no rows. The shape
  invariant therefore fails whenever `n > 0`.
- `new_ident(k)` is an unfinished stub. It returns `new_square(k)` unchanged.
- `new_zeros(n, m)` yields a valid matrix for every `n` and `m`. The other three
  constructors yield a valid matrix only when the row count is 0.
- `add(self, op)` seeds a zero matrix of `self`'s shape. It then stores
  `zero + op[i][j]` in every cell. The values of `self` are never read. For `usize`
  the result is the top-left `self.n` by `self.m` block of `op`. When `op` has
  `self`'s shape, that block is `op` itself, not the elementwise sum.
  `Scenarios.AddTest` proves this for the values set up by the crate's `add` test:
  cell (5, 2) is 21, not 66 + 21.
- `fmt` writes the header `n: N, m: M`, then a line `data:`. Then it writes one line
  per row, and every element on the line is followed by one space.

## Model

| member | source | states |
|---|---|---|
| `Matrices.Valid` | matrix/src/lib.rs:6-10 | the shape the struct's fields are meant to have: `data` holds `n` rows of `m` elements each; a valid matrix is in bounds for its own dimensions |
| `Matrices.New` | matrix/src/lib.rs:54-58 | records `n` and `m` and has no rows at all; the result is valid exactly when `n == 0`, and in bounds for its own dimensions exactly when `n == 0` or `m == 0` |
| `Matrices.NewZeros` | matrix/src/lib.rs:60-64 | the result records `n` and `m`, satisfies the shape invariant (`n` rows of `m` elements) and every cell is the element type's zero |
| `Matrices.NewSquare` | matrix/src/lib.rs:66-68 | is `new(k, k)`: a `k` by `k` descriptor with empty storage |
| `Matrices.NewIdent` | matrix/src/lib.rs:70-74 | is exactly `new_square(k)`, with no diagonal set; for `k > 0` it is neither valid nor indexable at any cell |
| `Matrices.SetCell` | matrix/src/lib.rs:111-112 | direct assignment `data[i][j] = v` (a panic out of bounds): sets that cell, keeps every other cell, the dimensions and every row length, and keeps the shape invariant |
| `Matrices.AddResult` | matrix/src/lib.rs:80-88 | given `op` in bounds for `self`'s shape, the sum is a valid `self.n` by `self.m` matrix whose cell (i, j) is `zero + op[i][j]` |
| `Matrices.Add` | matrix/src/lib.rs:80-88 | the nested loop seeded with `new_zeros` produces exactly `AddResult`; its precondition is that every `op[i][j]` read for `i < self.n`, `j < self.m` is in bounds |
| `Matrices.AddIgnoresSelfData` | matrix/src/lib.rs:81-85 | the sum depends only on the dimensions of `self`, never on its values |
| `Matrices.AddCopiesOperand` | matrix/src/lib.rs:81-85 | when `zero` is an identity of `+` (as for `usize`) and `op` has `self`'s shape, the sum equals `op` |
| `Matrices.Rendered` | matrix/src/lib.rs:14-20 | the text `fmt` writes: the header `n: N, m: M` and `data:` lines, then per row every element followed by a space, then a newline; the text begins with that header |
| `Matrices.Fmt` | matrix/src/lib.rs:13-22 | the nested loop appending `element + " "` per cell and `"\n"` per row writes exactly `Rendered`: the header, then one line per row |
| `Matrices.HeaderRoundTrip` | matrix/src/lib.rs:14 | reading the header back from any rendered matrix recovers its `n` and `m` |
| `Matrices.HeaderLines` | matrix/src/lib.rs:14 | the header is exactly two lines |
| `Matrices.RenderedNoRows` | matrix/src/lib.rs:14-21 | a matrix with `n == 0` renders as the header alone |
| `Matrices.RenderedZeros` | matrix/src/lib.rs:15-20 | a `new_zeros(n, m)` matrix renders as the header, then `n` lines of `m` copies of the rendered zero, each copy followed by a space |
| `Matrices.RenderedLineCount` | matrix/src/lib.rs:14-21 | if no element renders with a line break, the rendering has `n + 2` lines: two header lines and one line per row |
| `Scalars.UsizeZero` | matrix/src/lib.rs:29-33 | `Zero::zero()` for `usize` is `0`, the identity of `+`: `0 + x == x` for every `x` |
| `Scalars.ComplexZero` | matrix/src/lib.rs:41-45 | `Zero::zero()` for `Complex` is `Complex { real: 0, img: 0 }`: both parts are zero |
| `Scalars.ShowUsize` | matrix/src/lib.rs:17 | the `{}` of a `usize`: a non-empty run of decimal digits whose value is the number |
| `Scalars.ShowComplex` | matrix/src/lib.rs:47-51 | `"(" + real + ", " + img + ")"` with both parts in decimal: it opens with `(`, closes with `)`, and has four characters besides the two numbers |
| `Scalars.UsizeZeroIsIdentity` | matrix/src/lib.rs:29-33 | the zero of `usize` is the identity of its `+` |
| `Scalars.ShowComplexZero` | matrix/src/lib.rs:41-50 | the zero of `Complex` renders as `(0, 0)`, that of `usize` as `0` |
| `Scalars.ShowComplexRoundTrip` | matrix/src/lib.rs:47-51 | the `(real, img)` rendering of a `Complex` can be read back to the same value |
| `Scalars.ShowHasNoLineBreak` | matrix/src/lib.rs:47-51 | neither `usize` nor `Complex` renders with a line break |
| `Scenarios.CreateUsize` | matrix/src/lib.rs:96-99 | `new_zeros(5, 6)` of `usize` renders as `n: 5, m: 6`, `data:`, then five lines of six `0 ` |
| `Scenarios.CreateComplex` | matrix/src/lib.rs:102-105 | `new_zeros(7, 8)` of `Complex` renders every cell as `(0, 0) ` in seven lines of eight |
| `Scenarios.CreateEmpty` | matrix/src/lib.rs:14-21 | `new_zeros(0, 0)` renders as the header alone |
| `Scenarios.AddTest` | matrix/src/lib.rs:108-115 | with `m1[5][2] = 66` and `m2[5][2] = 21`, `m1 + m2` holds 21 at (5, 2) and 0 elsewhere; cell (5, 2) is not 66 + 21 |
| `Scenarios.NoColumns` | matrix/src/lib.rs:15-17 | with no columns no row is indexed: `new(3, 0)` renders as its header and three empty lines, and `new_zeros(3, 0) + new(0, 0)` is the 3 by 0 zero matrix |
| `Scenarios.RenderedLinesOfScalars` | matrix/src/lib.rs:14-21 | every renderable matrix of `usize` or of `Complex` renders as `n + 2` lines |

## Left out

- The `Formatter` sink: writing to it and propagating its errors with `?`. `Fmt` builds
  a string instead, and a failed write is not modelled.
- `usize` is `nat`, so the `usize::MAX` bound on element values and dimensions is not
  modelled.
- `usize`'s `Display` comes from the standard library. It is modelled as plain decimal
  digits, without leading zeros.
- Out-of-bounds indexing panics in the source. `Add`, `Fmt` and `SetCell` instead require
  that every index they read or write is in bounds. A panic is never modelled as a
  returned error.
- `Matrices.AddResult`: `plus` is any total function, so the model also allows adding
  matrices of `Complex`. The source gives `Complex` no `Add` implementation, so it cannot
  do that.
- Move semantics are not modelled: `add` consuming its operands, and the `Clone`/`Copy`
  bounds. Matrices here are values, so aliasing cannot arise.
- The unused `Sub` import is not modelled.
- The `println!` calls in the tests are not modelled. Only the values the tests set up
  appear, in `Scenarios`.
