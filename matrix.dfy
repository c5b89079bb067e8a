/** The six-number transformation matrix of the content-stream interpreter.
    [a b c d e f] stands for the 3x3 matrix, in row-vector layout,
        | a b 0 |
        | c d 0 |
        | e f 1 |
    f32 arithmetic is modelled as exact real arithmetic. */
module Matrix {
  import opened RealFacts

  datatype Matrix = Matrix(a: real, b: real, c: real, d: real, e: real, f: real)

  function Identity(): Matrix {
    Matrix(1.0, 0.0, 0.0, 1.0, 0.0, 0.0)
  }

  /** Matrix::concat: the product self x other. */
  function Concat(m: Matrix, n: Matrix): Matrix {
    Matrix(
      m.a * n.a + m.b * n.c,
      m.a * n.b + m.b * n.d,
      m.c * n.a + m.d * n.c,
      m.c * n.b + m.d * n.d,
      m.e * n.a + m.f * n.c + n.e,
      m.e * n.b + m.f * n.d + n.f)
  }

  /** Entry (i, j) of the 3x3 matrix that m stands for. */
  function At(m: Matrix, i: nat, j: nat): real
    requires i < 3 && j < 3
  {
    if i == 0 then (if j == 0 then m.a else if j == 1 then m.b else 0.0)
    else if i == 1 then (if j == 0 then m.c else if j == 1 then m.d else 0.0)
    else (if j == 0 then m.e else if j == 1 then m.f else 1.0)
  }

  /** Entry (i, j) of the ordinary 3x3 product of m and n. */
  function ProductAt(m: Matrix, n: Matrix, i: nat, j: nat): real
    requires i < 3 && j < 3
  {
    At(m, i, 0) * At(n, 0, j) + At(m, i, 1) * At(n, 1, j) + At(m, i, 2) * At(n, 2, j)
  }

  /** Concat is exactly the 3x3 matrix product m x n in the row-vector layout. */
  lemma ConcatIsProduct(m: Matrix, n: Matrix)
    ensures forall i: nat, j: nat | i < 3 && j < 3 :: At(Concat(m, n), i, j) == ProductAt(m, n, i, j)
  {
  }

  /** The identity is a unit on both sides. */
  lemma IdentityIsUnit(m: Matrix)
    ensures Concat(Identity(), m) == m
    ensures Concat(m, Identity()) == m
  {
  }

  /** Matrix::scale_x and scale_y take square roots of f32 values; the square root
      is supplied by the caller (see Oracles) and is assumed of nothing except in
      the lemmas that say so. */
  function ScaleX(sqrt: real -> real, m: Matrix): real {
    Root(sqrt, Square(m.a) + Square(m.b))
  }
  function ScaleY(sqrt: real -> real, m: Matrix): real {
    Root(sqrt, Square(m.c) + Square(m.d))
  }
  function Square(x: real): real {
    x * x
  }

  function Abs(x: real): real {
    if x >= 0.0 then x else -x
  }

  /** The supplied square root applied to x. */
  function Root(sqrt: real -> real, x: real): real {
    sqrt(x)
  }
  /** What a square root promises on non-negative arguments. */
  ghost predicate IsSquareRoot(sqrt: real -> real) {
    forall x: real :: x >= 0.0 ==> Root(sqrt, x) >= 0.0 && Square(Root(sqrt, x)) == x
  }
  /** For an axis-aligned matrix (no rotation or skew) the scales are |a| and |d|:
      the displayed width and height, in points, of the unit square an image paints. */
  lemma AxisAlignedScales(sqrt: real -> real, m: Matrix)
    requires IsSquareRoot(sqrt)
    requires m.b == 0.0 && m.c == 0.0
    ensures ScaleX(sqrt, m) == Abs(m.a)
    ensures ScaleY(sqrt, m) == Abs(m.d)
  {
    assert Square(0.0) == 0.0;
    SquareRootOfSquare(sqrt, m.a);
    SquareRootOfSquare(sqrt, m.d);
  }
  lemma SquareRootOfSquare(sqrt: real -> real, x: real)
    requires IsSquareRoot(sqrt)
    ensures Root(sqrt, Square(x)) == Abs(x)
  {
    SquareNonneg(x);
    var s := Root(sqrt, Square(x));
    assert s >= 0.0 && Square(s) == Square(x);
    assert Square(Abs(x)) == Square(x);
    EqualSquares(s, Abs(x));
  }
  lemma SquareNonneg(x: real)
    ensures Square(x) >= 0.0
  {
    if x < 0.0 {
      MulPos(-x, -x);
      assert Square(x) == (-x) * (-x);
    } else {
      MulNonneg(x, x);
    }
  }
  lemma EqualSquares(s: real, t: real)
    requires s >= 0.0 && t >= 0.0 && Square(s) == Square(t)
    ensures s == t
  {
    if s > t {
      Grow(t, s);
    } else if s < t {
      Grow(s, t);
    }
  }
  lemma Grow(lo: real, hi: real)
    requires 0.0 <= lo < hi
    ensures Square(lo) < Square(hi)
  {
    var d := hi - lo;
    Expand(lo, d);
    assert lo + d == hi;
    MulNonneg(lo, d);
    MulPos(d, d);
  }
  /** Concat is not commutative.  `cm` right-multiplies the current matrix
      (CTM x M), where section 8.3.4 of ISO 32000-1 composes M x CTM; after a
      horizontal stretch, a 90-degree rotation gives the two orders different
      results, and the rows that scale_x and scale_y measure trade places. */
  lemma ConcatOrderMatters()
    ensures Concat(Matrix(2.0, 0.0, 0.0, 1.0, 0.0, 0.0), Matrix(0.0, 1.0, -1.0, 0.0, 0.0, 0.0))
            == Matrix(0.0, 2.0, -1.0, 0.0, 0.0, 0.0)
    ensures Concat(Matrix(0.0, 1.0, -1.0, 0.0, 0.0, 0.0), Matrix(2.0, 0.0, 0.0, 1.0, 0.0, 0.0))
            == Matrix(0.0, 1.0, -2.0, 0.0, 0.0, 0.0)
  {
    var stretch := Matrix(2.0, 0.0, 0.0, 1.0, 0.0, 0.0);
    var rotate := Matrix(0.0, 1.0, -1.0, 0.0, 0.0, 0.0);
    var sr, rs := Concat(stretch, rotate), Concat(rotate, stretch);
    assert sr.a == 0.0 && sr.b == 2.0 && sr.c == -1.0 && sr.d == 0.0 && sr.e == 0.0 && sr.f == 0.0;
    assert rs.a == 0.0 && rs.b == 1.0 && rs.c == -2.0 && rs.d == 0.0 && rs.e == 0.0 && rs.f == 0.0;
  }
}
