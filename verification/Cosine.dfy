/** The dense similarity score, over real numbers; a square root is any nonnegative number with the right square. */
module Cosine {

  /** The dot product of the common part: the longer vector is cut off. */
  function Dot(left: seq<real>, right: seq<real>): real {
    if left == [] || right == [] then 0.0 else left[0] * right[0] + Dot(left[1..], right[1..])
  }

  /** The sum under the square root of a norm: nothing is cut off. */
  function SumOfSquares(v: seq<real>): real {
    if v == [] then 0.0 else v[0] * v[0] + SumOfSquares(v[1..])
  }

  ghost predicate IsSqrt(root: real, x: real) {
    root >= 0.0 && root * root == x
  }

  /** _cosine, given the two norms math.sqrt returns. */
  function Cosine(left: seq<real>, right: seq<real>, leftNorm: real, rightNorm: real): real {
    if leftNorm == 0.0 || rightNorm == 0.0 then 0.0 else Dot(left, right) / (leftNorm * rightNorm)
  }

  lemma SquareNonnegative(x: real)
    ensures x * x >= 0.0
  {
  }

  lemma {:induction false} SumOfSquaresNonnegative(v: seq<real>)
    ensures SumOfSquares(v) >= 0.0
  {
    if v != [] {
      SquareNonnegative(v[0]);
      SumOfSquaresNonnegative(v[1..]);
    }
  }

  lemma SquareOfProduct(x: real, y: real)
    ensures (x * y) * (x * y) == (x * x) * (y * y)
  {
    assert (x * y) * (x * y) == x * (y * (x * y)) == x * (x * (y * y));
  }

  lemma SquareOfSum(x: real, y: real)
    ensures (x + y) * (x + y) == x * x + 2.0 * (x * y) + y * y
  {
  }

  lemma MonotoneProduct(x: real, y: real, z: real)
    requires x <= y && z >= 0.0
    ensures z * x <= z * y
  {
    assert z * (y - x) >= 0.0;
  }

  lemma StrictProduct(x: real, y: real, z: real)
    requires x < y && z > 0.0
    ensures z * x < z * y
  {
    assert z * (y - x) > 0.0;
  }

  function Square(x: real): real { x * x }

  lemma LargerProduct(x: real, y: real, p: real, q: real)
    requires x > y >= 0.0 && p == x * x && q == y * y
    ensures p > q
  {
    PositiveProduct(x - y, x + y);
    assert (x - y) * (x + y) == p - q;
  }

  lemma SquareIs(x: real)
    ensures Square(x) == x * x && Square(-x) == Square(x)
  {
    assert (-x) * (-x) == x * x;
  }

  lemma LargerSquare(x: real, y: real)
    requires x > y >= 0.0
    ensures Square(x) > Square(y)
  {
    hide Square;
    SquareIs(x);
    SquareIs(y);
    LargerProduct(x, y, Square(x), Square(y));
  }

  lemma SmallerSquare(x: real, y: real, p: real, q: real)
    requires y >= 0.0 && p == x * x && q == y * y && p <= q
    ensures -y <= x <= y
  {
    hide Square;
    SquareIs(x);
    SquareIs(y);
    if x > y {
      LargerSquare(x, y);
    } else if x < -y {
      LargerSquare(-x, y);
    }
  }

  /** Twice a geometric mean is at most the sum: 2abd <= a*a*q + b*b*p when d*d <= p*q. */
  lemma MixedTerm(a: real, b: real, d: real, p: real, q: real)
    requires p >= 0.0 && q >= 0.0 && d * d <= p * q
    ensures 2.0 * ((a * b) * d) <= (a * a) * q + (b * b) * p
  {
    var u, v := (a * a) * q, (b * b) * p;
    var x := 2.0 * ((a * b) * d);
    SquareNonnegative(a);
    SquareNonnegative(b);
    MonotoneProduct(0.0, q, a * a);
    MonotoneProduct(0.0, p, b * b);
    SquareOfProduct(a * b, d);
    SquareOfProduct(a, b);
    assert x * x == 4.0 * (((a * a) * (b * b)) * (d * d));
    MonotoneProduct(0.0, b * b, a * a);
    MonotoneProduct(d * d, p * q, (a * a) * (b * b));
    Regroup(a * a, b * b, p, q);
    assert x * x <= 4.0 * (u * v);
    SquareNonnegative(u - v);
    SquareOfSum(u, v);
    SquareOfSum(u, -v);
    assert x * x <= (u + v) * (u + v);
    SmallerSquare(x, u + v, x * x, (u + v) * (u + v));
  }

  lemma Regroup(s: real, t: real, p: real, q: real)
    ensures (s * t) * (p * q) == (s * q) * (t * p)
  {
    assert (s * t) * (p * q) == s * (t * (p * q)) == s * ((t * p) * q) == s * (q * (t * p)) == (s * q) * (t * p);
  }

  /** The square of a dot product is at most the product of the sums of squares, even for vectors of unequal length. */
  lemma {:induction false} CauchySchwarz(left: seq<real>, right: seq<real>)
    ensures Dot(left, right) * Dot(left, right) <= SumOfSquares(left) * SumOfSquares(right)
  {
    SumOfSquaresNonnegative(left);
    SumOfSquaresNonnegative(right);
    if left == [] || right == [] {
      MonotoneProduct(0.0, SumOfSquares(right), SumOfSquares(left));
    } else {
      CauchySchwarz(left[1..], right[1..]);
      SumOfSquaresNonnegative(left[1..]);
      SumOfSquaresNonnegative(right[1..]);
      CauchySchwarzStep(left[0], right[0], Dot(left[1..], right[1..]), SumOfSquares(left[1..]), SumOfSquares(right[1..]),
                        Dot(left, right), SumOfSquares(left), SumOfSquares(right));
    }
  }

  lemma CauchySchwarzStep(a: real, b: real, d: real, p: real, q: real, d': real, p': real, q': real)
    requires p >= 0.0 && q >= 0.0 && d * d <= p * q
    requires d' == a * b + d && p' == a * a + p && q' == b * b + q
    ensures d' * d' <= p' * q'
  {
    MixedTerm(a, b, d, p, q);
    SquareOfSum(a * b, d);
    SquareOfProduct(a, b);
    Distribute(a * a, p, b * b, q);
  }

  lemma Distribute(s: real, p: real, t: real, q: real)
    ensures (s + p) * (t + q) == s * t + s * q + t * p + p * q
  {
    assert (s + p) * (t + q) == s * (t + q) + p * (t + q);
  }

  lemma QuotientBounds(x: real, y: real)
    requires y > 0.0 && -y <= x <= y
    ensures -1.0 <= x / y <= 1.0
  {
    var c := x / y;
    assert y * c == x;
    if c > 1.0 {
      StrictProduct(1.0, c, y);
    } else if c < -1.0 {
      StrictProduct(c, -1.0, y);
    }
  }

  /** The score lies in [-1, 1] for all vectors. */
  lemma CosineInRange(left: seq<real>, right: seq<real>, leftNorm: real, rightNorm: real)
    requires IsSqrt(leftNorm, SumOfSquares(left)) && IsSqrt(rightNorm, SumOfSquares(right))
    ensures -1.0 <= Cosine(left, right, leftNorm, rightNorm) <= 1.0
  {
    hide Dot, SumOfSquares, IsSqrt;
    CauchySchwarz(left, right);
    if leftNorm != 0.0 && rightNorm != 0.0 {
      NormalizedBounds(Dot(left, right), leftNorm, rightNorm, SumOfSquares(left), SumOfSquares(right));
    }
  }

  lemma NormalizedBounds(d: real, l: real, r: real, p: real, q: real)
    requires IsSqrt(l, p) && IsSqrt(r, q) && l != 0.0 && r != 0.0 && d * d <= p * q
    ensures l * r > 0.0 && -1.0 <= d / (l * r) <= 1.0
  {
    var n := l * r;
    SquareOfProduct(l, r);
    PositiveProduct(l, r);
    SmallerSquare(d, n, d * d, n * n);
    QuotientBounds(d, n);
  }

  lemma PositiveProduct(x: real, y: real)
    requires x > 0.0 && y > 0.0
    ensures x * y > 0.0
  {
  }

  lemma PositiveSquare(x: real)
    requires x != 0.0
    ensures Square(x) > 0.0
  {
    hide Square;
    SquareIs(0.0);
    SquareIs(x);
    LargerSquare(if x > 0.0 then x else -x, 0.0);
  }

  lemma {:induction false} DotNonnegative(left: seq<real>, right: seq<real>)
    requires forall i :: 0 <= i < |left| ==> left[i] >= 0.0
    requires forall i :: 0 <= i < |right| ==> right[i] >= 0.0
    ensures Dot(left, right) >= 0.0
  {
    if left != [] && right != [] {
      MonotoneProduct(0.0, right[0], left[0]);
      DotNonnegative(left[1..], right[1..]);
    }
  }

  /** ... and in [0, 1] for nonnegative ones, such as term-frequency or hashed embeddings. */
  lemma CosineOfNonnegative(left: seq<real>, right: seq<real>, leftNorm: real, rightNorm: real)
    requires IsSqrt(leftNorm, SumOfSquares(left)) && IsSqrt(rightNorm, SumOfSquares(right))
    requires forall i :: 0 <= i < |left| ==> left[i] >= 0.0
    requires forall i :: 0 <= i < |right| ==> right[i] >= 0.0
    ensures 0.0 <= Cosine(left, right, leftNorm, rightNorm) <= 1.0
  {
    CosineInRange(left, right, leftNorm, rightNorm);
    DotNonnegative(left, right);
    if leftNorm != 0.0 && rightNorm != 0.0 {
      PositiveProduct(leftNorm, rightNorm);
      QuotientNonnegative(Dot(left, right), leftNorm * rightNorm);
    }
  }

  lemma QuotientNonnegative(x: real, y: real)
    requires y > 0.0 && x >= 0.0
    ensures x / y >= 0.0
  {
    var c := x / y;
    assert y * c == x;
    if c < 0.0 {
      StrictProduct(c, 0.0, y);
    }
  }

  lemma {:induction false} DotWithSelf(v: seq<real>)
    ensures Dot(v, v) == SumOfSquares(v)
  {
    if v != [] {
      DotWithSelf(v[1..]);
    }
  }

  lemma {:induction false} DotSymmetric(left: seq<real>, right: seq<real>)
    ensures Dot(left, right) == Dot(right, left)
  {
    if left != [] && right != [] {
      DotSymmetric(left[1..], right[1..]);
    }
  }

  lemma {:induction false} NonzeroHasNorm(v: seq<real>, i: nat)
    requires i < |v| && v[i] != 0.0
    ensures SumOfSquares(v) > 0.0
  {
    SquareNonnegative(v[0]);
    SumOfSquaresNonnegative(v[1..]);
    hide Square;
    SquareIs(v[0]);
    if i > 0 {
      NonzeroHasNorm(v[1..], i - 1);
    } else {
      PositiveSquare(v[0]);
    }
  }

  /** The score is the dot product divided by both norms, and 0 if a norm is. */
  lemma CosineExact(left: seq<real>, right: seq<real>, leftNorm: real, rightNorm: real)
    requires leftNorm >= 0.0 && rightNorm >= 0.0
    ensures var c := Cosine(left, right, leftNorm, rightNorm);
      if leftNorm == 0.0 || rightNorm == 0.0 then c == 0.0 else c * (leftNorm * rightNorm) == Dot(left, right)
  {
    if leftNorm != 0.0 && rightNorm != 0.0 {
      PositiveProduct(leftNorm, rightNorm);
      var n := leftNorm * rightNorm;
      var c := Dot(left, right) / n;
      assert c * n == Dot(left, right);
    }
  }

  lemma DotCons(x: real, y: real, left: seq<real>, right: seq<real>)
    ensures Dot([x] + left, [y] + right) == x * y + Dot(left, right)
  {
    assert ([x] + left)[1..] == left && ([y] + right)[1..] == right;
  }

  /** Each pair of elements adds its product, and what has no partner adds nothing. */
  lemma {:induction false} DotAppend(left: seq<real>, right: seq<real>, a: real, b: real, rest: seq<real>)
    requires |left| == |right|
    ensures Dot(left + [a], right + [b] + rest) == Dot(left, right) + a * b
    ensures Dot(left + [a] + rest, right + [b]) == Dot(left, right) + a * b
  {
    DotAppendRight(left, right, a, b, rest);
    DotAppendRight(right, left, b, a, rest);
    DotSymmetric(left + [a] + rest, right + [b]);
    DotSymmetric(left, right);
  }

  lemma {:induction false} DotAppendRight(left: seq<real>, right: seq<real>, a: real, b: real, rest: seq<real>)
    requires |left| == |right|
    ensures Dot(left + [a], right + [b] + rest) == Dot(left, right) + a * b
  {
    if left == [] {
      DotCons(a, b, [], rest);
      assert left + [a] == [a] + [] && right + [b] + rest == [b] + rest;
    } else {
      var x, y, l, r := left[0], right[0], left[1..], right[1..];
      DotAppendRight(l, r, a, b, rest);
      DotCons(x, y, l + [a], r + [b] + rest);
      assert left + [a] == [x] + (l + [a]) && right + [b] + rest == [y] + (r + [b] + rest);
    }
  }

  /** A nonzero vector is fully similar to itself. */
  lemma CosineOfSelf(v: seq<real>, i: nat, norm: real)
    requires i < |v| && v[i] != 0.0 && IsSqrt(norm, SumOfSquares(v))
    ensures Cosine(v, v, norm, norm) == 1.0
  {
    NonzeroHasNorm(v, i);
    DotWithSelf(v);
    var x := SumOfSquares(v);
    assert norm != 0.0;
    assert x / x == 1.0;
  }

  /** The score does not depend on the order of its arguments. */
  lemma CosineSymmetric(left: seq<real>, right: seq<real>, leftNorm: real, rightNorm: real)
    ensures Cosine(left, right, leftNorm, rightNorm) == Cosine(right, left, rightNorm, leftNorm)
  {
    DotSymmetric(left, right);
  }
}
