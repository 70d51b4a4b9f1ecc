/** The extended Euclidean loop that derives the lattice vectors of the endomorphism split
    (steps 1 to 3 of algorithm 3.74 of the Guide to Elliptic Curve Cryptography). */
module Endomorphism {
  import opened Congruence
  import opened Scalar

  /** The integer root of the order. */
  const ROOT: int := 0xFFFFFFFFFFFFFFFFFFFFFFFFFFFFFFFF

  /** One is this combination of lambda and the order. */
  const BEZOUT_LAMBDA: int := -0x5363AD4CC05C30E0A5261C028812645A122E22EA20816678DF02967C1B23BD73
  const BEZOUT_N: int := 0x1B29C92F436961FEDA2D80BF0132192D742F75B6E07A478C03A79CE97FCE2F77

  /** (a, b) is in the kernel of (a, b) -> a + b * lambda modulo n. */
  predicate InKernel(n: int, lambda: int, a: int, b: int)
    requires n > 0
  {
    Cong(n, a + b * lambda, 0)
  }

  /** `r = s * n + t * lambda` makes (r, -t) a kernel vector. */
  lemma RowInKernel(n: int, lambda: int, r: int, s: int, t: int)
    requires n > 0 && r == s * n + t * lambda
    ensures InKernel(n, lambda, r, -t)
  {
    assert r + (-t) * lambda == 0 + s * n;
    CongByMultiple(n, r + (-t) * lambda, 0, s);
  }

  /** Two consecutive rows of the extended Euclidean algorithm. */
  predicate Rows(n: int, lambda: int, u: int, x1: int, y1: int, v: int, x2: int, y2: int)
  {
    && u == x1 * n + y1 * lambda && v == x2 * n + y2 * lambda
    && (x1 * y2 - x2 * y1 == 1 || x1 * y2 - x2 * y1 == -1)
  }

  lemma NextRow(n: int, lambda: int, u: int, x1: int, y1: int, v: int, x2: int, y2: int, q: int)
    requires Rows(n, lambda, u, x1, y1, v, x2, y2)
    ensures Rows(n, lambda, v - q * u, x2 - q * x1, y2 - q * y1, u, x1, y1)
  {
    var s, t := x2 - q * x1, y2 - q * y1;
    assert s * n + t * lambda == x2 * n + y2 * lambda - q * (x1 * n + y1 * lambda) by {
      assert (x2 - q * x1) * n == x2 * n - q * (x1 * n);
      assert (y2 - q * y1) * lambda == y2 * lambda - q * (y1 * lambda);
    }
    assert s * y1 - x1 * t == x2 * y1 - x1 * y2 by {
      assert (x2 - q * x1) * y1 == x2 * y1 - q * (x1 * y1);
      assert x1 * (y2 - q * y1) == x1 * y2 - q * (x1 * y1);
    }
  }

  /** The determinant of the two vectors is plus or minus n, so they span the whole kernel. */
  predicate Spans(n: int, a1: int, b1: int, a2: int, b2: int)
  {
    a1 * b2 - a2 * b1 == n || a1 * b2 - a2 * b1 == -n
  }

  /** Consecutive rows span a lattice of determinant plus or minus n. */
  lemma RowDeterminant(n: int, lambda: int, u: int, x1: int, y1: int, v: int, x2: int, y2: int)
    requires Rows(n, lambda, u, x1, y1, v, x2, y2)
    ensures Spans(n, u, -y1, v, -y2) && Spans(n, v, -y2, u, -y1)
  {
    TermProduct(x1, y1, n, lambda, y2);
    TermProduct(x2, y2, n, lambda, y1);
    assert (x1 * y2 - x2 * y1) * n == (x1 * y2) * n - (x2 * y1) * n;
    assert u * y2 - v * y1 == (x1 * y2 - x2 * y1) * n;
    assert u * (-y2) == -(u * y2) && v * (-y1) == -(v * y1);
  }

  lemma TermProduct(x: int, y: int, n: int, lambda: int, z: int)
    ensures (x * n + y * lambda) * z == (x * z) * n + (y * z) * lambda
  {
    assert (x * n) * z == (x * z) * n && (y * lambda) * z == (y * z) * lambda;
  }

  lemma KernelRows(n: int, lambda: int, u: int, x1: int, y1: int, v: int, x2: int, y2: int)
    requires n > 0 && Rows(n, lambda, u, x1, y1, v, x2, y2)
    ensures InKernel(n, lambda, u, -y1) && InKernel(n, lambda, v, -y2)
  {
    RowInKernel(n, lambda, u, x1, y1);
    RowInKernel(n, lambda, v, x2, y2);
  }

  function NormSquared(r: int, t: int): int
  {
    r * r + t * t
  }

  lemma NormLeast(r: int, t: int)
    ensures NormSquared(0, 0) <= NormSquared(r, t)
  {
    SquareNonnegative(r);
    SquareNonnegative(t);
  }

  lemma SquareNonnegative(r: int)
    ensures 0 <= r * r
  {
  }

  lemma Start(n: int, lambda: int)
    requires n > 0
    ensures Rows(n, lambda, n, 1, 0, lambda, 0, 1) && Opposite(0, 1) && InKernel(n, lambda, 0, 0)
  {
  }

  /** The quotient and what is left of `v`. */
  method DivMod(v: int, u: int) returns (q: int, r: int)
    requires u > 0
    ensures r == v - q * u && 0 <= r < u && r == v % u
    ensures 0 <= v ==> 0 <= q
    ensures 0 <= v < u ==> r == v
  {
    q := v / u;
    r := v - q * u;
  }

  /** The greatest common divisor, by Euclid. */
  function Gcd(a: nat, b: nat): nat
    decreases b
  {
    if b == 0 then a else Gcd(b, a % b)
  }

  lemma {:induction false} GcdBounds(a: nat, b: nat)
    requires b > 0
    ensures 1 <= Gcd(a, b) <= b
    decreases b
  {
    if a % b > 0 {
      GcdBounds(b, a % b);
    }
  }

  /** It divides both numbers. */
  lemma {:induction false} GcdDivides(a: nat, b: nat) returns (p: int, q: int)
    ensures a == Gcd(a, b) * p && b == Gcd(a, b) * q
    decreases b
  {
    if b == 0 {
      p, q := 1, 0;
    } else {
      var p', q' := GcdDivides(b, a % b);
      p, q := a / b * p' + q', p';
      Combined(Gcd(b, a % b), a / b, p', q', b, a % b);
    }
  }

  lemma Combined(g: int, k: int, p: int, q: int, b: int, r: int)
    requires b == g * p && r == g * q
    ensures b * k + r == g * (k * p + q)
  {
    assert g * (k * p + q) == g * (k * p) + g * q;
    assert g * (k * p) == (g * p) * k;
  }

  /** Numbers with a combination equal to one have no common divisor. */
  lemma Coprime(a: nat, b: nat, s: int, t: int)
    requires s * a + t * b == 1 && b > 0
    ensures Gcd(a, b) == 1
  {
    GcdBounds(a, b);
    var g := Gcd(a, b);
    var p, q := GcdDivides(a, b);
    assert s * (g * p) == g * (s * p) && t * (g * q) == g * (t * q);
    assert g * (s * p + t * q) == 1;
    OnlyOne(g, s * p + t * q);
  }

  lemma OnlyOne(g: int, k: int)
    requires g >= 1 && g * k == 1
    ensures g == 1
  {
    FarMultiple(g, k);
  }

  /** The coefficients of lambda alternate in sign. */
  predicate Opposite(y1: int, y2: int)
  {
    y1 <= 0 <= y2 || y2 <= 0 <= y1
  }

  lemma OppositeNext(y1: int, y2: int, q: int)
    requires Opposite(y1, y2) && q >= 0
    ensures Opposite(y2 - q * y1, y1)
  {
    if y1 <= 0 {
      assert q * y1 == -(q * -y1) <= 0;
    } else {
      assert q * y1 >= 0;
    }
  }

  function Abs(x: int): nat
  {
    if x < 0 then -x else x
  }

  /** So the last coefficient is small as long as the remainder before it is large. */
  lemma ShortRow(n: int, lambda: int, u: int, x1: int, y1: int, v: int, x2: int, y2: int, least: int)
    requires Rows(n, lambda, u, x1, y1, v, x2, y2) && Opposite(y1, y2) && n > 0 && u >= 0 && v >= least > 0
    ensures Abs(y1) * least <= n
  {
    RowDeterminant(n, lambda, u, x1, y1, v, x2, y2);
    hide Rows;
    assert u * (-y2) == -(u * y2) && v * (-y1) == -(v * y1);
    assert v * Abs(y1) == Abs(v * y1);
    assert u * Abs(y2) == Abs(u * y2);
    assert v * Abs(y1) + u * Abs(y2) == n;
    assert v * Abs(y1) == least * Abs(y1) + (v - least) * Abs(y1);
  }

  /** `EndomorphismVectors`, given the root of n. Both vectors are in the kernel. They span it if and
      only if lambda is at least the root, so that there is a vector before the first short one, and the
      greatest common divisor is below it, so that the short one is not zero. Then the first vector is
      short: neither part is much above the root. */
  method EndomorphismVectors(n: int, lambda: int, nSqrt: int) returns (a1: int, b1: int, a2: int, b2: int)
    requires 0 < lambda < n
    ensures InKernel(n, lambda, a1, b1) && InKernel(n, lambda, a2, b2)
    ensures Spans(n, a1, b1, a2, b2) <==> nSqrt <= lambda && Gcd(lambda, n) < nSqrt
    ensures Spans(n, a1, b1, a2, b2) ==> 0 < a1 < nSqrt && Abs(b1) * nSqrt <= n
  {
    hide Rows, InKernel, Spans, NormSquared, Abs, Opposite, Gcd;
    var u, v := n, lambda;
    var x1, y1 := 1, 0;
    var x2, y2 := 0, 1;
    var ri, ti := 0, 0;
    a1, b1, a2, b2 := 0, 0, 0, 0;
    var found, oneMore := false, false;
    ghost var first := true;
    Start(n, lambda);
    ZeroSpansNothing(n, a1, b1);
    GcdEnds();
    while u != 0
      invariant u >= 0 && v >= 0 && Rows(n, lambda, u, x1, y1, v, x2, y2) && Opposite(y1, y2)
      invariant Gcd(v, u) == Gcd(lambda, n)
      invariant InKernel(n, lambda, a1, b1) && a2 == 0 && b2 == 0 && InKernel(n, lambda, 0, 0)
      invariant found == oneMore && !Spans(n, a1, b1, 0, 0)
      invariant first ==> !found && u == n && v == lambda && ri == 0 && ti == 0
      invariant !found && !first ==> ri == u >= nSqrt && ti == y1 && lambda >= nSqrt
      invariant found ==> !first && a1 == u < nSqrt && b1 == -y1
      invariant found && lambda >= nSqrt ==> ri == v >= nSqrt && ti == y2 && Abs(b1) * nSqrt <= n
      invariant found && lambda < nSqrt ==> ri == 0 && ti == 0 && u > 0
      decreases u
    {
      GcdBounds(v, u);
      var q, r := DivMod(v, u);
      var s := x2 - q * x1;
      var t := y2 - q * y1;
      NextFacts(n, lambda, u, x1, y1, v, x2, y2, q, r, s, t);
      v := u;
      u := r;
      x2 := x1;
      x1 := s;
      y2 := y1;
      y1 := t;
      if !found && r < nSqrt {
        a1 := r;
        b1 := -t;
        ZeroSpansNothing(n, a1, b1);
        if lambda >= nSqrt {
          ShortRow(n, lambda, u, x1, y1, v, x2, y2, nSqrt);
          AbsOpposite(t);
        }
        found, oneMore, first := true, true, false;
        continue;
      } else if oneMore {
        NormLeast(r, t);
        if NormSquared(ri, ti) <= NormSquared(r, t) {
          a2 := ri;
          b2 := -ti;
        } else {
          a2 := r;
          b2 := -t;
        }
        break;
      }
      ri := r;
      ti := t;
      first := false;
    }
  }

  /** One round of the loop. */
  lemma NextFacts(n: int, lambda: int, u: int, x1: int, y1: int, v: int, x2: int, y2: int, q: int, r: int, s: int,
      t: int)
    requires n > 0 && Rows(n, lambda, u, x1, y1, v, x2, y2) && Opposite(y1, y2) && u > 0 && v >= 0 && q >= 0
    requires r == v - q * u && r == v % u && s == x2 - q * x1 && t == y2 - q * y1
    ensures Rows(n, lambda, r, s, t, u, x1, y1) && Opposite(t, y1) && Gcd(v, u) == Gcd(u, r)
    ensures InKernel(n, lambda, r, -t) && InKernel(n, lambda, u, -y1) && InKernel(n, lambda, v, -y2)
    ensures Spans(n, u, -y1, v, -y2) && Spans(n, u, -y1, r, -t)
  {
    hide Rows, InKernel, Spans, Opposite;
    KernelRows(n, lambda, u, x1, y1, v, x2, y2);
    RowDeterminant(n, lambda, u, x1, y1, v, x2, y2);
    NextRow(n, lambda, u, x1, y1, v, x2, y2, q);
    OppositeNext(y1, y2, q);
    KernelRows(n, lambda, r, s, t, u, x1, y1);
    RowDeterminant(n, lambda, r, s, t, u, x1, y1);
  }

  lemma GcdEnds()
    ensures forall a: nat :: Gcd(a, 0) == a
  {
  }

  lemma AbsOpposite(t: int)
    ensures Abs(-t) == Abs(t)
  {
  }

  lemma ZeroSpansNothing(n: int, a: int, b: int)
    requires n > 0
    ensures !Spans(n, a, b, 0, 0)
  {
  }

  /** The order and lambda have no common divisor, and lambda is above the root of the order. */
  lemma CurveCoprime()
    ensures Gcd(LAMBDA, N) == 1 && 0 < LAMBDA < N
    ensures ROOT * ROOT <= N < (ROOT + 1) * (ROOT + 1) && 1 < ROOT <= LAMBDA
  {
    Coprime(LAMBDA, N, BEZOUT_LAMBDA, BEZOUT_N);
  }

  /** For the constants of the curve, the only ones the source runs it on, the vectors are a basis of the
      kernel, and the first is short. */
  method CurveVectors() returns (a1: int, b1: int, a2: int, b2: int)
    ensures InKernel(N, LAMBDA, a1, b1) && InKernel(N, LAMBDA, a2, b2) && Spans(N, a1, b1, a2, b2)
    ensures 0 < a1 < ROOT && Abs(b1) * ROOT <= N
  {
    CurveCoprime();
    a1, b1, a2, b2 := EndomorphismVectors(N, LAMBDA, ROOT);
  }
}
