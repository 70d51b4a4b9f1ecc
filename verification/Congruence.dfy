/** Congruence of integers modulo a positive modulus, with the facts that the field,
    point and scalar proofs share. */
module Congruence {

  /** The residue of a number: the modulus is added or taken away until the number is in range. */
  function Residue(m: int, a: int): int
    requires m > 0
    decreases if a < 0 then m - a else a
  {
    if a < 0 then Residue(m, a + m) else if a < m then a else Residue(m, a - m)
  }

  lemma {:induction false} ResidueIs(m: int, a: int)
    requires m > 0
    ensures Residue(m, a) == a % m
    decreases if a < 0 then m - a else a
  {
    if a < 0 {
      ResidueIs(m, a + m);
      ModShift(m, a, a + m);
    } else if a >= m {
      ResidueIs(m, a - m);
      ModShift(m, a - m, a);
    } else {
      ModSmall(m, a);
    }
  }

  lemma ModSmall(m: int, a: int)
    requires 0 <= a < m
    ensures a % m == a
  {
  }

  lemma ModShift(m: int, a: int, b: int)
    requires m > 0 && b == a + m
    ensures b % m == a % m
  {
    var q := b / m - a / m - 1;
    assert m * q == m * (b / m) - m * (a / m) - m;
    FarMultiple(m, q);
  }

  /** `a` and `b` have the same residue modulo `m`. */
  predicate Cong(m: int, a: int, b: int)
    requires m > 0
  {
    Residue(m, a) == Residue(m, b)
  }

  lemma CongMod(m: int, a: int, b: int)
    requires m > 0
    ensures Cong(m, a, b) <==> a % m == b % m
  {
    ResidueIs(m, a);
    ResidueIs(m, b);
  }

  lemma FarMultiple(m: int, q: int)
    requires m > 0
    ensures q >= 1 ==> m * q >= m
    ensures q <= -1 ==> m * q <= -m
  {
    if q >= 1 {
      assert m * q == m + m * (q - 1);
    } else if q <= -1 {
      assert m * q == -m - m * (-q - 1);
    }
  }

  lemma CongByMultiple(m: int, a: int, b: int, k: int)
    requires m > 0
    requires a == b + k * m
    ensures Cong(m, a, b)
  {
    var qa, ra, qb, rb := a / m, a % m, b / m, b % m;
    var q := k + qb - qa;
    assert a == m * qa + ra && b == m * qb + rb;
    assert m * q == m * k + m * qb - m * qa;
    assert ra - rb == m * q;
    FarMultiple(m, q);
    CongMod(m, a, b);
  }

  /** The quotient that witnesses a congruence. */
  lemma CongWitness(m: int, a: int, b: int) returns (k: int)
    requires m > 0
    requires Cong(m, a, b)
    ensures a == b + k * m
  {
    CongMod(m, a, b);
    k := a / m - b / m;
    assert a == m * (a / m) + a % m;
    assert b == m * (b / m) + b % m;
    assert k * m == m * (a / m) - m * (b / m);
  }

  lemma CongAdd(m: int, a: int, b: int, c: int, d: int)
    requires m > 0
    requires Cong(m, a, b) && Cong(m, c, d)
    ensures Cong(m, a + c, b + d)
    ensures Cong(m, a - c, b - d)
  {
    hide Cong;
    var k := CongWitness(m, a, b);
    var l := CongWitness(m, c, d);
    assert (k + l) * m == k * m + l * m;
    assert (k - l) * m == k * m - l * m;
    CongByMultiple(m, a + c, b + d, k + l);
    CongByMultiple(m, a - c, b - d, k - l);
  }

  lemma CongMul(m: int, a: int, b: int, c: int, d: int)
    requires m > 0
    requires Cong(m, a, b) && Cong(m, c, d)
    ensures Cong(m, a * c, b * d)
  {
    hide Cong;
    var k := CongWitness(m, a, b);
    var l := CongWitness(m, c, d);
    var q := k * c + b * l;
    assert a * c == b * d + q * m by {
      assert a * c == (b + k * m) * c == b * c + (k * m) * c;
      assert b * c == b * (d + l * m) == b * d + b * (l * m);
      assert q * m == (k * m) * c + b * (l * m);
    }
    CongByMultiple(m, a * c, b * d, q);
  }

  lemma CongSmall(m: int, a: int, b: int)
    requires m > 0
    requires 0 <= a < m && 0 <= b < m
    ensures Cong(m, a, b) <==> a == b
  {
  }
}
