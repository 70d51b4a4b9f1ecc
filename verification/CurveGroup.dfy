/** Multiples of a point, from the associativity of the group law. */
module CurveGroup {
  import opened Congruence
  import opened Limbs
  import opened FieldPower
  import opened Curve
  import opened JacobianFormulas

  /** Associativity of chord and tangent addition, a fact about the curve and not about the code. */
  ghost predicate Associative()
  {
    forall p: Point, q: Point, r: Point :: OnCurve(p) && OnCurve(q) && OnCurve(r) ==>
      Same(Add(Add(p, q), r), Add(p, Add(q, r)))
  }

  lemma SameSym(p: Point, q: Point)
    ensures Same(p, q) <==> Same(q, p)
  {
  }

  lemma SameTrans(p: Point, q: Point, r: Point)
    requires Same(p, q) && Same(q, r)
    ensures Same(p, r)
  {
  }

  lemma SameRefl(p: Point)
    ensures Same(p, p)
  {
  }

  lemma SlopeCong(rise: int, run: int, rise': int, run': int)
    requires FieldEq(rise, rise') && FieldEq(run, run')
    ensures FieldEq(rise * Inv(run), rise' * Inv(run'))
  {
    PowerCong(PRIME, run, run', PRIME - 2);
    CongMul(PRIME, rise, rise', Inv(run), Inv(run'));
  }

  lemma ThirdCong(l: int, x1: int, x2: int, y1: int, l': int, x1': int, x2': int, y1': int)
    requires FieldEq(l, l') && FieldEq(x1, x1') && FieldEq(x2, x2') && FieldEq(y1, y1')
    ensures FieldEq(ThirdX(l, x1, x2), ThirdX(l', x1', x2'))
    ensures FieldEq(ThirdY(l, x1, x2, y1), ThirdY(l', x1', x2', y1'))
  {
    hide FieldEq;
    FieldMul(l, l', l, l');
    FieldSub(l * l, l' * l', x1, x1');
    FieldSub(l * l - x1, l' * l' - x1', x2, x2');
    var x3, x3' := ThirdX(l, x1, x2), ThirdX(l', x1', x2');
    FieldSub(x1, x1', x3, x3');
    FieldMul(l, l', x1 - x3, x1' - x3');
    FieldSub(l * (x1 - x3), l' * (x1' - x3'), y1, y1');
  }

  lemma FieldNeg(a: int, b: int)
    requires FieldEq(a, b)
    ensures FieldEq(-a, -b)
  {
    CongAdd(PRIME, 0, 0, a, b);
  }

  lemma DoubleSame(p: Point, q: Point)
    requires Same(p, q)
    ensures Same(Double(p), Double(q))
  {
    hide FieldEq, ThirdX, ThirdY, Inv;
    if p.Affine? {
      FieldRefl(0);
      assert FieldEq(p.y, 0) <==> FieldEq(q.y, 0) by {
        FieldSym(p.y, q.y);
        if FieldEq(p.y, 0) { FieldTrans(q.y, p.y, 0); }
        if FieldEq(q.y, 0) { FieldTrans(p.y, q.y, 0); }
      }
      FieldRefl(3);
      FieldRefl(2);
      FieldMul(p.x, q.x, p.x, q.x);
      FieldMul(3, 3, p.x * p.x, q.x * q.x);
      FieldMul(2, 2, p.y, q.y);
      SlopeCong(3 * (p.x * p.x), 2 * p.y, 3 * (q.x * q.x), 2 * q.y);
      ThirdCong(TangentSlope(p.x, p.y), p.x, p.x, p.y, TangentSlope(q.x, q.y), q.x, q.x, q.y);
    }
  }

  lemma EqBoth(a: int, b: int, a': int, b': int)
    requires FieldEq(a, a') && FieldEq(b, b')
    ensures FieldEq(a, b) <==> FieldEq(a', b')
  {
  }

  /** Addition does not depend on representatives. */
  lemma AddSame(p: Point, q: Point, p': Point, q': Point)
    requires Same(p, p') && Same(q, q')
    ensures Same(Add(p, q), Add(p', q'))
  {
    hide FieldEq, ThirdX, ThirdY, Inv, Double;
    if p.Affine? && q.Affine? {
      EqBoth(p.x, q.x, p'.x, q'.x);
      EqBoth(p.y, q.y, p'.y, q'.y);
      DoubleSame(p, p');
      FieldSub(q.y, q'.y, p.y, p'.y);
      FieldSub(q.x, q'.x, p.x, p'.x);
      SlopeCong(q.y - p.y, q.x - p.x, q'.y - p'.y, q'.x - p'.x);
      ThirdCong(ChordSlope(p.x, p.y, q.x, q.y), p.x, q.x, p.y, ChordSlope(p'.x, p'.y, q'.x, q'.y), p'.x, q'.x, p'.y);
    }
  }

  /** The chord has the same slope from both ends. */
  lemma SlopeSymmetric(p: Point, q: Point)
    requires Fermat() && p.Affine? && q.Affine? && !FieldEq(p.x, q.x)
    ensures FieldEq(ChordSlope(p.x, p.y, q.x, q.y), ChordSlope(q.x, q.y, p.x, p.y))
  {
    hide FieldEq, Inv, Fermat;
    var l, m, d := ChordSlope(p.x, p.y, q.x, q.y), ChordSlope(q.x, q.y, p.x, p.y), q.x - p.x;
    FieldSym(p.x, q.x);
    DifferNonzero(p.x, q.x);
    DifferNonzero(q.x, p.x);
    SlopeTimesRun(q.y - p.y, d);
    SlopeTimesRun(p.y - q.y, p.x - q.x);
    assert m * (p.x - q.x) == -(m * d);
    FieldNeg(m * (p.x - q.x), p.y - q.y);
    assert FieldEq(m * d, q.y - p.y);
    FieldSub(l * d, q.y - p.y, m * d, q.y - p.y);
    assert l * d - m * d == (l - m) * d;
    NoZeroDivisors(l - m, d);
    DifferNonzero(m, l);
    FieldSym(l, m);
  }

  lemma AddCommutes(p: Point, q: Point)
    requires Fermat()
    ensures Same(Add(p, q), Add(q, p))
  {
    hide FieldEq, Inv, Fermat, Double, ChordSlope, ThirdX, ThirdY;
    SameRefl(Add(p, q));
    if p.Affine? && q.Affine? {
      FieldSym(p.x, q.x);
      FieldSym(p.y, q.y);
      if FieldEq(p.x, q.x) {
        if FieldEq(p.y, q.y) {
          DoubleSame(p, q);
        }
      } else {
        var l, m := ChordSlope(p.x, p.y, q.x, q.y), ChordSlope(q.x, q.y, p.x, p.y);
        SlopeSymmetric(p, q);
        ThirdFromOtherEnd(p, q, l);
        FieldRefl(q.x);
        FieldRefl(p.x);
        FieldRefl(q.y);
        ThirdCong(l, q.x, p.x, q.y, m, q.x, p.x, q.y);
        FieldTrans(ThirdX(l, p.x, q.x), ThirdX(l, q.x, p.x), ThirdX(m, q.x, p.x));
        FieldTrans(ThirdY(l, p.x, q.x, p.y), ThirdY(l, q.x, p.x, q.y), ThirdY(m, q.x, p.x, q.y));
      }
    }
  }

  lemma ThirdFromOtherEnd(p: Point, q: Point, l: int)
    requires Fermat() && p.Affine? && q.Affine? && !FieldEq(p.x, q.x) && l == ChordSlope(p.x, p.y, q.x, q.y)
    ensures FieldEq(ThirdX(l, p.x, q.x), ThirdX(l, q.x, p.x))
    ensures FieldEq(ThirdY(l, p.x, q.x, p.y), ThirdY(l, q.x, p.x, q.y))
  {
    hide FieldEq, Inv, Fermat, ChordSlope;
    ChordSlopeMeets(p.x, p.y, q.x, q.y);
    var x3 := ThirdX(l, p.x, q.x);
    FieldRefl(x3);
    assert ThirdX(l, q.x, p.x) == x3;
    var a, b := l * (q.x - x3), p.y + l * (q.x - p.x);
    FieldRefl(a);
    FieldSub(a, a, b, q.y);
    assert a - b == l * (p.x - x3) - p.y by {
      assert l * (q.x - x3) - l * (q.x - p.x) == l * (p.x - x3);
    }
  }

  lemma NegateOnCurve(p: Point)
    requires OnCurve(p)
    ensures OnCurve(Negate(p))
  {
    if p.Affine? {
      assert (-p.y) * (-p.y) == p.y * p.y;
    }
  }

  lemma AddInverse(p: Point)
    requires Fermat()
    ensures Same(Add(p, Negate(p)), Infinity)
  {
    hide Inv, Fermat, ThirdX, ThirdY;
    if p.Affine? && FieldEq(p.y, -p.y) {
      DifferNonzero(-p.y, p.y);
      assert p.y - (-p.y) == 2 * p.y;
      if !FieldEq(p.y, 0) {
        TwoNonzero(p.y);
      }
    }
  }

  // ---- multiples ----

  /** `k` times `p`, for any integer. */
  function Times(k: int, p: Point): Point
    decreases if k >= 0 then k else -k
  {
    if k == 0 then Infinity
    else if k > 0 then Add(Times(k - 1, p), p)
    else Add(Times(k + 1, p), Negate(p))
  }

  lemma {:induction false} TimesOnCurve(k: int, p: Point)
    requires Fermat() && OnCurve(p)
    ensures OnCurve(Times(k, p))
    decreases if k >= 0 then k else -k
  {
    hide OnCurve, Fermat, Add;
    NegateOnCurve(p);
    if k > 0 {
      TimesOnCurve(k - 1, p);
      AddOnCurve(Times(k - 1, p), p);
    } else if k < 0 {
      TimesOnCurve(k + 1, p);
      AddOnCurve(Times(k + 1, p), Negate(p));
    } else {
      InfinityOnCurve();
    }
  }

  lemma InfinityOnCurve()
    ensures OnCurve(Infinity)
  {
  }

  /** Adding a point and its opposite changes nothing. */
  lemma AddBack(q: Point, p: Point, r: Point)
    requires Fermat() && Associative() && OnCurve(q) && OnCurve(p) && OnCurve(r) && Same(Add(p, r), Infinity)
    ensures Same(Add(Add(q, p), r), q)
  {
    hide OnCurve, Fermat, FieldEq, Double, ChordSlope, ThirdX, ThirdY, Same;
    SameRefl(q);
    AddSame(q, Add(p, r), q, Infinity);
    assert Same(Add(Add(q, p), r), Add(q, Add(p, r)));
    assert Add(q, Infinity) == q;
    SameTrans(Add(Add(q, p), r), Add(q, Add(p, r)), q);
  }

  /** One step up or down, for every integer. */
  lemma TimesStep(k: int, p: Point)
    requires Fermat() && Associative() && OnCurve(p)
    ensures Same(Times(k + 1, p), Add(Times(k, p), p))
    ensures Same(Times(k - 1, p), Add(Times(k, p), Negate(p)))
  {
    hide OnCurve, Fermat, FieldEq, Add, Same, Associative;
    NegateOnCurve(p);
    SameRefl(Times(k + 1, p));
    SameRefl(Times(k - 1, p));
    AddInverse(p);
    AddCommutes(Negate(p), p);
    SameTrans(Add(Negate(p), p), Add(p, Negate(p)), Infinity);
    if k < 0 {
      TimesOnCurve(k + 1, p);
      AddBack(Times(k + 1, p), Negate(p), p);
      SameSym(Times(k + 1, p), Add(Times(k, p), p));
    }
    if k > 0 {
      TimesOnCurve(k - 1, p);
      AddBack(Times(k - 1, p), p, Negate(p));
      SameSym(Times(k - 1, p), Add(Times(k, p), Negate(p)));
    }
  }

  lemma AddZero(p: Point)
    ensures Add(p, Infinity) == p
  {
  }

  lemma Reassociate(p: Point, q: Point, r: Point)
    requires Associative() && OnCurve(p) && OnCurve(q) && OnCurve(r)
    ensures Same(Add(Add(p, q), r), Add(p, Add(q, r)))
  {
  }

  /** Multiples add up. */
  lemma {:induction false} TimesSum(a: int, b: int, p: Point)
    requires Fermat() && Associative() && OnCurve(p)
    ensures Same(Times(a + b, p), Add(Times(a, p), Times(b, p)))
    decreases if b >= 0 then b else -b
  {
    hide OnCurve, Fermat, FieldEq, Same, Add, Associative;
    if b == 0 {
      SameRefl(Times(a, p));
      AddZero(Times(a, p));
    } else {
      var c := if b > 0 then b - 1 else b + 1;
      var d := if b > 0 then p else Negate(p);
      NegateOnCurve(p);
      TimesOnCurve(a, p);
      TimesOnCurve(c, p);
      TimesSum(a, c, p);
      TimesStep(a + c, p);
      SameRefl(d);
      AddSame(Times(a + c, p), d, Add(Times(a, p), Times(c, p)), d);
      SameTrans(Times(a + b, p), Add(Times(a + c, p), d), Add(Add(Times(a, p), Times(c, p)), d));
      Reassociate(Times(a, p), Times(c, p), d);
      SameTrans(Times(a + b, p), Add(Add(Times(a, p), Times(c, p)), d), Add(Times(a, p), Add(Times(c, p), d)));
      assert Times(b, p) == Add(Times(c, p), d);
    }
  }

  /** Multiples of the order vanish. */
  lemma {:induction false} TimesOrder(n: int, t: int, p: Point)
    requires Fermat() && Associative() && OnCurve(p) && Same(Times(n, p), Infinity)
    ensures Same(Times(t * n, p), Infinity)
    decreases if t >= 0 then t else -t
  {
    hide OnCurve, Fermat, FieldEq, Add, Associative;
    if t > 0 {
      TimesOrder(n, t - 1, p);
      assert t * n == (t - 1) * n + n;
      TimesSum((t - 1) * n, n, p);
      AddInfinities(Times((t - 1) * n, p), Times(n, p));
    } else if t < 0 {
      TimesOrder(n, t + 1, p);
      assert (t + 1) * n == t * n + n;
      TimesSum(t * n, n, p);
      RightInfinity(Times(t * n, p), Times(n, p));
    } else {
      assert t * n == 0;
    }
  }

  lemma AddInfinities(p: Point, q: Point)
    requires Same(p, Infinity) && Same(q, Infinity)
    ensures Same(Add(p, q), Infinity)
  {
  }

  lemma RightInfinity(p: Point, q: Point)
    requires Same(q, Infinity)
    ensures Add(p, q) == p
  {
  }

  /** Scalars that agree modulo the order give the same multiple. */
  lemma TimesCong(n: int, a: int, b: int, p: Point)
    requires n > 0 && Fermat() && Associative() && OnCurve(p) && Same(Times(n, p), Infinity) && Cong(n, a, b)
    ensures Same(Times(a, p), Times(b, p))
  {
    hide OnCurve, Fermat, FieldEq, Add, Associative, Times;
    var k := CongWitness(n, a, b);
    TimesOrder(n, k, p);
    TimesSum(b, k * n, p);
    RightInfinity(Times(b, p), Times(k * n, p));
  }

  lemma DoubleIsTwice(q: Point)
    ensures Double(q) == Add(q, q)
  {
  }
}
