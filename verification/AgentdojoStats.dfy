/** The two-proportion test of the injection benchmark
    (scripts/agentdojo_bench.py), over exact reals.  The test's p-value is a
    function of the squared statistic alone, so that is what is returned;
    erfc and the rounding of its result are not part of this model. */
module AgentdojoStats {

  /** 1.0 outright, or the probability of a squared statistic. */
  datatype PValue = Certain | OfSquare(z2: real)

  /** The variance under the pooled share, the square of the standard error. */
  function Variance(a: nat, na: nat, b: nat, nb: nat): real
    requires na > 0 && nb > 0
  {
    var p := (a + b) as real / (na + nb) as real;
    p * (1.0 - p) * (1.0 / na as real + 1.0 / nb as real)
  }

  function Difference(a: nat, na: nat, b: nat, nb: nat): real
    requires na > 0 && nb > 0
  {
    a as real / na as real - b as real / nb as real
  }

  function TwoProportionP(a: nat, na: nat, b: nat, nb: nat): PValue {
    if na == 0 || nb == 0 then Certain
    else if Variance(a, na, b, nb) == 0.0 then Certain
    else OfSquare(SquareZ(a, na, b, nb))
  }

  function SquareZ(a: nat, na: nat, b: nat, nb: nat): real
    requires na > 0 && nb > 0 && Variance(a, na, b, nb) != 0.0
  {
    var d := Difference(a, na, b, nb);
    d * d / Variance(a, na, b, nb)
  }

  /* ---- the reference: Pearson's statistic of the 2x2 table ---- */

  function Expected(row: nat, column: nat, total: nat): real
    requires total > 0
  {
    row as real * column as real / total as real
  }

  function Cell(observed: nat, row: nat, column: nat, total: nat): real
    requires row > 0 && column > 0 && total > 0
  {
    Positive(row as real * column as real, total as real, row as real, column as real);
    var e := Expected(row, column, total);
    (observed as real - e) * (observed as real - e) / e
  }

  lemma Positive(x: real, y: real, r: real, c: real)
    requires r > 0.0 && c > 0.0 && x == r * c && y > 0.0
    ensures x / y > 0.0
  {
  }

  /** The sum over the four cells of (observed - expected)^2 / expected: the
      successes and failures of each group, without a continuity correction. */
  function ChiSquare(a: nat, na: nat, b: nat, nb: nat): real
    requires a <= na && b <= nb && na > 0 && nb > 0 && 0 < a + b < na + nb
  {
    var won, lost, total := a + b, na + nb - a - b, na + nb;
    Cell(a, na, won, total) + Cell(na - a, na, lost, total) + Cell(b, nb, won, total) + Cell(nb - b, nb, lost, total)
  }

  /* ---- algebra ---- */

  lemma Cancel(x: real, y: real, k: real)
    requires k != 0.0 && x * k == y * k
    ensures x == y
  {
    assert (x - y) * k == 0.0;
  }

  lemma Product(x: real, y: real)
    requires x > 0.0 && y > 0.0
    ensures x * y > 0.0
  {
  }

  lemma DifferenceFraction(a: real, x: real, b: real, y: real)
    requires x > 0.0 && y > 0.0
    ensures (a / x - b / y) * (x * y) == a * y - b * x
  {
    var q, r := a / x, b / y;
    assert q * x == a && r * y == b;
    calc {
      (q - r) * (x * y);
      (q * x) * y - (r * y) * x;
      a * y - b * x;
    }
  }

  lemma VarianceFraction(m: real, n: real, x: real, y: real)
    requires x > 0.0 && y > 0.0 && n == x + y
    ensures m / n * (1.0 - m / n) * (1.0 / x + 1.0 / y) * (n * (x * y)) == m * (n - m)
  {
    var p, i, j := m / n, 1.0 / x, 1.0 / y;
    assert p * n == m && i * x == 1.0 && j * y == 1.0;
    assert (i + j) * (x * y) == n by {
      assert (i + j) * (x * y) == (i * x) * y + (j * y) * x;
    }
    assert (1.0 - p) * n == n - m;
    calc {
      p * (1.0 - p) * (i + j) * (n * (x * y));
      p * (1.0 - p) * n * ((i + j) * (x * y));
      p * (1.0 - p) * n * n;
      (p * n) * ((1.0 - p) * n);
      m * (n - m);
    }
  }

  /* ---- the results ---- */

  /** The observed count times N, less row times column. */
  function Distance(observed: nat, row: nat, column: nat, total: nat): real {
    observed as real * total as real - row as real * column as real
  }

  function Weight(row: nat, column: nat, total: nat): real {
    total as real * row as real * column as real
  }

  /** One cell of Pearson's sum. */
  lemma CellIs(observed: nat, row: nat, column: nat, total: nat, d: real)
    requires row > 0 && column > 0 && total > 0
    requires Distance(observed, row, column, total) == d || Distance(observed, row, column, total) == -d
    ensures Scaled(Cell(observed, row, column, total), Weight(row, column, total), d * d)
  {
    var o, r, c, n := observed as real, row as real, column as real, total as real;
    Product(r, c);
    var rc := r * c;
    var e := rc / n;
    assert e * n == rc;
    Positive(rc, n, r, c);
    var z := (o - e) * (o - e) / e;
    assert z * e == (o - e) * (o - e);
    assert (o - e) * n == o * n - rc;
    calc {
      z * (n * r * c);
      z * (n * (e * n));
      (z * e) * (n * n);
      ((o - e) * n) * ((o - e) * n);
      (o * n - rc) * (o * n - rc);
      d * d;
    }
  }

  predicate Scaled(x: real, w: real, total: real) {
    x * w == total
  }

  predicate Triple(w: real, n: real, x: real, m: real) {
    w == n * x * m
  }

  predicate Quadruple(k: real, x: real, y: real, m: real, l: real) {
    k == x * y * m * l
  }

  predicate SquareTimes(v: real, d: real, n: real) {
    v == d * d * n
  }

  /** One cell's part of the sum, over the product of the margins. */
  lemma CellPart(p: real, w: real, n: real, x: real, m: real, y: real, l: real, dd: real, margins: real)
    requires p * w == dd && w == n * x * m && margins == x * y * m * l
    ensures p * margins * n == dd * (y * l)
  {
    calc {
      p * margins * n;
      p * (x * y * m * l) * n;
      p * (n * x * m) * (y * l);
      (p * w) * (y * l);
      dd * (y * l);
    }
  }

  lemma Expand(x: real, y: real, m: real, l: real)
    ensures y * l + y * m + x * l + x * m == (x + y) * (m + l)
  {
  }

  lemma Distribute(dd: real, a: real, b: real, c: real, d: real, n: real, numerator: real)
    requires a + b + c + d == n * n && numerator == dd * n
    ensures dd * a + dd * b + dd * c + dd * d == numerator * n
  {
    assert dd * a + dd * b + dd * c + dd * d == dd * (a + b + c + d);
  }

  lemma FourCells(x: real, y: real, m: real, l: real, n: real, d: real,
                  p: real, q: real, r: real, s: real, wp: real, wq: real, wr: real, ws: real,
                  margins: real, chi: real, numerator: real)
    requires chi == p + q + r + s && SquareTimes(numerator, d, n)
    requires Quadruple(margins, x, y, m, l) && n > 0.0 && n == x + y == m + l
    requires Triple(wp, n, x, m) && Triple(wq, n, x, l) && Triple(wr, n, y, m) && Triple(ws, n, y, l)
    requires Scaled(p, wp, d * d) && Scaled(q, wq, d * d) && Scaled(r, wr, d * d) && Scaled(s, ws, d * d)
    ensures Scaled(chi, margins, numerator)
  {
    var dd := d * d;
    assert margins == x * y * l * m == y * x * m * l == y * x * l * m;
    CellPart(p, wp, n, x, m, y, l, dd, margins);
    CellPart(q, wq, n, x, l, y, m, dd, margins);
    CellPart(r, wr, n, y, m, x, l, dd, margins);
    CellPart(s, ws, n, y, l, x, m, dd, margins);
    Expand(x, y, m, l);
    Distribute(dd, y * l, y * m, x * l, x * m, n, numerator);
    SumOver(p, q, r, s, margins, n, chi);
    Cancel(chi * margins, numerator, n);
  }

  lemma SumOver(p: real, q: real, r: real, s: real, k: real, n: real, chi: real)
    requires chi == p + q + r + s
    ensures chi * k * n == p * k * n + q * k * n + r * k * n + s * k * n
  {
  }

  /** N D^2, where D = a nb - b na. */
  function Numerator(a: nat, na: nat, b: nat, nb: nat): real {
    var d := a as real * nb as real - b as real * na as real;
    d * d * (na + nb) as real
  }

  /** The product of the table's four margins. */
  function Margins(a: nat, na: nat, b: nat, nb: nat): real
    requires a <= na && b <= nb
  {
    na as real * nb as real * (a + b) as real * (na + nb - a - b) as real
  }

  function Sizes(na: nat, nb: nat): real {
    na as real * nb as real
  }

  function Outcomes(a: nat, na: nat, b: nat, nb: nat): real
    requires a <= na && b <= nb
  {
    (a + b) as real * (na + nb - a - b) as real
  }

  /** D = a nb - b na. */
  function Cross(a: nat, na: nat, b: nat, nb: nat): real {
    a as real * nb as real - b as real * na as real
  }

  lemma DifferenceIs(a: nat, na: nat, b: nat, nb: nat)
    requires na > 0 && nb > 0
    ensures Difference(a, na, b, nb) * Sizes(na, nb) == Cross(a, na, b, nb)
  {
    DifferenceFraction(a as real, na as real, b as real, nb as real);
  }

  lemma VarianceIs(a: nat, na: nat, b: nat, nb: nat)
    requires a <= na && b <= nb && na > 0 && nb > 0
    ensures Variance(a, na, b, nb) * ((na + nb) as real * Sizes(na, nb)) == Outcomes(a, na, b, nb)
  {
    VarianceFraction((a + b) as real, (na + nb) as real, na as real, nb as real);
  }

  lemma TermsAre(a: nat, na: nat, b: nat, nb: nat)
    requires a <= na && b <= nb
    ensures Margins(a, na, b, nb) == Outcomes(a, na, b, nb) * Sizes(na, nb)
    ensures Numerator(a, na, b, nb) == Cross(a, na, b, nb) * Cross(a, na, b, nb) * (na + nb) as real
  {
  }

  lemma FactorsPositive(a: nat, na: nat, b: nat, nb: nat)
    requires a <= na && b <= nb && na > 0 && nb > 0 && 0 < a + b < na + nb
    ensures Sizes(na, nb) > 0.0 && Outcomes(a, na, b, nb) > 0.0
  {
    Product(na as real, nb as real);
    Product((a + b) as real, (na + nb - a - b) as real);
  }

  lemma TermsPositive(a: nat, na: nat, b: nat, nb: nat)
    requires a <= na && b <= nb && na > 0 && nb > 0 && 0 < a + b < na + nb
    ensures Sizes(na, nb) > 0.0 && Outcomes(a, na, b, nb) > 0.0 && Margins(a, na, b, nb) > 0.0
  {
    hide Sizes, Outcomes, Margins, Cross, Numerator;
    FactorsPositive(a, na, b, nb);
    TermsAre(a, na, b, nb);
    Product(Outcomes(a, na, b, nb), Sizes(na, nb));
  }

  lemma Factor(v: real, w: real, u: real)
    requires v * w == u && w > 0.0 && u > 0.0
    ensures v > 0.0
  {
  }

  lemma VariancePositive(a: nat, na: nat, b: nat, nb: nat)
    requires a <= na && b <= nb && na > 0 && nb > 0 && 0 < a + b < na + nb
    ensures Variance(a, na, b, nb) > 0.0
  {
    hide Variance, Sizes, Outcomes;
    VarianceIs(a, na, b, nb);
    TermsPositive(a, na, b, nb);
    var n, t := (na + nb) as real, Sizes(na, nb);
    Product(n, t);
    Factor(Variance(a, na, b, nb), n * t, Outcomes(a, na, b, nb));
  }

  lemma SquareZTimes(a: nat, na: nat, b: nat, nb: nat)
    requires na > 0 && nb > 0 && Variance(a, na, b, nb) != 0.0
    ensures SquareZ(a, na, b, nb) * Variance(a, na, b, nb) == Difference(a, na, b, nb) * Difference(a, na, b, nb)
  {
    hide Variance, Difference;
  }

  lemma Combined(z: real, v: real, delta: real, t: real, u: real, d: real, n: real, margins: real, numerator: real)
    requires z * v == delta * delta && delta * t == d && v * (n * t) == u && margins == u * t && numerator == d * d * n
    ensures z * margins == numerator
  {
    calc {
      z * margins;
      z * (v * (n * t) * t);
      (z * v) * (n * t * t);
      (delta * delta) * (n * t * t);
      (delta * t) * (delta * t) * n;
      numerator;
    }
  }

  /** The squared statistic is N D^2 over the product of the margins. */
  lemma SquareOfZ(a: nat, na: nat, b: nat, nb: nat)
    requires a <= na && b <= nb && na > 0 && nb > 0 && 0 < a + b < na + nb
    ensures Variance(a, na, b, nb) > 0.0 && SquareZ(a, na, b, nb) * Margins(a, na, b, nb) == Numerator(a, na, b, nb)
  {
    hide Variance, Difference, SquareZ, Sizes, Outcomes, Cross, Margins, Numerator;
    VariancePositive(a, na, b, nb);
    SquareZTimes(a, na, b, nb);
    DifferenceIs(a, na, b, nb);
    VarianceIs(a, na, b, nb);
    TermsAre(a, na, b, nb);
    Combined(SquareZ(a, na, b, nb), Variance(a, na, b, nb), Difference(a, na, b, nb), Sizes(na, nb), Outcomes(a, na, b, nb),
             Cross(a, na, b, nb), (na + nb) as real, Margins(a, na, b, nb), Numerator(a, na, b, nb));
  }

  /** Each cell's observed count times N, less row times column, is D or -D. */
  lemma CellDistances(a: real, x: real, b: real, y: real, m: real, l: real, n: real, xa: real, yb: real, d: real)
    requires m == a + b && l == x + y - a - b && n == x + y && xa == x - a && yb == y - b && d == a * y - b * x
    ensures a * n - x * m == d && xa * n - x * l == -d && b * n - y * m == -d && yb * n - y * l == d
  {
  }

  lemma Distances(a: nat, na: nat, b: nat, nb: nat, d: real)
    requires a <= na && b <= nb && d == a as real * nb as real - b as real * na as real
    ensures var won, lost, total := a + b, na + nb - a - b, na + nb;
            && Distance(a, na, won, total) == d && Distance(na - a, na, lost, total) == -d
            && Distance(b, nb, won, total) == -d && Distance(nb - b, nb, lost, total) == d
  {
    var won, lost, total := a + b, na + nb - a - b, na + nb;
    CellDistances(a as real, na as real, b as real, nb as real, won as real, lost as real, total as real,
                  (na - a) as real, (nb - b) as real, d);
  }

  lemma ChiSquareOf(a: nat, na: nat, b: nat, nb: nat)
    requires a <= na && b <= nb && na > 0 && nb > 0 && 0 < a + b < na + nb
    ensures Scaled(ChiSquare(a, na, b, nb), Margins(a, na, b, nb), Numerator(a, na, b, nb))
  {
    hide Cell, Distance, Weight, Margins, Numerator, Scaled;
    var won, lost, total := a + b, na + nb - a - b, na + nb;
    var d := a as real * nb as real - b as real * na as real;
    Distances(a, na, b, nb, d);
    CellIs(a, na, won, total, d);
    CellIs(na - a, na, lost, total, d);
    CellIs(b, nb, won, total, d);
    CellIs(nb - b, nb, lost, total, d);
    FourCellsOf(a, na, b, nb, d, Cell(a, na, won, total), Cell(na - a, na, lost, total),
                Cell(b, nb, won, total), Cell(nb - b, nb, lost, total), ChiSquare(a, na, b, nb));
  }

  lemma FourCellsOf(a: nat, na: nat, b: nat, nb: nat, d: real, p: real, q: real, r: real, s: real, chi: real)
    requires a <= na && b <= nb && na > 0 && nb > 0 && 0 < a + b < na + nb
    requires d == a as real * nb as real - b as real * na as real && chi == p + q + r + s
    requires var won, lost, total := a + b, na + nb - a - b, na + nb;
             && Scaled(p, Weight(na, won, total), d * d) && Scaled(q, Weight(na, lost, total), d * d)
             && Scaled(r, Weight(nb, won, total), d * d) && Scaled(s, Weight(nb, lost, total), d * d)
    ensures Scaled(chi, Margins(a, na, b, nb), Numerator(a, na, b, nb))
  {
    hide Weight, Margins, Numerator, Scaled, Triple, Quadruple, SquareTimes;
    var won, lost, total := a + b, na + nb - a - b, na + nb;
    WeightIs(na, won, total);
    WeightIs(na, lost, total);
    WeightIs(nb, won, total);
    WeightIs(nb, lost, total);
    InReals(a, na, b, nb, d);
    FourCells(na as real, nb as real, won as real, lost as real, total as real, d, p, q, r, s,
              Weight(na, won, total), Weight(na, lost, total), Weight(nb, won, total), Weight(nb, lost, total),
              Margins(a, na, b, nb), chi, Numerator(a, na, b, nb));
  }

  lemma WeightIs(row: nat, column: nat, total: nat)
    ensures Triple(Weight(row, column, total), total as real, row as real, column as real)
  {
  }

  lemma InReals(a: nat, na: nat, b: nat, nb: nat, d: real)
    requires a <= na && b <= nb && d == a as real * nb as real - b as real * na as real
    ensures Quadruple(Margins(a, na, b, nb), na as real, nb as real, (a + b) as real, (na + nb - a - b) as real)
    ensures SquareTimes(Numerator(a, na, b, nb), d, (na + nb) as real)
  {
  }

  /** Where it is defined, the squared statistic is the 2x2 chi-square without
      continuity correction. */
  lemma SquareIsChiSquare(a: nat, na: nat, b: nat, nb: nat)
    requires a <= na && b <= nb && na > 0 && nb > 0 && 0 < a + b < na + nb
    ensures TwoProportionP(a, na, b, nb) == OfSquare(ChiSquare(a, na, b, nb))
  {
    hide Variance, SquareZ, ChiSquare, Margins, Numerator;
    SquareOfZ(a, na, b, nb);
    ChiSquareOf(a, na, b, nb);
    TermsPositive(a, na, b, nb);
    Cancel(SquareZ(a, na, b, nb), ChiSquare(a, na, b, nb), Margins(a, na, b, nb));
  }

  /** The test says 1.0 outright exactly when a group is empty, or no run or
      every run succeeded; the root is never of a negative number. */
  lemma GuardExact(a: nat, na: nat, b: nat, nb: nat)
    requires a <= na && b <= nb
    ensures na > 0 && nb > 0 ==> Variance(a, na, b, nb) >= 0.0
    ensures TwoProportionP(a, na, b, nb) == Certain
            <==> na == 0 || nb == 0 || a + b == 0 || (a == na && b == nb)
  {
    if na == 0 || nb == 0 {
    } else if 0 < a + b < na + nb {
      SquareOfZ(a, na, b, nb);
    } else {
      assert a + b == 0 ==> (a + b) as real / (na + nb) as real == 0.0;
      assert a + b == na + nb ==> (a + b) as real / (na + nb) as real == 1.0;
    }
  }

  /** It does not matter which group is named first. */
  lemma Symmetric(a: nat, na: nat, b: nat, nb: nat)
    ensures TwoProportionP(a, na, b, nb) == TwoProportionP(b, nb, a, na)
  {
    if na > 0 && nb > 0 {
      var d := Difference(a, na, b, nb);
      assert Difference(b, nb, a, na) == -d;
      assert (-d) * (-d) == d * d;
      assert (a + b) as real == (b + a) as real && (na + nb) as real == (nb + na) as real;
      assert 1.0 / na as real + 1.0 / nb as real == 1.0 / nb as real + 1.0 / na as real;
    }
  }
}
