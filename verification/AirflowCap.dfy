/** `getMaxRpm` inverts the fan curve, and keeping to its answer honours the limit. */
module AirflowCap {
  import opened Basics
  import opened Airflow

  /** A curve that rises. */
  predicate Rising(c: Curve) {
    0.0 <= c.c1 <= c.c2 && c.maxCFM >= 0.0
  }

  /** Some duty from 1 to 100 percent lands on the 0/0 of the interpolation. */
  predicate Degenerate(c: Curve) {
    c.tachMin == c.tachMax && 1.0 <= c.tachMin <= 100.0 && c.tachMin.Floor as real == c.tachMin
  }

  // ----- Arithmetic -----

  lemma ScaleMonotone(k: real, a: real, b: real)
    requires k >= 0.0 && a <= b
    ensures k * a <= k * b
  {
  }

  lemma DivideMonotone(a: real, b: real, d: real)
    requires d > 0.0 && a <= b
    ensures a / d <= b / d
  {
    var p, q := a / d, b / d;
    assert p * d == a && q * d == b;
    assert (p - q) * d == p * d - q * d;
    FactorNotPositive(p - q, d);
  }

  lemma ProductMonotone(a: real, b: real, x: real, y: real)
    requires 0.0 <= a <= b && x <= y && 0.0 <= y
    ensures a * x <= b * y && 0.0 <= b * y
  {
    ScaleMonotone(a, x, y);
    ScaleMonotone(y, a, b);
    ScaleMonotone(b, 0.0, y);
  }

  lemma TripleMonotone(a: real, b: real, m: real, x: real, y: real)
    requires 0.0 <= a <= b && 0.0 <= m && 0.0 <= x <= y
    ensures Air(a, m, x) <= Air(b, m, y) && 0.0 <= Air(b, m, y)
  {
    ProductMonotone(a, b, m, m);
    ProductMonotone(a, a, m, m);
    ProductMonotone(a * m, b * m, x, y);
  }

  lemma TripleSigns(a: real, b: real, m: real, x: real, y: real)
    requires 0.0 <= a && 0.0 <= b && 0.0 <= m && x <= 0.0 <= y
    ensures Air(a, m, x) <= 0.0 <= Air(b, m, y)
  {
    ProductMonotone(a, a, m, m);
    ProductMonotone(b, b, m, m);
    ScaleMonotone(a * m, x, 0.0);
    ScaleMonotone(b * m, 0.0, y);
  }

  lemma FactorNotPositive(u: real, d: real)
    requires d > 0.0 && u * d <= 0.0
    ensures u <= 0.0
  {
  }

  lemma DivideAtMost(a: real, k: real, d: real)
    requires d > 0.0 && a <= k * d
    ensures a / d <= k
  {
    var q := a / d;
    assert q * d == a;
    assert (q - k) * d == q * d - k * d;
    FactorNotPositive(q - k, d);
  }

  /** The interpolated part stays within 0 and C2 - C1 and grows with the duty. */
  lemma ShareMonotone(k: real, u: real, v: real, d: real)
    requires k >= 0.0 && d > 0.0 && 0.0 <= u <= v <= d
    ensures 0.0 <= Share(k, u, d) <= Share(k, v, d) <= k
  {
    ScaleMonotone(k, 0.0, u);
    ScaleMonotone(k, u, v);
    ScaleMonotone(k, v, d);
    DivideMonotone(0.0, k * u, d);
    DivideMonotone(k * u, k * v, d);
    DivideAtMost(k * v, k, d);
  }

  // ----- The curve is monotone -----

  predicate Defined(c: Curve, x: real) {
    Coefficient(c, x).Num?
  }

  lemma CoefficientNotNegative(c: Curve, x: real)
    requires Rising(c) && Defined(c, x)
    ensures Coefficient(c, x).val >= 0.0
  {
    if x != 0.0 && c.tachMin <= x <= c.tachMax {
      ShareMonotone(c.c2 - c.c1, x - c.tachMin, x - c.tachMin, c.tachMax - c.tachMin);
    }
  }

  lemma CoefficientMonotone(c: Curve, x: real, y: real)
    requires Rising(c) && 0.0 < x <= y && Defined(c, x) && Defined(c, y)
    ensures Coefficient(c, x).val <= Coefficient(c, y).val
  {
    var rise, whole := c.c2 - c.c1, c.tachMax - c.tachMin;
    if c.tachMin <= x <= c.tachMax {
      ShareMonotone(rise, x - c.tachMin, x - c.tachMin, whole);
    }
    if c.tachMin <= y <= c.tachMax {
      ShareMonotone(rise, if c.tachMin <= x then x - c.tachMin else 0.0, y - c.tachMin, whole);
    }
  }

  /** A fan at a lower duty never moves more air; a negative reading moves none. */
  lemma FlowMonotone(c: Curve, x: real, y: real)
    requires Rising(c) && x <= y && 0.0 <= y && Defined(c, x) && Defined(c, y)
    ensures Flow(c, x).AtMost(Flow(c, y)) && Flow(c, y).val >= 0.0
  {
    var a, b := Coefficient(c, x).val, Coefficient(c, y).val;
    CoefficientNotNegative(c, x);
    CoefficientNotNegative(c, y);
    if 0.0 < x {
      CoefficientMonotone(c, x, y);
      TripleMonotone(a, b, c.maxCFM, x, y);
    } else {
      TripleSigns(a, b, c.maxCFM, x, y);
    }
  }

  lemma TotalFlowMonotone(c: Curve, n: nat, p: nat, q: nat)
    requires Rising(c) && p <= q && Defined(c, p as real) && Defined(c, q as real)
    ensures TotalFlow(c, n, p).AtMost(TotalFlow(c, n, q))
  {
    FlowMonotone(c, p as real, q as real);
    ScaleMonotone(n as real, Flow(c, p as real).val, Flow(c, q as real).val);
    DivideMonotone(Flow(c, p as real).val * n as real, Flow(c, q as real).val * n as real, 100.0);
  }

  // ----- The cap -----

  /** Whatever the curve, the search returns a duty that is within the limit (or stands on the
      0/0 of a degenerate curve), and every higher duty is over it. */
  lemma SearchIsMaximal(c: Curve, n: nat, limit: nat)
    requires limit > 0
    ensures MaxRpm(c, n, limit) <= 100
    ensures TotalFlow(c, n, MaxRpm(c, n, limit)).AtMost(Num(limit as real)) || TotalFlow(c, n, MaxRpm(c, n, limit)).NaN?
    ensures forall q :: MaxRpm(c, n, limit) < q <= 100 ==> Num(limit as real).Less(TotalFlow(c, n, q))
  {
    if MaxRpm(c, n, limit) == 0 {
      assert Flow(c, 0.0) == Num(0.0);
      assert TotalFlow(c, n, 0) == Num(0.0);
    }
  }

  lemma NoDutyIsUndefined(c: Curve, p: nat)
    requires !Degenerate(c) && p <= 100
    ensures Defined(c, p as real)
  {
    if c.tachMin == c.tachMax == p as real {
      assert c.tachMin.Floor == p;
    }
  }

  lemma InvertsAt(c: Curve, n: nat, limit: nat, p: nat)
    requires Rising(c) && !Degenerate(c) && limit > 0 && p <= 100
    ensures TotalFlow(c, n, p).AtMost(Num(limit as real)) <==> p <= MaxRpm(c, n, limit)
  {
    SearchIsMaximal(c, n, limit);
    NoDutyIsUndefined(c, p);
    NoDutyIsUndefined(c, MaxRpm(c, n, limit));
    if p <= MaxRpm(c, n, limit) {
      TotalFlowMonotone(c, n, p, MaxRpm(c, n, limit));
    }
  }

  /** A duty is within the airflow limit exactly when it is at most the returned one: this holds
      for every duty on a rising curve that no duty makes degenerate, and only then. */
  lemma CapInvertsCurve(c: Curve, n: nat, limit: nat)
    requires Rising(c) && limit > 0
    ensures (forall p :: 0 <= p <= 100 ==>
              (TotalFlow(c, n, p).AtMost(Num(limit as real)) <==> p <= MaxRpm(c, n, limit)))
      <==> !Degenerate(c)
  {
    if Degenerate(c) {
      SearchIsMaximal(c, n, limit);
      assert TotalFlow(c, n, c.tachMin.Floor).NaN?;
    } else {
      forall p | 0 <= p <= 100 ensures TotalFlow(c, n, p).AtMost(Num(limit as real)) <==> p <= MaxRpm(c, n, limit) {
        InvertsAt(c, n, limit, p);
      }
    }
  }

  const FLAT_CURVE := Curve(1.0, 1.0, 1000.0, 50.0, 50.0)

  lemma FlatFlow(p: nat)
    requires p != 50
    ensures TotalFlow(FLAT_CURVE, 1, p) == Num(10.0 * p as real)
  {
    assert Flow(FLAT_CURVE, p as real) == Num(1000.0 * p as real);
  }

  /** What goes wrong: here 50 percent is returned for a limit of 100 although 40 percent moves 400. */
  lemma DegenerateExample()
    ensures Rising(FLAT_CURVE) && Degenerate(FLAT_CURVE)
    ensures MaxRpm(FLAT_CURVE, 1, 100) == 50 && TotalFlow(FLAT_CURVE, 1, 40) == Num(400.0)
  {
    var r := MaxRpm(FLAT_CURVE, 1, 100);
    SearchIsMaximal(FLAT_CURVE, 1, 100);
    FlatFlow(40);
    assert TotalFlow(FLAT_CURVE, 1, 50).NaN?;
    if r != 50 {
      FlatFlow(r);
    }
  }

  /** All readings that count are at or below `top` percent. */
  predicate AllAtMost(t: Tachs, names: seq<string>, top: real) {
    forall name :: name in names && Percent(t, name).Some? ==> Percent(t, name).value <= top
  }

  function Repeated(f: real, n: nat): real {
    if n == 0 then 0.0 else Repeated(f, n - 1) + f
  }

  lemma OneMore(f: real, n: real)
    ensures f * (n + 1.0) == f * n + f
  {
  }

  lemma {:induction false} RepeatedIsProduct(f: real, n: nat)
    ensures Repeated(f, n) == f * n as real
  {
    if n > 0 {
      RepeatedIsProduct(f, n - 1);
      OneMore(f, (n - 1) as real);
    }
  }

  /** If no fan that counts moves more than `f`, the sum is at most `f` per fan. */
  lemma {:induction false} SumWithinCap(flow: real -> Double, t: Tachs, names: seq<string>, top: real, f: real)
    requires f >= 0.0 && forall x :: x <= top ==> flow(x).AtMost(Num(f))
    requires AllAtMost(t, names, top) && SumFlow(flow, t, names).Some?
    ensures SumFlow(flow, t, names).value.AtMost(Num(Repeated(f, |names|)))
  {
    if names != [] {
      var init, name := names[..|names| - 1], names[|names| - 1];
      assert name in names && forall n :: n in init ==> n in names;
      SumWithinCap(flow, t, init, top, f);
    }
  }

  /** No reading that `getMaxRpm(limit)` percent bounds lands on the 0/0 of the interpolation. */
  predicate OutOfReach(c: Curve, n: nat, limit: nat) {
    c.tachMin != c.tachMax || c.tachMin == 0.0 || MaxRpm(c, n, limit) as real < c.tachMin
  }

  /** On a rising curve no reading up to `r` percent moves more air than `r` percent does. */
  lemma HighestFlow(c: Curve, r: nat) returns (f: real)
    requires Rising(c) && forall x :: x <= r as real ==> Defined(c, x)
    ensures f >= 0.0 && Flow(c, r as real) == Num(f)
    ensures forall x :: x <= r as real ==> FlowOf(c)(x).AtMost(Num(f))
  {
    assert Defined(c, r as real);
    f := Flow(c, r as real).val;
    FlowMonotone(c, r as real, r as real);
    forall x | x <= r as real ensures FlowOf(c)(x).AtMost(Num(f)) {
      FlowMonotone(c, x, r as real);
    }
  }

  lemma WithinCap(c: Curve, t: Tachs, names: seq<string>, limit: nat)
    requires Rising(c) && limit > 0 && OutOfReach(c, |names|, limit)
    requires AllAtMost(t, names, MaxRpm(c, |names|, limit) as real)
    ensures Calculated(c, t, names).Some? ==> Calculated(c, t, names).value.AtMost(Num(limit as real))
  {
    var r, n := MaxRpm(c, |names|, limit), |names|;
    var f := HighestFlow(c, r);
    if SumFlow(FlowOf(c), t, names).Some? {
      SumWithinCap(FlowOf(c), t, names, r as real, f);
      SearchIsMaximal(c, n, limit);
      RepeatedIsProduct(f, n);
      DivideMonotone(SumFlow(FlowOf(c), t, names).value.val, f * n as real, 100.0);
    }
  }

  /** One tach at `x` percent, and no reading of any other. */
  function OneTach(name: string, x: real): Tachs {
    Tachs([(name, x)], [(name, (0.0, 100.0))])
  }

  lemma OneTachReads(name: string, x: real, other: string)
    ensures Lookup(OneTach(name, x).readings, other) == if EndsWith(name, other) then Some(x) else None
    ensures Percent(OneTach(name, x), other) == if EndsWith(name, other) then Some(x) else None
  {
    var t := OneTach(name, x);
    assert Lookup(t.readings[1..], other) == None && Lookup(t.ranges[1..], other) == None;
    assert x / 100.0 * 100.0 == x;
  }

  /** A tach on the 0/0 makes the sum NaN, wherever its name stands in the list. */
  lemma {:induction false} SumWithNaN(flow: real -> Double, name: string, x: real, names: seq<string>)
    requires flow(x).NaN?
    ensures SumFlow(flow, OneTach(name, x), names).Some?
    ensures name in names ==> SumFlow(flow, OneTach(name, x), names) == Some(NaN)
  {
    if names != [] {
      var init, last := names[..|names| - 1], names[|names| - 1];
      assert names == init + [last];
      SumWithNaN(flow, name, x, init);
      OneTachReads(name, x, last);
    }
  }

  /** With these readings, keeping every tach at or below `getMaxRpm(limit)` percent makes
      `calculate` report at most the limit, if it reports anything. */
  predicate Honours(c: Curve, t: Tachs, names: seq<string>, limit: nat) {
    AllAtMost(t, names, MaxRpm(c, |names|, limit) as real) && Calculated(c, t, names).Some? ==>
      Calculated(c, t, names).value.AtMost(Num(limit as real))
  }

  lemma TachOnTheGap(c: Curve, names: seq<string>, limit: nat) returns (t: Tachs)
    requires !OutOfReach(c, |names|, limit) && names != []
    ensures !Honours(c, t, names, limit)
  {
    t := OneTach(names[0], c.tachMin);
    assert Flow(c, c.tachMin).NaN?;
    SumWithNaN(FlowOf(c), names[0], c.tachMin, names);
    forall name | name in names && Percent(t, name).Some? ensures Percent(t, name).value == c.tachMin {
      OneTachReads(names[0], c.tachMin, name);
    }
  }

  /** The limit is honoured for any number of tachs and whatever readings are missing, on every
      rising curve whose 0/0, if it has one, is out of reach, and on no other (unless there are
      no tachs). */
  lemma CapIsHonoured(c: Curve, names: seq<string>, limit: nat)
    requires Rising(c) && limit > 0
    ensures (forall t :: Honours(c, t, names, limit)) <==> OutOfReach(c, |names|, limit) || names == []
  {
    if OutOfReach(c, |names|, limit) {
      forall t ensures Honours(c, t, names, limit) {
        if AllAtMost(t, names, MaxRpm(c, |names|, limit) as real) {
          WithinCap(c, t, names, limit);
        }
      }
    } else if names != [] {
      var t := TachOnTheGap(c, names, limit);
    }
  }

  /** Not only NaN: a fan at 40 percent, below the 50 percent that are returned for a limit of 100,
      makes the flat curve report 400. */
  lemma LimitIsExceeded(name: string)
    ensures MaxRpm(FLAT_CURVE, 1, 100) == 50
    ensures Percent(OneTach(name, 40.0), name) == Some(40.0)
    ensures Calculated(FLAT_CURVE, OneTach(name, 40.0), [name]) == Some(Num(400.0))
  {
    DegenerateExample();
    OneTachReads(name, 40.0, name);
    FlowAt40();
    SumOfOne(FlowOf(FLAT_CURVE), OneTach(name, 40.0), name, 40.0);
  }

  lemma FlowAt40()
    ensures Flow(FLAT_CURVE, 40.0) == Num(40000.0)
  {
  }

  lemma SumOfOne(flow: real -> Double, t: Tachs, name: string, x: real)
    requires Lookup(t.readings, name).Some? && Percent(t, name) == Some(x)
    ensures SumFlow(flow, t, [name]) == Some(Num(0.0).Plus(flow(x)))
  {
    assert [name][..0] == [] && SumFlow(flow, t, []) == Some(Num(0.0));
  }

  /** A tach at exactly 50 percent makes the flat curve report NaN. */
  lemma FlatCurveReportsNaN(name: string)
    ensures Calculated(FLAT_CURVE, OneTach(name, 50.0), [name]) == Some(NaN)
  {
    SumWithNaN(FlowOf(FLAT_CURVE), name, 50.0, [name]);
  }
}
