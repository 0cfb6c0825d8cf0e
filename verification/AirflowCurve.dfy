/** What the interpolated curve is, and what it makes of the tachometer readings. */
module AirflowCurve {
  import opened Basics
  import opened Airflow
  import opened AirflowCap

  // ----- The coefficient -----

  /** The straight line through (tachMin, c1) and (tachMax, c2), without a division. */
  predicate OnLine(c: Curve, x: real, ci: real) {
    (ci - c.c1) * (c.tachMax - c.tachMin) == (c.c2 - c.c1) * (x - c.tachMin)
  }

  /** The coefficient of a duty of `x` percent on a curve with tachMin < tachMax. */
  predicate CurveIs(c: Curve, x: real, ci: real) {
    if x == 0.0 then ci == 0.0
    else if x < c.tachMin then ci == c.c1
    else if x > c.tachMax then ci == c.c2
    else OnLine(c, x, ci)
  }

  lemma ShareIs(rise: real, part: real, whole: real)
    requires whole != 0.0
    ensures Share(rise, part, whole) * whole == rise * part
  {
  }

  lemma SumOnLine(c: Curve, x: real, share: real)
    requires share * (c.tachMax - c.tachMin) == (c.c2 - c.c1) * (x - c.tachMin)
    ensures OnLine(c, x, c.c1 + share)
  {
    assert (c.c1 + share) - c.c1 == share;
  }

  lemma CoefficientIs(c: Curve, x: real) returns (ci: real)
    requires c.tachMin < c.tachMax
    ensures Coefficient(c, x) == Num(ci) && CurveIs(c, x, ci)
  {
    ci := Coefficient(c, x).val;
    if x != 0.0 && c.tachMin <= x <= c.tachMax {
      var share := Share(c.c2 - c.c1, x - c.tachMin, c.tachMax - c.tachMin);
      ShareIs(c.c2 - c.c1, x - c.tachMin, c.tachMax - c.tachMin);
      SumOnLine(c, x, share);
    }
  }

  lemma SameFactor(a: real, b: real, d: real)
    requires d != 0.0 && a * d == b * d
    ensures a == b
  {
    assert (a - b) * d == a * d - b * d == 0.0;
  }

  /** Only one value lies on the line over a duty. */
  lemma LineIsFunction(c: Curve, x: real, a: real, b: real)
    requires c.tachMin < c.tachMax && OnLine(c, x, a) && OnLine(c, x, b)
    ensures a == b
  {
    SameFactor(a - c.c1, b - c.c1, c.tachMax - c.tachMin);
  }

  /** C1 at TachMin and C2 at TachMax. */
  lemma EndsAreC1AndC2(c: Curve)
    requires c.tachMin < c.tachMax
    ensures c.tachMin != 0.0 ==> Coefficient(c, c.tachMin) == Num(c.c1)
    ensures c.tachMax != 0.0 ==> Coefficient(c, c.tachMax) == Num(c.c2)
  {
    if c.tachMin != 0.0 {
      var ci := CoefficientIs(c, c.tachMin);
      assert OnLine(c, c.tachMin, c.c1);
      LineIsFunction(c, c.tachMin, ci, c.c1);
    }
    if c.tachMax != 0.0 {
      var ci := CoefficientIs(c, c.tachMax);
      assert OnLine(c, c.tachMax, c.c2);
      LineIsFunction(c, c.tachMax, ci, c.c2);
    }
  }

  lemma MeanOnLine(c: Curve, x: real, y: real, a: real, b: real)
    requires OnLine(c, x, a) && OnLine(c, y, b)
    ensures OnLine(c, (x + y) / 2.0, (a + b) / 2.0)
  {
    var d, rise := c.tachMax - c.tachMin, c.c2 - c.c1;
    assert ((a + b) / 2.0 - c.c1) * d == ((a - c.c1) * d + (b - c.c1) * d) / 2.0;
    assert rise * ((x + y) / 2.0 - c.tachMin) == (rise * (x - c.tachMin) + rise * (y - c.tachMin)) / 2.0;
  }

  /** Midway between two duties inside the range the coefficient is the mean of theirs. */
  lemma MidpointIsMean(c: Curve, x: real, y: real) returns (a: real, b: real)
    requires c.tachMin < c.tachMax && c.tachMin <= x <= c.tachMax && c.tachMin <= y <= c.tachMax
    requires x != 0.0 && y != 0.0 && x + y != 0.0
    ensures Coefficient(c, x) == Num(a) && Coefficient(c, y) == Num(b)
    ensures Coefficient(c, (x + y) / 2.0) == Num((a + b) / 2.0)
  {
    a := CoefficientIs(c, x);
    b := CoefficientIs(c, y);
    var m := CoefficientIs(c, (x + y) / 2.0);
    MeanOnLine(c, x, y, a, b);
    LineIsFunction(c, (x + y) / 2.0, m, (a + b) / 2.0);
  }

  // ----- The calculation -----

  lemma {:induction false} LookupIsFirst<V>(items: seq<(string, V)>, name: string)
    ensures match Lookup(items, name)
      case None => forall i :: 0 <= i < |items| ==> !EndsWith(items[i].0, name)
      case Some(v) => exists i :: 0 <= i < |items| && items[i].1 == v && EndsWith(items[i].0, name) &&
                        forall j :: 0 <= j < i ==> !EndsWith(items[j].0, name)
  {
    if items != [] && !EndsWith(items[0].0, name) {
      LookupIsFirst(items[1..], name);
      assert forall i :: 1 <= i < |items| ==> items[i] == items[1..][i - 1];
      if Lookup(items, name).Some? {
        var v := Lookup(items, name).value;
        var i :| 0 <= i < |items| - 1 && items[1..][i].1 == v && EndsWith(items[1..][i].0, name) &&
                 forall j :: 0 <= j < i ==> !EndsWith(items[1..][j].0, name);
        assert items[i + 1].1 == v;
      }
    }
  }

  /** A path ends with a name when the name is its tail. */
  lemma EndsWithIsTail(path: string, name: string)
    ensures EndsWith(path, name) <==> exists head :: path == head + name
  {
    if EndsWith(path, name) {
      assert path == path[..|path| - |name|] + name;
    }
    if head :| path == head + name {
      assert path[|path| - |name|..] == name;
    }
  }

  /** A tach in percent: the reading over the upper end of its range, times 100. */
  lemma PercentIs(t: Tachs, name: string, rpm: real, range: (real, real))
    requires Lookup(t.readings, name) == Some(rpm) && Lookup(t.ranges, name) == Some(range) && range.1 != 0.0
    ensures Percent(t, name).Some? && Percent(t, name).value * range.1 == rpm * 100.0
  {
    var q := rpm / range.1;
    assert q * range.1 == rpm;
    assert (q * 100.0) * range.1 == (q * range.1) * 100.0;
  }

  /** The calculation fails exactly when a named tach has a reading but no range, or one that ends
      at zero; a tach without a reading does no harm. */
  lemma {:induction false} FailsWithoutRange(flow: real -> Double, t: Tachs, names: seq<string>)
    ensures SumFlow(flow, t, names).None? <==> exists name :: name in names && Unusable(t, name)
  {
    if names != [] {
      var init, last := names[..|names| - 1], names[|names| - 1];
      FailsWithoutRange(flow, t, init);
      assert names == init + [last];
      if Unusable(t, last) { assert last in names; }
      if name :| name in init && Unusable(t, name) { assert name in names; }
    }
  }

  predicate Unusable(t: Tachs, name: string) {
    Lookup(t.readings, name).Some? && (Lookup(t.ranges, name).None? || Lookup(t.ranges, name).value.1 == 0.0)
  }

  function Both(a: Option<Double>, b: Option<Double>): Option<Double> {
    if a.None? || b.None? then None else Some(a.value.Plus(b.value))
  }

  /** The tachs of two lists together move what each list moves. */
  lemma {:induction false} ListsAdd(flow: real -> Double, t: Tachs, a: seq<string>, b: seq<string>)
    ensures SumFlow(flow, t, a + b) == Both(SumFlow(flow, t, a), SumFlow(flow, t, b))
  {
    if b == [] {
      assert a + b == a;
    } else {
      var init, last := b[..|b| - 1], b[|b| - 1];
      ListsAdd(flow, t, a, init);
      assert (a + b)[..|a + b| - 1] == a + init;
    }
  }

  lemma AirOverHundred(ci: real, maxCFM: real, x: real)
    ensures Air(ci, maxCFM, x) / 100.0 * 100.0 == ci * maxCFM * x
  {
  }

  /** What is reported for one fan at `x` percent, on a curve with tachMin < tachMax. */
  lemma OneFanReports(c: Curve, name: string, x: real) returns (ci: real, v: real)
    requires c.tachMin < c.tachMax
    ensures Calculated(c, OneTach(name, x), [name]) == Some(Num(v))
    ensures v * 100.0 == ci * c.maxCFM * x && CurveIs(c, x, ci)
  {
    ci := CoefficientIs(c, x);
    v := Air(ci, c.maxCFM, x) / 100.0;
    OneTachReads(name, x, name);
    SumOfOne(FlowOf(c), OneTach(name, x), name, x);
    AirOverHundred(ci, c.maxCFM, x);
  }

  lemma {:induction false} SumOfEqual(flow: real -> Double, t: Tachs, names: seq<string>, x: real)
    requires flow(x).Num? && forall name :: name in names ==> Percent(t, name) == Some(x)
    ensures SumFlow(flow, t, names) == Some(Num(Repeated(flow(x).val, |names|)))
  {
    if names != [] {
      var init := names[..|names| - 1];
      assert names[|names| - 1] in names && forall name :: name in init ==> name in names;
      SumOfEqual(flow, t, init, x);
    }
  }

  /** When every tach reads `p` percent, the calculation reports the very airflow that the duty
      search compares with the limit. */
  lemma EqualDutyIsTotalFlow(c: Curve, t: Tachs, names: seq<string>, p: nat)
    requires c.tachMin < c.tachMax && forall name :: name in names ==> Percent(t, name) == Some(p as real)
    ensures Calculated(c, t, names) == Some(TotalFlow(c, |names|, p))
  {
    var ci := CoefficientIs(c, p as real);
    SumOfEqual(FlowOf(c), t, names, p as real);
    TotalIsRepeated(c, |names|, p, Flow(c, p as real).val);
  }

  lemma TotalIsRepeated(c: Curve, n: nat, p: nat, f: real)
    requires Flow(c, p as real) == Num(f)
    ensures TotalFlow(c, n, p) == Num(Repeated(f, n) / 100.0)
  {
    RepeatedIsProduct(f, n);
  }

  /** A setting of 0 means no limit. */
  lemma NoLimit(c: Curve, n: nat)
    ensures MaxRpm(c, n, 0) == 100
  {
  }

  /** A worked curve: at 50 percent the coefficient is 0.75, one fan moves 37.5, and with a limit of
      30 the duty may be 43 percent. */
  const RISING_CURVE := Curve(0.5, 1.0, 100.0, 20.0, 80.0)

  lemma RisingAt(p: nat) returns (ci: real)
    requires 20 <= p <= 80
    ensures Coefficient(RISING_CURVE, p as real) == Num(ci) && 60.0 * (ci - 0.5) == 0.5 * (p as real - 20.0)
    ensures TotalFlow(RISING_CURVE, 1, p) == Num(ci * p as real)
  {
    ci := CoefficientIs(RISING_CURVE, p as real);
  }

  lemma RisingExample()
    ensures TotalFlow(RISING_CURVE, 1, 50) == Num(37.5)
    ensures MaxRpm(RISING_CURVE, 1, 30) == 43
  {
    var _ := RisingAt(50);
    var a := RisingAt(43);
    var b := RisingAt(44);
    InvertsAt(RISING_CURVE, 1, 30, 43);
    InvertsAt(RISING_CURVE, 1, 30, 44);
  }
}
