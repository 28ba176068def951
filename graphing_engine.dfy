/** `GraphingEngine`: equation slots, the viewing window, sampling of the
    equations and the detection of intersections between every pair of them. */
module Graphing {
  import opened Wrappers
  import opened Text
  import opened Format
  import opened Ti84
  import opened Order

  const ErrWindow: string := "ERROR: WINDOW"
  const ErrNoFunction: string := "ERROR: NO FUNCTION"

  /** Number of x values `plot` samples. */
  const PlotSamples: int := 400

  datatype GraphWindow = GraphWindow(xmin: real, xmax: real, ymin: real, ymax: real)
  {
    function AsTuple(): (real, real, real, real)
    {
      (xmin, xmax, ymin, ymax)
    }

    predicate Valid()
    {
      xmin < xmax && ymin < ymax
    }
  }

  const DefaultWindow: GraphWindow := GraphWindow(-10.0, 10.0, -10.0, 10.0)

  // ---------------------------------------------------------------------------
  // Equation slots and the window

  /** Stored equations are non-empty and already stripped. */
  predicate SlotsValid(eqs: map<string, string>)
  {
    forall l :: l in eqs ==> eqs[l] != [] && Strip(eqs[l]) == eqs[l]
  }

  /** The slots after `set_equation(slot, expression)`. */
  function WithEquation(eqs: map<string, string>, slot: string, expression: string): (r: map<string, string>)
    ensures !IsBlank(expression) ==> slot in r && r[slot] == Strip(expression)
    ensures IsBlank(expression) ==> slot !in r
    ensures forall l :: l != slot ==> (l in r <==> l in eqs)
    ensures forall l :: l != slot && l in r ==> r[l] == eqs[l]
    ensures SlotsValid(eqs) ==> SlotsValid(r)
  {
    var clean := Strip(expression);
    if clean != [] then
      StripIdempotent(expression);
      StoredSlotsValid(eqs, slot, clean);
      eqs[slot := clean]
    else
      RemovedSlotsValid(eqs, slot);
      eqs - {slot}
  }

  lemma StoredSlotsValid(eqs: map<string, string>, slot: string, clean: string)
    requires clean != [] && Strip(clean) == clean
    ensures SlotsValid(eqs) ==> SlotsValid(eqs[slot := clean])
  {
  }

  lemma RemovedSlotsValid(eqs: map<string, string>, slot: string)
    ensures SlotsValid(eqs) ==> SlotsValid(eqs - {slot})
  {
  }

  /** The window `set_window` installs, or the error it raises. */
  function CheckedWindow(xmin: real, xmax: real, ymin: real, ymax: real): (r: Result<GraphWindow, string>)
    ensures r.Err? <==> xmin >= xmax || ymin >= ymax
    ensures r.Err? ==> r.error == ErrWindow
    ensures r.Ok? ==> r.value.Valid() && r.value.AsTuple() == (xmin, xmax, ymin, ymax)
  {
    if xmin >= xmax || ymin >= ymax then Err(ErrWindow) else Ok(GraphWindow(xmin, xmax, ymin, ymax))
  }

  // ---------------------------------------------------------------------------
  // _generate_points

  function Max(a: int, b: int): int
  {
    if a >= b then a else b
  }

  /** `step = (stop - start) / max(count - 1, 1)`. */
  function Step(start: real, stop: real, count: int): real
  {
    (stop - start) / Max(count - 1, 1) as real
  }

  /** `[start + step * i for i in range(count)]`. */
  function GeneratePoints(start: real, stop: real, count: int): (xs: seq<real>)
    ensures |xs| == Max(count, 0)
  {
    seq(Max(count, 0), i => start + Step(start, stop, count) * i as real)
  }

  /** The points start at `start`, are `step` apart, and (over the reals) the last is `stop`. */
  lemma GeneratePointsSpan(start: real, stop: real, count: int)
    requires count >= 1
    ensures GeneratePoints(start, stop, count)[0] == start
    ensures count > 1 ==> GeneratePoints(start, stop, count)[count - 1] == stop
    ensures forall i :: 0 <= i < count - 1 ==>
      GeneratePoints(start, stop, count)[i + 1] - GeneratePoints(start, stop, count)[i] == Step(start, stop, count)
  {
    var xs := GeneratePoints(start, stop, count);
    var d := Step(start, stop, count);
    MulZero(d, 0 as real);
    if count > 1 {
      DivTimes(stop - start, (count - 1) as real, d);
    }
    forall i | 0 <= i < count - 1
      ensures xs[i + 1] - xs[i] == d
    {
      MulNext(d, i as real, (i + 1) as real);
    }
  }

  /** For `start < stop` the points increase strictly and lie in `[start, stop]`. */
  lemma GeneratePointsOrdered(start: real, stop: real, count: int)
    requires start < stop && count > 1
    ensures forall i, j :: 0 <= i < j < count ==> GeneratePoints(start, stop, count)[i] < GeneratePoints(start, stop, count)[j]
    ensures forall i :: 0 <= i < count ==> start <= GeneratePoints(start, stop, count)[i] <= stop
  {
    var xs := GeneratePoints(start, stop, count);
    var d := Step(start, stop, count);
    var n := (count - 1) as real;
    DivTimes(stop - start, n, d);
    DivPositive(stop - start, n, d);
    forall i, j | 0 <= i < j < count ensures xs[i] < xs[j] {
      MulStrict(d, i as real, j as real);
    }
    forall i | 0 <= i < count ensures start <= xs[i] <= stop {
      PointWithin(start, stop, d, n, i as real, xs[i]);
    }
  }

  lemma PointWithin(start: real, stop: real, d: real, n: real, k: real, x: real)
    requires d > 0.0 && d * n == stop - start && 0.0 <= k <= n && x == start + d * k
    ensures start <= x <= stop
  {
    MulMono(d, 0.0, k);
    MulZero(d, 0.0);
    MulMono(d, k, n);
  }

  lemma DivTimes(a: real, n: real, d: real)
    requires n > 0.0 && d == a / n
    ensures d * n == a
  {
  }

  lemma DivPositive(a: real, n: real, d: real)
    requires a > 0.0 && n > 0.0 && d == a / n
    ensures d > 0.0
  {
  }

  lemma MulZero(d: real, z: real)
    requires z == 0.0
    ensures d * z == 0.0
  {
  }

  lemma MulNext(d: real, a: real, b: real)
    requires b == a + 1.0
    ensures d * b - d * a == d
  {
  }

  lemma MulStrict(d: real, a: real, b: real)
    requires d > 0.0 && a < b
    ensures d * a < d * b
  {
    assert d * b - d * a == d * (b - a);
  }

  lemma MulMono(d: real, a: real, b: real)
    requires d >= 0.0 && a <= b
    ensures d * a <= d * b
  {
    assert d * b - d * a == d * (b - a);
  }

  /** A fraction `p` of a non-negative `d` lies in `[0, d]`, strictly below a positive `d`. */
  lemma MulFraction(d: real, p: real)
    requires d >= 0.0 && 0.0 <= p < 1.0
    ensures 0.0 <= d * p <= d
    ensures d > 0.0 ==> d * p < d
  {
    MulMono(d, 0.0, p);
    MulMono(d, p, 1.0);
    if d > 0.0 {
      MulStrict(d, p, 1.0);
    }
  }

  // ---------------------------------------------------------------------------
  // _evaluate_series

  /** The calculator state that `evaluate_function` reads. */
  datatype Calc = Calc(host: Host, memory: real, history: seq<EvaluationResult>)

  function At(c: Calc, expression: string, x: real): Result<Float, Failure>
  {
    EvaluateAt(c.host, c.memory, c.history, expression, x)
  }

  /** A `TI84Error` at a point becomes NaN; any other exception is not caught. */
  predicate Escapes(r: Result<Float, Failure>)
  {
    r.Err? && r.error.Raised?
  }

  /** The value recorded for a point whose exception does not escape. */
  function SampleValue(r: Result<Float, Failure>): Float
  {
    if r.Ok? then r.value else NaN
  }

  /** Prepends the values already produced to a later outcome. */
  function Prepend<T>(done: seq<T>, r: Result<seq<T>, PyException>): Result<seq<T>, PyException>
  {
    match r
    case Ok(rest) => Ok(done + rest)
    case Err(k) => Err(k)
  }

  lemma PrependNothing<T>(r: Result<seq<T>, PyException>)
    ensures Prepend([], r) == r
  {
    if r.Ok? {
      assert [] + r.value == r.value;
    }
  }

  lemma PrependTwice<T>(a: seq<T>, b: seq<T>, r: Result<seq<T>, PyException>)
    ensures Prepend(a, Prepend(b, r)) == Prepend(a + b, r)
  {
    if r.Ok? {
      assert a + (b + r.value) == (a + b) + r.value;
    }
  }

  /** `_evaluate_series(expression, xs)`. */
  function Series(c: Calc, expression: string, xs: seq<real>): Result<seq<Float>, PyException>
    decreases |xs|
  {
    if xs == [] then Ok([])
    else
      var r := At(c, expression, xs[0]);
      if Escapes(r) then Err(r.error.kind)
      else Prepend([SampleValue(r)], Series(c, expression, xs[1..]))
  }

  /** The series succeeds exactly when no point raises an exception other
      than `TI84Error`. */
  lemma {:induction false} SeriesOkIff(c: Calc, expression: string, xs: seq<real>)
    ensures Series(c, expression, xs).Ok? <==> forall i :: 0 <= i < |xs| ==> !Escapes(At(c, expression, xs[i]))
    decreases |xs|
  {
    if xs != [] {
      SeriesOkIff(c, expression, xs[1..]);
      if forall i :: 0 <= i < |xs| ==> !Escapes(At(c, expression, xs[i])) {
        forall i | 0 <= i < |xs[1..]| ensures !Escapes(At(c, expression, xs[1..][i])) {
          assert xs[1..][i] == xs[i + 1];
        }
      } else if !Escapes(At(c, expression, xs[0])) {
        var i :| 0 <= i < |xs| && Escapes(At(c, expression, xs[i]));
        assert xs[1..][i - 1] == xs[i];
      }
    }
  }

  /** A successful series has one value per point: NaN exactly where a
      `TI84Error` was raised and the evaluator's value elsewhere. */
  lemma {:induction false} SeriesValues(c: Calc, expression: string, xs: seq<real>)
    requires Series(c, expression, xs).Ok?
    ensures var ys := Series(c, expression, xs).value;
      && |ys| == |xs|
      && forall i :: 0 <= i < |xs| ==> ys[i] == SampleValue(At(c, expression, xs[i]))
    decreases |xs|
  {
    if xs != [] {
      SeriesValues(c, expression, xs[1..]);
      var ys := Series(c, expression, xs).value;
      var rest := Series(c, expression, xs[1..]).value;
      assert ys == [SampleValue(At(c, expression, xs[0]))] + rest;
      forall i | 0 <= i < |xs| ensures ys[i] == SampleValue(At(c, expression, xs[i])) {
        if i > 0 {
          assert ys[i] == rest[i - 1] && xs[1..][i - 1] == xs[i];
        }
      }
    }
  }

  /** A failing series raises the exception of its first escaping point. */
  lemma {:induction false} SeriesFirstEscape(c: Calc, expression: string, xs: seq<real>)
    requires Series(c, expression, xs).Err?
    ensures exists i :: (0 <= i < |xs| && At(c, expression, xs[i]) == Err(Raised(Series(c, expression, xs).error))
      && forall j :: 0 <= j < i ==> !Escapes(At(c, expression, xs[j])))
    decreases |xs|
  {
    if Escapes(At(c, expression, xs[0])) {
      assert At(c, expression, xs[0]) == Err(Raised(Series(c, expression, xs).error));
    } else {
      SeriesFirstEscape(c, expression, xs[1..]);
      var i :| 0 <= i < |xs[1..]| && At(c, expression, xs[1..][i]) == Err(Raised(Series(c, expression, xs[1..]).error))
        && forall j :: 0 <= j < i ==> !Escapes(At(c, expression, xs[1..][j]));
      forall j | 0 <= j < i + 1 ensures !Escapes(At(c, expression, xs[j])) {
        if j > 0 { assert xs[1..][j - 1] == xs[j]; }
      }
    }
  }

  // ---------------------------------------------------------------------------
  // _find_intersections

  /** The last valid sample: `last_diff`, `last_x`, `last_y`. */
  datatype Sample = Sample(diff: real, x: real, y: real)

  /** The loop state: the last valid sample (absent before the first) and the points found. */
  datatype Scan = Scan(last: Option<Sample>, found: seq<(real, real)>)

  const Start: Scan := Scan(None, [])

  /** `abs(last_diff) / (abs(last_diff) + abs(diff))`: where along the segment
      between the two samples the straight line through their differences is zero. */
  function Proportion(lastDiff: real, diff: real): (p: real)
    requires diff != 0.0
    ensures 0.0 <= p < 1.0
    ensures (lastDiff <= 0.0 < diff || diff < 0.0 < lastDiff) ==> lastDiff + (diff - lastDiff) * p == 0.0
  {
    var den := Abs(lastDiff) + Abs(diff);
    var p := Abs(lastDiff) / den;
    ProportionCancels(lastDiff, diff, den, p);
    p
  }

  lemma ProportionCancels(lastDiff: real, diff: real, den: real, p: real)
    requires diff != 0.0 && den == Abs(lastDiff) + Abs(diff) && p == Abs(lastDiff) / den
    ensures 0.0 <= p < 1.0
    ensures (lastDiff <= 0.0 < diff || diff < 0.0 < lastDiff) ==> lastDiff + (diff - lastDiff) * p == 0.0
  {
    DivTimes(Abs(lastDiff), den, p);
    FractionBelowOne(Abs(lastDiff), den, p);
    if lastDiff <= 0.0 < diff {
      CrossingCancels(lastDiff, diff - lastDiff, den, p, Abs(lastDiff));
    } else if diff < 0.0 < lastDiff {
      CrossingCancels(lastDiff, diff - lastDiff, den, p, Abs(lastDiff));
    }
  }

  lemma FractionBelowOne(a: real, den: real, p: real)
    requires 0.0 <= a < den && p * den == a
    ensures 0.0 <= p < 1.0
  {
    MulCommutes(p, den);
    if p >= 1.0 {
      MulMono(den, 1.0, p);
      MulOne(den, 1.0);
    }
    if p < 0.0 {
      MulStrict(den, p, 0.0);
      MulZero(den, 0.0);
    }
  }

  lemma CrossingCancels(lastDiff: real, e: real, den: real, p: real, a: real)
    requires p * den == a
    requires (e == den && a == -lastDiff) || (e == -den && a == lastDiff)
    ensures lastDiff + e * p == 0.0
  {
    MulCommutes(p, den);
    if e == -den {
      NegMul(den, e, p);
    }
  }

  lemma MulCommutes(a: real, b: real)
    ensures a * b == b * a
  {
  }

  lemma MulOne(d: real, one: real)
    requires one == 1.0
    ensures d * one == d
  {
  }

  /** The point between `a` (at 0) and `b` (at 1) at proportion `p`. */
  function Lerp(a: real, b: real, p: real): real
  {
    a + (b - a) * p
  }

  lemma LerpBetween(a: real, b: real, p: real)
    requires 0.0 <= p < 1.0
    ensures a <= b ==> a <= Lerp(a, b, p) <= b
    ensures a < b ==> Lerp(a, b, p) < b
    ensures b <= a ==> b <= Lerp(a, b, p) <= a
  {
    if a <= b {
      LerpUp(a, b, p, b - a);
    }
    if b <= a {
      LerpDown(a, b, p, a - b);
      NegMul(a - b, b - a, p);
    }
  }

  lemma LerpUp(a: real, b: real, p: real, d: real)
    requires 0.0 <= p < 1.0 && a <= b && d == b - a
    ensures a <= a + d * p <= b
    ensures a < b ==> a + d * p < b
  {
    MulFraction(d, p);
  }

  lemma LerpDown(a: real, b: real, p: real, d: real)
    requires 0.0 <= p < 1.0 && b <= a && d == a - b
    ensures b <= a - d * p <= a
  {
    MulFraction(d, p);
  }

  lemma NegMul(d: real, e: real, p: real)
    requires e == -d
    ensures e * p == -(d * p)
  {
  }

  /** The interpolated crossing between the last valid sample and `(x, ya)`:
      proportion in `[0, 1)`, x coordinate in `[last.x, x)`, y coordinate on the
      first expression's segment. */
  function Interpolate(last: Sample, x: real, ya: real, diff: real): (pt: (real, real))
    requires diff != 0.0
    ensures last.x < x ==> last.x <= pt.0 < x
    ensures x <= last.x ==> x <= pt.0 <= last.x
    ensures last.y <= ya ==> last.y <= pt.1 <= ya
    ensures ya <= last.y ==> ya <= pt.1 <= last.y
    ensures var p := Proportion(last.diff, diff); pt == (Lerp(last.x, x, p), Lerp(last.y, ya, p))
  {
    var p := Proportion(last.diff, diff);
    LerpBetween(last.x, x, p);
    LerpBetween(last.y, ya, p);
    (Lerp(last.x, x, p), Lerp(last.y, ya, p))
  }

  /** One valid sample: a finite difference `diff` between `ya` and `yb` at `x`. */
  function Record(st: Scan, x: real, ya: real, diff: real): Scan
  {
    var found :=
      if st.last.Some? && diff == 0.0 then st.found + [(x, ya)]
      else if st.last.Some? && (diff > 0.0) != (st.last.value.diff > 0.0) then
        st.found + [Interpolate(st.last.value, x, ya, diff)]
      else st.found;
    Scan(Some(Sample(diff, x, ya)), found)
  }

  /** The body of the loop at `x`: `TI84Error` skips the point, other
      exceptions escape, a non-finite difference skips the point. */
  function Visit(c: Calc, a: string, b: string, st: Scan, x: real): Result<Scan, PyException>
  {
    var ra := At(c, a, x);
    if Escapes(ra) then Err(ra.error.kind)
    else if ra.Err? then Ok(st)
    else
      var rb := At(c, b, x);
      if Escapes(rb) then Err(rb.error.kind)
      else if rb.Err? then Ok(st)
      else
        var d := Sub(ra.value, rb.value);
        if d.Num? then Ok(Record(st, x, ra.value.r, d.r)) else Ok(st)
  }

  function ScanFrom(c: Calc, a: string, b: string, st: Scan, xs: seq<real>): Result<Scan, PyException>
    decreases |xs|
  {
    if xs == [] then Ok(st)
    else match Visit(c, a, b, st, xs[0])
      case Err(k) => Err(k)
      case Ok(st') => ScanFrom(c, a, b, st', xs[1..])
  }

  /** `_find_intersections(expr_a, expr_b, xs)`. */
  function Intersections(c: Calc, a: string, b: string, xs: seq<real>): Result<seq<(real, real)>, PyException>
  {
    match ScanFrom(c, a, b, Start, xs)
    case Ok(st) => Ok(st.found)
    case Err(k) => Err(k)
  }

  // Properties of one step.

  /** A valid sample records at most one point, keeps the earlier ones, and becomes the last sample. */
  lemma RecordAtMostOne(st: Scan, x: real, ya: real, diff: real)
    ensures var r := Record(st, x, ya, diff);
      && r.last == Some(Sample(diff, x, ya))
      && |st.found| <= |r.found| <= |st.found| + 1
      && r.found[..|st.found|] == st.found
  {
  }

  /** Nothing is recorded at the first valid sample, even when its difference is 0. */
  lemma RecordFirstSample(x: real, ya: real, diff: real)
    ensures Record(Start, x, ya, diff).found == []
  {
  }

  /** An exact zero after a valid sample records `(x, ya)`. */
  lemma RecordZero(st: Scan, x: real, ya: real)
    requires st.last.Some?
    ensures Record(st, x, ya, 0.0).found == st.found + [(x, ya)]
  {
  }

  /** A sign change records the interpolated point, whose x lies in `[last_x, x)`. */
  lemma RecordSignChange(st: Scan, x: real, ya: real, diff: real)
    requires st.last.Some? && st.last.value.x < x
    requires (st.last.value.diff <= 0.0 < diff) || (diff < 0.0 < st.last.value.diff)
    ensures var r := Record(st, x, ya, diff);
      && |r.found| == |st.found| + 1
      && st.last.value.x <= r.found[|st.found|].0 < x
  {
  }

  /** A zero followed by a positive difference records a second point at the zero's
      own sample, because the proportion there is 0. */
  lemma ZeroThenPositive(st: Scan, x0: real, y0: real, x1: real, y1: real, diff: real)
    requires st.last.Some? && diff > 0.0
    ensures var s0 := Record(st, x0, y0, 0.0);
      Record(s0, x1, y1, diff).found == st.found + [(x0, y0), (x0, y0)]
  {
    var s0 := Record(st, x0, y0, 0.0);
    assert Proportion(0.0, diff) == 0.0;
    assert Interpolate(s0.last.value, x1, y1, diff) == (x0, y0);
  }

  /** A zero followed by a negative difference records nothing more. */
  lemma ZeroThenNegative(st: Scan, x0: real, y0: real, x1: real, y1: real, diff: real)
    requires st.last.Some? && diff < 0.0
    ensures var s0 := Record(st, x0, y0, 0.0);
      Record(s0, x1, y1, diff).found == st.found + [(x0, y0)]
  {
  }

  /** A sample where either expression raises `TI84Error`, or where the difference
      is NaN or infinite, leaves the loop state as it was. */
  lemma VisitSkips(c: Calc, a: string, b: string, st: Scan, x: real)
    requires !Escapes(At(c, a, x))
    requires At(c, a, x).Err? || (!Escapes(At(c, b, x)) && (At(c, b, x).Err? || !Sub(At(c, a, x).value, At(c, b, x).value).Num?))
    ensures Visit(c, a, b, st, x) == Ok(st)
  {
  }

  // Properties of the whole scan.

  /** At `x` neither expression raises an exception other than `TI84Error`;
      `expr_b` is only evaluated once `expr_a` has returned. */
  predicate NoEscapeAt(c: Calc, a: string, b: string, x: real)
  {
    !Escapes(At(c, a, x)) && (At(c, a, x).Ok? ==> !Escapes(At(c, b, x)))
  }

  lemma VisitOkIff(c: Calc, a: string, b: string, st: Scan, x: real)
    ensures Visit(c, a, b, st, x).Ok? <==> NoEscapeAt(c, a, b, x)
  {
  }

  lemma {:induction false} ScanFromOkIff(c: Calc, a: string, b: string, st: Scan, xs: seq<real>)
    ensures ScanFrom(c, a, b, st, xs).Ok? <==> forall i :: 0 <= i < |xs| ==> NoEscapeAt(c, a, b, xs[i])
    decreases |xs|
  {
    if xs != [] {
      VisitOkIff(c, a, b, st, xs[0]);
      if NoEscapeAt(c, a, b, xs[0]) {
        var next := Visit(c, a, b, st, xs[0]).value;
        ScanFromOkIff(c, a, b, next, xs[1..]);
        if forall i :: 0 <= i < |xs| ==> NoEscapeAt(c, a, b, xs[i]) {
          forall i | 0 <= i < |xs[1..]| ensures NoEscapeAt(c, a, b, xs[1..][i]) {
            assert xs[1..][i] == xs[i + 1];
          }
        } else {
          var i :| 0 <= i < |xs| && !NoEscapeAt(c, a, b, xs[i]);
          assert xs[1..][i - 1] == xs[i];
        }
      }
    }
  }

  /** The scan returns exactly when no sample raises an exception that escapes. */
  lemma IntersectionsOkIff(c: Calc, a: string, b: string, xs: seq<real>)
    ensures Intersections(c, a, b, xs).Ok? <==> forall i :: 0 <= i < |xs| ==> NoEscapeAt(c, a, b, xs[i])
  {
    ScanFromOkIff(c, a, b, Start, xs);
  }

  /** The number of samples at which both expressions are finite. */
  function ValidCount(c: Calc, a: string, b: string, xs: seq<real>): nat
    decreases |xs|
  {
    if xs == [] then 0
    else
      var ra := At(c, a, xs[0]);
      var rb := At(c, b, xs[0]);
      var valid := ra.Ok? && rb.Ok? && ra.value.Num? && rb.value.Num?;
      (if valid then 1 else 0) + ValidCount(c, a, b, xs[1..])
  }

  /** Found points plus one for a last sample. */
  function Credit(st: Scan): nat
  {
    |st.found| + if st.last.Some? then 1 else 0
  }

  lemma {:induction false} ScanCredit(c: Calc, a: string, b: string, st: Scan, xs: seq<real>)
    requires ScanFrom(c, a, b, st, xs).Ok?
    requires st.last.None? ==> st.found == []
    ensures var st' := ScanFrom(c, a, b, st, xs).value;
      && (st'.last.None? ==> st'.found == [])
      && Credit(st') <= Credit(st) + ValidCount(c, a, b, xs)
    decreases |xs|
  {
    if xs != [] {
      var next := Visit(c, a, b, st, xs[0]).value;
      ScanCredit(c, a, b, next, xs[1..]);
    }
  }

  /** The scan records at most one point per valid sample after the first. */
  lemma IntersectionsAtMostOnePerSample(c: Calc, a: string, b: string, xs: seq<real>)
    requires Intersections(c, a, b, xs).Ok?
    ensures |Intersections(c, a, b, xs).value| + 1 <= ValidCount(c, a, b, xs) || Intersections(c, a, b, xs).value == []
  {
    ScanCredit(c, a, b, Start, xs);
  }

  /** Every point found lies, in x, within any interval that holds all the samples. */
  lemma {:induction false} ScanWithin(c: Calc, a: string, b: string, st: Scan, xs: seq<real>, lo: real, hi: real)
    requires ScanFrom(c, a, b, st, xs).Ok?
    requires forall i :: 0 <= i < |xs| ==> lo <= xs[i] <= hi
    requires st.last.Some? ==> lo <= st.last.value.x <= hi
    requires forall k :: 0 <= k < |st.found| ==> lo <= st.found[k].0 <= hi
    ensures var st' := ScanFrom(c, a, b, st, xs).value;
      forall k :: 0 <= k < |st'.found| ==> lo <= st'.found[k].0 <= hi
    decreases |xs|
  {
    if xs != [] {
      var next := Visit(c, a, b, st, xs[0]).value;
      assert forall i :: 0 <= i < |xs[1..]| ==> lo <= xs[1..][i] <= hi by {
        forall i | 0 <= i < |xs[1..]| ensures lo <= xs[1..][i] <= hi { assert xs[1..][i] == xs[i + 1]; }
      }
      ScanWithin(c, a, b, next, xs[1..], lo, hi);
    }
  }

  lemma IntersectionsWithin(c: Calc, a: string, b: string, xs: seq<real>, lo: real, hi: real)
    requires Intersections(c, a, b, xs).Ok?
    requires forall i :: 0 <= i < |xs| ==> lo <= xs[i] <= hi
    ensures forall k :: 0 <= k < |Intersections(c, a, b, xs).value| ==> lo <= Intersections(c, a, b, xs).value[k].0 <= hi
  {
    ScanWithin(c, a, b, Start, xs, lo, hi);
  }

  // ---------------------------------------------------------------------------
  // _annotate_intersections: every pair i < j of the sorted labels

  /** The pairs `(i, j)` for `j` from `j0` up to `n - 1`. */
  function RowFrom(i: nat, j0: nat, n: nat): seq<(int, int)>
    decreases n - j0
  {
    if j0 >= n then [] else [(i, j0)] + RowFrom(i, j0 + 1, n)
  }

  /** The pairs the nested loop visits from outer index `i` on, in order. */
  function PairsFrom(i: nat, n: nat): seq<(int, int)>
    decreases n - i
  {
    if i >= n then [] else RowFrom(i, i + 1, n) + PairsFrom(i + 1, n)
  }

  lemma {:induction false} RowFromMembers(i: nat, j0: nat, n: nat)
    ensures forall q :: q in RowFrom(i, j0, n) ==> q.0 == i && j0 <= q.1 < n
    decreases n - j0
  {
    if j0 < n {
      RowFromMembers(i, j0 + 1, n);
    }
  }

  lemma {:induction false} RowFromCount(i: nat, j0: nat, n: nat, p: (int, int))
    ensures multiset(RowFrom(i, j0, n))[p] == if p.0 == i && j0 <= p.1 < n then 1 else 0
    decreases n - j0
  {
    if j0 < n {
      RowFromCount(i, j0 + 1, n, p);
      assert multiset(RowFrom(i, j0, n)) == multiset{(i, j0)} + multiset(RowFrom(i, j0 + 1, n));
    }
  }

  /** From outer index `i` on, the loop visits every pair `a < b` with `i <= a`
      and `b < n` exactly once, and no other pair. */
  lemma {:induction false} PairsFromCount(i: nat, n: nat, p: (int, int))
    ensures multiset(PairsFrom(i, n))[p] == if i <= p.0 < p.1 < n then 1 else 0
    decreases n - i
  {
    if i < n {
      var row := RowFrom(i, i + 1, n);
      var rest := PairsFrom(i + 1, n);
      RowFromCount(i, i + 1, n, p);
      PairsFromCount(i + 1, n, p);
      assert PairsFrom(i, n) == row + rest;
      assert multiset(row + rest) == multiset(row) + multiset(rest);
      assert multiset(row + rest)[p] == multiset(row)[p] + multiset(rest)[p];
    }
  }

  /** Every pair indexes into a sequence of length `n`. */
  ghost predicate InRange(pairs: seq<(int, int)>, n: int)
  {
    forall q :: q in pairs ==> 0 <= q.0 < n && 0 <= q.1 < n
  }

  /** The points found for each visited pair, concatenated in visiting order;
      an escaping exception ends the whole annotation. */
  function MarksOf(c: Calc, eqs: map<string, string>, labels: seq<string>, pairs: seq<(int, int)>, xs: seq<real>): Result<seq<(real, real)>, PyException>
    requires forall l :: l in labels ==> l in eqs
    requires InRange(pairs, |labels|)
    decreases |pairs|
  {
    if pairs == [] then Ok([])
    else
      var (i, j) := pairs[0];
      match Intersections(c, eqs[labels[i]], eqs[labels[j]], xs)
      case Err(k) => Err(k)
      case Ok(pts) => Prepend(pts, MarksOf(c, eqs, labels, pairs[1..], xs))
  }

  /** The marks of the first result followed by those of the second, the
      second not reached when the first raised. */
  function Then(a: Result<seq<(real, real)>, PyException>, b: Result<seq<(real, real)>, PyException>): Result<seq<(real, real)>, PyException>
  {
    match a
    case Err(e) => Err(e)
    case Ok(pts) => Prepend(pts, b)
  }

  lemma ThenPrepend(pts: seq<(real, real)>, a: Result<seq<(real, real)>, PyException>, b: Result<seq<(real, real)>, PyException>)
    ensures Then(Prepend(pts, a), b) == Prepend(pts, Then(a, b))
  {
    if a.Ok? {
      PrependTwice(pts, a.value, b);
    }
  }

  /** The inner loop of `_annotate_intersections` for row `i`, from column `j` on. */
  function RowMarks(c: Calc, eqs: map<string, string>, labels: seq<string>, i: nat, j: nat, xs: seq<real>): Result<seq<(real, real)>, PyException>
    requires forall l :: l in labels ==> l in eqs
    requires i < |labels|
    decreases |labels| - j
  {
    if j >= |labels| then Ok([])
    else match Intersections(c, eqs[labels[i]], eqs[labels[j]], xs)
      case Err(e) => Err(e)
      case Ok(pts) => Prepend(pts, RowMarks(c, eqs, labels, i, j + 1, xs))
  }

  /** The outer loop of `_annotate_intersections`, from row `i` on. */
  function MarksFrom(c: Calc, eqs: map<string, string>, labels: seq<string>, i: nat, xs: seq<real>): Result<seq<(real, real)>, PyException>
    requires forall l :: l in labels ==> l in eqs
    decreases |labels| - i
  {
    if i >= |labels| then Ok([])
    else Then(RowMarks(c, eqs, labels, i, i + 1, xs), MarksFrom(c, eqs, labels, i + 1, xs))
  }

  /** What `_annotate_intersections` marks: nothing with fewer than two
      equations, otherwise the intersections of every pair of sorted labels. */
  function Annotations(c: Calc, eqs: map<string, string>, xs: seq<real>): (r: Result<seq<(real, real)>, PyException>)
    ensures |eqs| < 2 ==> r == Ok([])
  {
    if |eqs| < 2 then Ok([])
    else MarksFrom(c, eqs, SortedKeys(eqs.Keys), 0, xs)
  }

  lemma {:induction false} MarksOfAppend(c: Calc, eqs: map<string, string>, labels: seq<string>, a: seq<(int, int)>, b: seq<(int, int)>, xs: seq<real>)
    requires forall l :: l in labels ==> l in eqs
    requires InRange(a, |labels|) && InRange(b, |labels|)
    ensures InRange(a + b, |labels|)
    ensures MarksOf(c, eqs, labels, a + b, xs) == Then(MarksOf(c, eqs, labels, a, xs), MarksOf(c, eqs, labels, b, xs))
    decreases |a|
  {
    assert InRange(a + b, |labels|) by {
      forall q | q in a + b ensures 0 <= q.0 < |labels| && 0 <= q.1 < |labels| {
        assert q in a || q in b;
      }
    }
    if a == [] {
      assert a + b == b;
      PrependNothing(MarksOf(c, eqs, labels, b, xs));
    } else {
      assert (a + b)[0] == a[0] && (a + b)[1..] == a[1..] + b;
      assert InRange(a[1..], |labels|) by {
        forall q | q in a[1..] ensures 0 <= q.0 < |labels| && 0 <= q.1 < |labels| {
          assert q in a;
        }
      }
      MarksOfAppend(c, eqs, labels, a[1..], b, xs);
      var (i, j) := a[0];
      var found := Intersections(c, eqs[labels[i]], eqs[labels[j]], xs);
      if found.Ok? {
        ThenPrepend(found.value, MarksOf(c, eqs, labels, a[1..], xs), MarksOf(c, eqs, labels, b, xs));
      }
    }
  }

  lemma {:induction false} RowMarksVisitsRow(c: Calc, eqs: map<string, string>, labels: seq<string>, i: nat, j: nat, xs: seq<real>)
    requires forall l :: l in labels ==> l in eqs
    requires i < |labels|
    ensures InRange(RowFrom(i, j, |labels|), |labels|)
    ensures RowMarks(c, eqs, labels, i, j, xs) == MarksOf(c, eqs, labels, RowFrom(i, j, |labels|), xs)
    decreases |labels| - j
  {
    RowFromMembers(i, j, |labels|);
    if j < |labels| {
      RowMarksVisitsRow(c, eqs, labels, i, j + 1, xs);
      var row := RowFrom(i, j, |labels|);
      assert row[0] == (i, j) && row[1..] == RowFrom(i, j + 1, |labels|);
    }
  }

  lemma {:induction false} MarksFromVisitsPairs(c: Calc, eqs: map<string, string>, labels: seq<string>, i: nat, xs: seq<real>)
    requires forall l :: l in labels ==> l in eqs
    ensures InRange(PairsFrom(i, |labels|), |labels|)
    ensures MarksFrom(c, eqs, labels, i, xs) == MarksOf(c, eqs, labels, PairsFrom(i, |labels|), xs)
    decreases |labels| - i
  {
    if i < |labels| {
      var row := RowFrom(i, i + 1, |labels|);
      var rest := PairsFrom(i + 1, |labels|);
      assert PairsFrom(i, |labels|) == row + rest;
      assert InRange(rest, |labels|) && MarksFrom(c, eqs, labels, i + 1, xs) == MarksOf(c, eqs, labels, rest, xs) by {
        MarksFromVisitsPairs(c, eqs, labels, i + 1, xs);
      }
      assert InRange(row, |labels|) && RowMarks(c, eqs, labels, i, i + 1, xs) == MarksOf(c, eqs, labels, row, xs) by {
        RowMarksVisitsRow(c, eqs, labels, i, i + 1, xs);
      }
      MarksOfAppend(c, eqs, labels, row, rest, xs);
    }
  }

  /** With two or more equations the marks are those of the pairs `i < j`
      of sorted labels, each of which is visited exactly once. */
  lemma AnnotationsVisitEachPairOnce(c: Calc, eqs: map<string, string>, xs: seq<real>)
    requires |eqs| >= 2
    ensures var labels := SortedKeys(eqs.Keys);
      InRange(PairsFrom(0, |labels|), |labels|) &&
      Annotations(c, eqs, xs) == MarksOf(c, eqs, labels, PairsFrom(0, |labels|), xs) &&
      forall p: (int, int) :: multiset(PairsFrom(0, |labels|))[p] == if 0 <= p.0 < p.1 < |labels| then 1 else 0
  {
    var labels := SortedKeys(eqs.Keys);
    MarksFromVisitsPairs(c, eqs, labels, 0, xs);
    forall p: (int, int) ensures multiset(PairsFrom(0, |labels|))[p] == if 0 <= p.0 < p.1 < |labels| then 1 else 0 {
      PairsFromCount(0, |labels|, p);
    }
  }

  // ---------------------------------------------------------------------------
  // plot

  /** The data `plot` draws: the window, the sampled x values, one curve per
      slot in sorted order, and the intersection marks. */
  datatype Figure = Figure(window: GraphWindow, xs: seq<real>, curves: seq<(string, seq<Float>)>, marks: seq<(real, real)>)

  /** What `_evaluate_series` gives each expression over the fixed x values. */
  type SeriesOf = string -> Result<seq<Float>, PyException>

  function SeriesFn(c: Calc, xs: seq<real>): (f: SeriesOf)
    ensures forall e :: f(e) == Series(c, e, xs)
  {
    e => Series(c, e, xs)
  }

  /** The curves for the labels from position `k` on, in order. */
  function Curves(series: SeriesOf, eqs: map<string, string>, labels: seq<string>, k: nat): Result<seq<(string, seq<Float>)>, PyException>
    requires forall l :: l in labels ==> l in eqs
    decreases |labels| - k
  {
    if k >= |labels| then Ok([])
    else match series(eqs[labels[k]])
      case Err(e) => Err(e)
      case Ok(ys) => Prepend([(labels[k], ys)], Curves(series, eqs, labels, k + 1))
  }

  /** The curves succeed exactly when every remaining label's series does. */
  lemma {:induction false} CurvesOkIff(series: SeriesOf, eqs: map<string, string>, labels: seq<string>, k: nat)
    requires forall l :: l in labels ==> l in eqs
    ensures Curves(series, eqs, labels, k).Ok? <==> forall i :: k <= i < |labels| ==> series(eqs[labels[i]]).Ok?
    decreases |labels| - k
  {
    if k < |labels| {
      CurvesOkIff(series, eqs, labels, k + 1);
    }
  }

  /** `curve` is the one drawn for slot `l`: its label and its series. */
  ghost predicate CurveFor(series: SeriesOf, eqs: map<string, string>, l: string, curve: (string, seq<Float>))
  {
    l in eqs && curve.0 == l && series(eqs[l]) == Ok(curve.1)
  }

  /** One curve per remaining label, in order, holding that label's series. */
  lemma {:induction false} CurvesPerLabel(series: SeriesOf, eqs: map<string, string>, labels: seq<string>, k: nat)
    requires forall l :: l in labels ==> l in eqs
    requires k <= |labels| && Curves(series, eqs, labels, k).Ok?
    ensures var cs := Curves(series, eqs, labels, k).value;
      |cs| == |labels| - k && forall i :: 0 <= i < |cs| ==> CurveFor(series, eqs, labels[k + i], cs[i])
    decreases |labels| - k
  {
    if k < |labels| {
      var ys := series(eqs[labels[k]]);
      var next := Curves(series, eqs, labels, k + 1);
      assert ys.Ok? && next.Ok?;
      var cs := Curves(series, eqs, labels, k).value;
      var rest := next.value;
      assert cs == [(labels[k], ys.value)] + rest;
      assert |rest| == |labels| - (k + 1) && forall i :: 0 <= i < |rest| ==> CurveFor(series, eqs, labels[k + 1 + i], rest[i]) by {
        CurvesPerLabel(series, eqs, labels, k + 1);
      }
      forall i | 0 <= i < |cs| ensures CurveFor(series, eqs, labels[k + i], cs[i]) {
        if i > 0 {
          assert cs[i] == rest[i - 1] && k + 1 + (i - 1) == k + i;
        }
      }
    }
  }

  /** The curves `plot` draws: one per label, in order, each that label's series. */
  lemma PlotCurves(c: Calc, eqs: map<string, string>, labels: seq<string>, xs: seq<real>, curves: seq<(string, seq<Float>)>)
    requires forall l :: l in labels ==> l in eqs
    requires Curves(SeriesFn(c, xs), eqs, labels, 0) == Ok(curves)
    ensures |curves| == |labels|
    ensures forall i :: 0 <= i < |labels| ==> curves[i].0 == labels[i] && Series(c, eqs[labels[i]], xs) == Ok(curves[i].1)
  {
    var f := SeriesFn(c, xs);
    CurvesPerLabel(f, eqs, labels, 0);
    forall i | 0 <= i < |labels| ensures curves[i].0 == labels[i] && Series(c, eqs[labels[i]], xs) == Ok(curves[i].1) {
      assert CurveFor(f, eqs, labels[0 + i], curves[i]);
    }
  }

  /** `plot`, without the drawing. */
  function PlotSpec(c: Calc, eqs: map<string, string>, window: GraphWindow): (r: Result<Figure, Failure>)
    ensures r == Err(TI84Error(ErrNoFunction)) <==> eqs == map[]
    ensures eqs != map[] && r.Err? ==> r.error.Raised?
    ensures r.Ok? ==> r.value.window == window && r.value.xs == GeneratePoints(window.xmin, window.xmax, PlotSamples)
    ensures r.Ok? ==> var labels := SortedKeys(eqs.Keys);
      && |r.value.curves| == |labels|
      && (forall i :: 0 <= i < |labels| ==>
            r.value.curves[i].0 == labels[i] && Series(c, eqs[labels[i]], r.value.xs) == Ok(r.value.curves[i].1))
      && Annotations(c, eqs, r.value.xs) == Ok(r.value.marks)
  {
    if eqs == map[] then Err(TI84Error(ErrNoFunction))
    else
      var xs := GeneratePoints(window.xmin, window.xmax, PlotSamples);
      var labels := SortedKeys(eqs.Keys);
      match Curves(SeriesFn(c, xs), eqs, labels, 0)
      case Err(k) => Err(Raised(k))
      case Ok(curves) =>
        PlotCurves(c, eqs, labels, xs, curves);
        match Annotations(c, eqs, xs)
        case Err(k) => Err(Raised(k))
        case Ok(marks) => Ok(Figure(window, xs, curves, marks))
  }

  /** Every sorted label's series returns exactly when every slot's does. */
  lemma LabelsCover(f: SeriesOf, eqs: map<string, string>, labels: seq<string>)
    requires forall l :: l in labels <==> l in eqs
    ensures (forall i :: 0 <= i < |labels| ==> f(eqs[labels[i]]).Ok?) <==> (forall l :: l in eqs ==> f(eqs[l]).Ok?)
  {
    if forall i :: 0 <= i < |labels| ==> f(eqs[labels[i]]).Ok? {
      forall l | l in eqs ensures f(eqs[l]).Ok? {
        var i :| 0 <= i < |labels| && labels[i] == l;
      }
    }
  }

  /** With at least one equation, `plot` returns a figure exactly when every
      equation's series and the intersection annotation return. */
  lemma PlotOkIff(c: Calc, eqs: map<string, string>, window: GraphWindow)
    requires eqs != map[]
    ensures var xs := GeneratePoints(window.xmin, window.xmax, PlotSamples);
      PlotSpec(c, eqs, window).Ok? <==> (forall l :: l in eqs ==> Series(c, eqs[l], xs).Ok?) && Annotations(c, eqs, xs).Ok?
  {
    var xs := GeneratePoints(window.xmin, window.xmax, PlotSamples);
    var labels := SortedKeys(eqs.Keys);
    var f := SeriesFn(c, xs);
    assert Curves(f, eqs, labels, 0).Ok? <==> forall l :: l in eqs ==> f(eqs[l]).Ok? by {
      CurvesOkIff(f, eqs, labels, 0);
      LabelsCover(f, eqs, labels);
    }
    assert (forall l :: l in eqs ==> f(eqs[l]).Ok?) <==> (forall l :: l in eqs ==> Series(c, eqs[l], xs).Ok?);
  }

  // ---------------------------------------------------------------------------
  // The engine object

  class GraphingEngine {
    const calculator: Engine
    var equations: map<string, string>
    var window: GraphWindow

    ghost predicate Valid()
      reads this
    {
      SlotsValid(equations) && window.Valid()
    }

    /** The calculator state the sampling reads. */
    function CalcState(): Calc
      reads calculator
    {
      Calc(calculator.host, calculator.memory, calculator.history)
    }

    constructor (calculator: Engine)
      ensures this.calculator == calculator
      ensures equations == map[] && window == DefaultWindow
      ensures Valid()
    {
      this.calculator := calculator;
      equations := map[];
      window := DefaultWindow;
    }

    /** `set_equation`: stores the stripped expression, or clears the slot. */
    method SetEquation(slot: string, expression: string)
      modifies this`equations
      ensures equations == WithEquation(old(equations), slot, expression)
      ensures window == old(window) && (old(Valid()) ==> Valid())
    {
      var clean := Strip(expression);
      if clean != [] {
        equations := equations[slot := clean];
      } else {
        equations := equations - {slot};
      }
    }

    /** A copy of the slots; changes nothing. */
    method GetEquations() returns (r: map<string, string>)
      ensures r == equations
    {
      r := equations;
    }

    /** `set_window`: the error it raises, if any; on an error the window stays as it was. */
    method SetWindow(xmin: real, xmax: real, ymin: real, ymax: real) returns (error: Option<string>)
      modifies this`window
      ensures error.Some? <==> CheckedWindow(xmin, xmax, ymin, ymax).Err?
      ensures error.Some? ==> error.value == ErrWindow && window == old(window)
      ensures error.None? ==> window == GraphWindow(xmin, xmax, ymin, ymax)
      ensures equations == old(equations) && (old(Valid()) ==> Valid())
    {
      if xmin >= xmax || ymin >= ymax {
        return Some(ErrWindow);
      }
      window := GraphWindow(xmin, xmax, ymin, ymax);
      error := None;
    }

    /** `auto_window`: the fixed default window, whatever the equations. */
    method AutoWindow()
      modifies this`window
      ensures window == DefaultWindow
      ensures equations == old(equations) && (old(Valid()) ==> Valid())
    {
      window := GraphWindow(-10.0, 10.0, -10.0, 10.0);
    }

    /** `_evaluate_series`; changes nothing. */
    method EvaluateSeries(expression: string, xs: seq<real>) returns (r: Result<seq<Float>, PyException>)
      ensures r == Series(CalcState(), expression, xs)
    {
      var values: seq<Float> := [];
      assert xs[0..] == xs;
      PrependNothing(Series(CalcState(), expression, xs));
      for i := 0 to |xs|
        invariant Series(CalcState(), expression, xs) == Prepend(values, Series(CalcState(), expression, xs[i..]))
      {
        assert xs[i..][1..] == xs[i + 1..];
        var y := calculator.EvaluateFunction(expression, xs[i]);
        assert y == At(CalcState(), expression, xs[i]);
        if y.Err? && y.error.Raised? {
          assert Series(CalcState(), expression, xs[i..]) == Err(y.error.kind);
          return Err(y.error.kind);
        }
        var yValue := if y.Ok? then y.value else NaN;
        PrependTwice(values, [yValue], Series(CalcState(), expression, xs[i + 1..]));
        values := values + [yValue];
      }
      assert xs[|xs|..] == [];
      assert values + [] == values;
      r := Ok(values);
    }

    /** `_find_intersections`; changes nothing. */
    method FindIntersections(exprA: string, exprB: string, xs: seq<real>) returns (r: Result<seq<(real, real)>, PyException>)
      ensures r == Intersections(CalcState(), exprA, exprB, xs)
    {
      var intersections: seq<(real, real)> := [];
      var lastDiff: Option<real> := None;
      var lastX: real, lastY: real := 0.0, 0.0;
      var i := 0;
      while i < |xs|
        invariant 0 <= i <= |xs|
        invariant ScanFrom(CalcState(), exprA, exprB, Start, xs) ==
          ScanFrom(CalcState(), exprA, exprB,
                   Scan(if lastDiff.Some? then Some(Sample(lastDiff.value, lastX, lastY)) else None, intersections),
                   xs[i..])
      {
        assert xs[i..][1..] == xs[i + 1..];
        var xValue := xs[i];
        i := i + 1;
        var yA := calculator.EvaluateFunction(exprA, xValue);
        if yA.Err? {
          if yA.error.Raised? {
            return Err(yA.error.kind);
          }
          continue;
        }
        var yB := calculator.EvaluateFunction(exprB, xValue);
        if yB.Err? {
          if yB.error.Raised? {
            return Err(yB.error.kind);
          }
          continue;
        }
        var diff := Sub(yA.value, yB.value);
        if !diff.Num? {
          continue;
        }
        if lastDiff.Some? && diff.r == 0.0 {
          intersections := intersections + [(xValue, yA.value.r)];
        } else if lastDiff.Some? && (diff.r > 0.0) != (lastDiff.value > 0.0) {
          intersections := intersections + [Interpolate(Sample(lastDiff.value, lastX, lastY), xValue, yA.value.r, diff.r)];
        }
        lastDiff, lastX, lastY := Some(diff.r), xValue, yA.value.r;
      }
      assert xs[|xs|..] == [];
      r := Ok(intersections);
    }

    /** `_annotate_intersections`, returning the points it marks; changes nothing. */
    method AnnotateIntersections(xs: seq<real>) returns (r: Result<seq<(real, real)>, PyException>)
      ensures r == Annotations(CalcState(), equations, xs)
    {
      if |equations| < 2 {
        return Ok([]);
      }
      var labels := SortedKeys(equations.Keys);
      var n := |labels|;
      ghost var c := CalcState();
      ghost var spec := MarksFrom(c, equations, labels, 0, xs);
      var marks: seq<(real, real)> := [];
      PrependNothing(spec);
      for i := 0 to n
        invariant spec == Prepend(marks, MarksFrom(c, equations, labels, i, xs))
      {
        for j := i + 1 to n
          invariant spec == Prepend(marks, Then(RowMarks(c, equations, labels, i, j, xs), MarksFrom(c, equations, labels, i + 1, xs)))
        {
          var found := FindIntersections(equations[labels[i]], equations[labels[j]], xs);
          if found.Err? {
            return Err(found.error);
          }
          ThenPrepend(found.value, RowMarks(c, equations, labels, i, j + 1, xs), MarksFrom(c, equations, labels, i + 1, xs));
          PrependTwice(marks, found.value, Then(RowMarks(c, equations, labels, i, j + 1, xs), MarksFrom(c, equations, labels, i + 1, xs)));
          marks := marks + found.value;
        }
        PrependNothing(MarksFrom(c, equations, labels, i + 1, xs));
      }
      assert marks + [] == marks;
      r := Ok(marks);
    }

    /** `plot`, returning what it would draw; changes nothing. */
    method Plot() returns (r: Result<Figure, Failure>)
      ensures r == PlotSpec(CalcState(), equations, window)
    {
      if equations == map[] {
        return Err(TI84Error(ErrNoFunction));
      }
      var xs := GeneratePoints(window.xmin, window.xmax, PlotSamples);
      var labels := SortedKeys(equations.Keys);
      ghost var c := CalcState();
      ghost var series := SeriesFn(c, xs);
      ghost var spec := Curves(series, equations, labels, 0);
      var curves: seq<(string, seq<Float>)> := [];
      PrependNothing(spec);
      for k := 0 to |labels|
        invariant spec == Prepend(curves, Curves(series, equations, labels, k))
      {
        var ys := EvaluateSeries(equations[labels[k]], xs);
        if ys.Err? {
          return Err(Raised(ys.error));
        }
        PrependTwice(curves, [(labels[k], ys.value)], Curves(series, equations, labels, k + 1));
        curves := curves + [(labels[k], ys.value)];
      }
      assert curves + [] == curves;
      var marks := AnnotateIntersections(xs);
      if marks.Err? {
        return Err(Raised(marks.error));
      }
      r := Ok(Figure(window, xs, curves, marks.value));
    }
  }
}
