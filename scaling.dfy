/** The min-max scaling of slaf-project/src/utils.py, `normalize_data` and
    `denormalize_data`, on a column of real numbers. */
module SlafScaling {

  /** IEEE floating point as far as these functions need it: a finite value or NaN. */
  datatype Float = Finite(v: real) | NaN

  /** `data.min()` of a non-empty column. */
  function Min(d: seq<real>): (m: real)
    requires |d| > 0
    ensures m in d && forall x | x in d :: m <= x
  {
    if |d| == 1 then d[0]
    else
      var rest := Min(d[1..]);
      assert forall x | x in d :: x == d[0] || x in d[1..];
      if d[0] <= rest then d[0] else rest
  }

  /** `data.max()` of a non-empty column. */
  function Max(d: seq<real>): (m: real)
    requires |d| > 0
    ensures m in d && forall x | x in d :: x <= m
  {
    if |d| == 1 then d[0]
    else
      var rest := Max(d[1..]);
      assert forall x | x in d :: x == d[0] || x in d[1..];
      if d[0] >= rest then d[0] else rest
  }

  /** `normalize_data(data)` on the value column (a pandas Series): the scaled column, its
      minimum and its maximum. An empty column has minimum and maximum NaN; a constant column
      scales to NaN everywhere (`0 / 0`). */
  datatype Scaled = Scaled(data: seq<Float>, low: Float, high: Float)

  function Normalize(d: seq<real>): (r: Scaled)
    ensures |r.data| == |d|
    ensures d == [] ==> r.low == NaN && r.high == NaN
    ensures d != [] ==> r.low == Finite(Min(d)) && r.high == Finite(Max(d))
    ensures d != [] && r.low.v == r.high.v ==> forall i | 0 <= i < |d| :: r.data[i] == NaN
    ensures d != [] && r.low.v < r.high.v ==> forall i | 0 <= i < |d| ::
      && r.data[i] == Finite(Scale(d[i], r.low.v, r.high.v))
      && 0.0 <= r.data[i].v <= 1.0
  {
    if d == [] then Scaled([], NaN, NaN)
    else
      var lo, hi := Min(d), Max(d);
      assert forall i | 0 <= i < |d| :: d[i] in d;
      assert forall i | 0 <= i < |d| :: lo <= d[i] <= hi;
      ScaleUnit(lo, hi);
      // `0 / 0` is NaN when the column is constant
      Scaled(seq(|d|, i requires 0 <= i < |d| => if lo == hi then NaN else Finite(Scale(d[i], lo, hi))),
             Finite(lo), Finite(hi))
  }

  /** Where `x` lies between `lo` and `hi`, as a fraction of the span. */
  function Scale(x: real, lo: real, hi: real): real
    requires lo < hi
  {
    (x - lo) / (hi - lo)
  }

  /** A value within the bounds scales into `[0, 1]`. */
  lemma ScaleUnit(lo: real, hi: real)
    ensures lo < hi ==> forall x | lo <= x <= hi :: 0.0 <= Scale(x, lo, hi) <= 1.0
  {
    if lo < hi {
      forall x | lo <= x <= hi ensures 0.0 <= Scale(x, lo, hi) <= 1.0 {
        RatioMonotone(0.0, x - lo, hi - lo);
        RatioMonotone(x - lo, hi - lo, hi - lo);
        DivSelf(hi - lo);
        assert Scale(x, lo, hi) == (x - lo) / (hi - lo);
      }
    }
  }

  /** `denormalize_data(data, min_value, max_value)`: `data * (max - min) + min` element by
      element; NaN anywhere gives NaN. */
  function Denormalize(data: seq<Float>, low: Float, high: Float): (r: seq<Float>)
    ensures |r| == |data|
    ensures forall i | 0 <= i < |data| ::
      r[i] == if data[i].NaN? || low.NaN? || high.NaN? then NaN
              else Finite(Unscale(data[i].v, low.v, high.v))
  {
    seq(|data|, i requires 0 <= i < |data| =>
      if data[i].NaN? || low.NaN? || high.NaN? then NaN else Finite(Unscale(data[i].v, low.v, high.v)))
  }

  /** The value at fraction `q` of the span from `lo` to `hi`. */
  function Unscale(q: real, lo: real, hi: real): real
  {
    q * (hi - lo) + lo
  }

  /** Undoing the scaling of a value gives the value back. */
  lemma Rescaled(x: real, lo: real, hi: real)
    requires lo < hi
    ensures Unscale(Scale(x, lo, hi), lo, hi) == x
  {
  }

  lemma DivSelf(span: real)
    requires span > 0.0
    ensures 0.0 / span == 0.0 && span / span == 1.0
  {
  }

  lemma RatioMonotone(a: real, b: real, span: real)
    requires a <= b && span > 0.0
    ensures a / span <= b / span
  {
  }

  /** Scaling keeps the order of values; the lower bound maps to 0 and the upper to 1. */
  lemma ScaleMonotone(x: real, y: real, lo: real, hi: real)
    requires lo < hi && x <= y
    ensures Scale(x, lo, hi) <= Scale(y, lo, hi)
    ensures Scale(lo, lo, hi) == 0.0 && Scale(hi, lo, hi) == 1.0
  {
    RatioMonotone(x - lo, y - lo, hi - lo);
    DivSelf(hi - lo);
    assert Scale(lo, lo, hi) == 0.0 / (hi - lo);
    assert Scale(hi, lo, hi) == (hi - lo) / (hi - lo);
  }

  /** Denormalizing with the minimum and maximum normalization returned gives back the
      column, unless the column is empty or constant. */
  lemma RoundTrip(d: seq<real>)
    requires d != [] && Min(d) < Max(d)
    ensures var n := Normalize(d);
      Denormalize(n.data, n.low, n.high) == seq(|d|, i requires 0 <= i < |d| => Finite(d[i]))
  {
    var n := Normalize(d);
    var back := Denormalize(n.data, n.low, n.high);
    forall i | 0 <= i < |d| ensures back[i] == Finite(d[i]) {
      Rescaled(d[i], n.low.v, n.high.v);
    }
  }

  /** Scaling keeps the order of the values; the smallest value maps to 0, the largest to 1. */
  lemma NormalizeMonotone(d: seq<real>, i: nat, j: nat)
    requires i < |d| && j < |d| && d[i] <= d[j] && Min(d) < Max(d)
    ensures var n := Normalize(d);
      && n.data[i].v <= n.data[j].v
      && (d[i] == Min(d) ==> n.data[i].v == 0.0)
      && (d[j] == Max(d) ==> n.data[j].v == 1.0)
  {
    var n := Normalize(d);
    ScaleMonotone(d[i], d[j], n.low.v, n.high.v);
  }
}
