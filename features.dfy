/** The lag table built by both `make_features` functions, and the configuration it reads. */
module Features {
  import opened Wrappers
  import opened Frames
  import opened Slicing

  /** `days * perDay` for a whole number of days (a Python integer, possibly negative),
      spelt out as repeated addition: proofs about the lag table then see linear facts only,
      and `MulIsProduct` shows it is the product. */
  function Mul(days: int, perDay: nat): (n: int)
    decreases if days < 0 then -days else days
    ensures days >= 0 ==> n >= 0
  {
    if days == 0 then 0
    else if days > 0 then Mul(days - 1, perDay) + perDay
    else Mul(days + 1, perDay) - perDay
  }

  lemma {:induction false} MulIsProduct(days: int, perDay: nat)
    ensures Mul(days, perDay) == days * perDay
    decreases if days < 0 then -days else days
  {
    if days > 0 {
      MulIsProduct(days - 1, perDay);
      assert (days - 1) * perDay + perDay == days * perDay;
    } else if days < 0 {
      MulIsProduct(days + 1, perDay);
      assert (days + 1) * perDay - perDay == days * perDay;
    }
  }

  lemma MulStep(days: int, perDay: nat)
    ensures Mul(days + 1, perDay) == Mul(days, perDay) + perDay
  {
    if days < -1 {
      assert Mul(days, perDay) == Mul(days + 1, perDay) - perDay;
    }
  }

  /** Counting in days distributes over a difference: `(a - b) * perDay == a * perDay - b * perDay`. */
  lemma {:induction false} MulSub(a: int, b: nat, perDay: nat)
    ensures Mul(a - b, perDay) == Mul(a, perDay) - Mul(b, perDay)
  {
    if b > 0 {
      MulSub(a, b - 1, perDay);
      MulStep(a - b, perDay);
    }
  }

  /** `YEAR_SHIFT`, `WEEK_SHIFT` (both in days) and `VALUES_PER_DAY`. */
  datatype Config = Config(yearShift: nat, weekShift: nat, valuesPerDay: nat) {

    /** Samples in a year: `YEAR_SHIFT * VALUES_PER_DAY`, the position of the first target. */
    function YearLag(): nat { Mul(yearShift, valuesPerDay) }

    /** Samples in a week. */
    function WeekLag(): nat { Mul(weekShift, valuesPerDay) }

    /** Samples in a day. */
    function DayLag(): nat { valuesPerDay }

    /** The day and week lags reach no further back than the year lag, so that no slice of
        `make_features` starts at a negative position (which Python reads from the end). */
    predicate WellFormed()
    {
      DayLag() <= YearLag() && WeekLag() <= YearLag()
    }
  }

  /** The values both config.py files set: 365, 7 and 24. */
  const Shipped: Config := Config(365, 7, 24)

  /** With the shipped configuration the first target sits at position 8760, and row `i`
      reads `x` at `8736 + i` (a day earlier) and `x_shifted_week` at `8592 + i` (a week
      earlier). */
  lemma ShippedOffsets()
    ensures Shipped.WellFormed()
    ensures OffsetsOf(Shipped) == Offsets(8736, 8592, 8760)
  {
    MulIsProduct(365, 24);
    MulIsProduct(7, 24);
    MulIsProduct(358, 24);
  }

  datatype Column<T> = Column(name: string, values: seq<T>)

  /** The DataFrame `make_features` returns: columns `x`, `y`, `x_shifted_week`,
      `x_shifted_year` and the covariates, on a shared index. */
  datatype FeatureTable<T> = FeatureTable(
    index: seq<Time>,
    x: seq<T>,
    y: seq<T>,
    xWeek: seq<T>,
    xYear: seq<T>,
    covariates: seq<Column<T>>)

  /** Every column is as long as the index, as in any DataFrame. */
  predicate WellShaped<T>(t: FeatureTable<T>)
  {
    && |t.x| == |t.index| && |t.y| == |t.index| && |t.xWeek| == |t.index| && |t.xYear| == |t.index|
    && forall k | 0 <= k < |t.covariates| :: |t.covariates[k].values| == |t.index|
  }

  /** Position of the first covariate column called `name`. */
  function CovariateIndex<T>(cols: seq<Column<T>>, name: string): (r: Option<nat>)
    ensures r.Some? ==> r.value < |cols| && cols[r.value].name == name
    ensures r.None? ==> forall k | 0 <= k < |cols| :: cols[k].name != name
  {
    if cols == [] then None
    else if cols[0].name == name then Some(0)
    else match CovariateIndex(cols[1..], name)
      case None => None
      case Some(k) => Some(k + 1)
  }

  /** `df[name]`: a lag column or a covariate column of the table, if there is one so called. */
  function ColumnNamed<T>(t: FeatureTable<T>, name: string): (r: Option<seq<T>>)
    ensures WellShaped(t) && r.Some? ==> |r.value| == |t.index|
  {
    if name == "x" then Some(t.x)
    else if name == "y" then Some(t.y)
    else if name == "x_shifted_week" then Some(t.xWeek)
    else if name == "x_shifted_year" then Some(t.xYear)
    else match CovariateIndex(t.covariates, name)
      case None => None
      case Some(k) => Some(t.covariates[k].values)
  }

  function Min4(a: nat, b: nat, c: nat, d: nat): (m: nat)
    ensures m <= a && m <= b && m <= c && m <= d
    ensures m == a || m == b || m == c || m == d
  {
    var ab := if a <= b then a else b;
    var abc := if ab <= c then ab else c;
    if abc <= d then abc else d
  }

  /** Where the slices of `make_features` start, in samples: `x` at
      `YEAR_SHIFT * VALUES_PER_DAY - VALUES_PER_DAY`, `x_shifted_week` at
      `(YEAR_SHIFT - WEEK_SHIFT) * VALUES_PER_DAY` and `y` (and the index) at
      `YEAR_SHIFT * VALUES_PER_DAY`; `x_shifted_year` starts at 0. */
  datatype Offsets = Offsets(x: int, week: int, target: nat) {
    predicate NonNegative() { 0 <= x <= target && 0 <= week <= target }
  }

  function OffsetsOf(cfg: Config): (o: Offsets)
    ensures o.target == cfg.YearLag()
    ensures o.x == cfg.YearLag() - cfg.DayLag()
    ensures o.week == cfg.YearLag() - cfg.WeekLag()
    ensures o.NonNegative() <==> cfg.WellFormed()
  {
    MulSub(cfg.yearShift, cfg.weekShift, cfg.valuesPerDay);
    Offsets(cfg.YearLag() - cfg.valuesPerDay, Mul(cfg.yearShift - cfg.weekShift, cfg.valuesPerDay), cfg.YearLag())
  }

  /** `rcut_idx` for a series of `n` values: the length of the shortest of the four slices
      `x`, `y`, `x_shifted_week` and `x_shifted_year`. It is zero when the series is no longer
      than a year, and, when no slice starts at a negative position, it is the number of
      values after the first year and every slice starts where its offset says. */
  function Cut(o: Offsets, n: nat): (c: nat)
    ensures c <= n - Bound(o.x, n) && c <= n - Bound(o.target, n) && c <= n - Bound(o.week, n) && c <= n
    ensures c == n - Bound(o.x, n) || c == n - Bound(o.target, n) || c == n - Bound(o.week, n) || c == n
    ensures n <= o.target ==> c == 0
    ensures c > 0 ==> Bound(o.target, n) == o.target
    ensures o.NonNegative() ==> c == if n <= o.target then 0 else n - o.target
    ensures o.NonNegative() && c > 0 ==> Bound(o.x, n) == o.x && Bound(o.week, n) == o.week
  {
    Min4(n - Bound(o.x, n), n - Bound(o.target, n), n - Bound(o.week, n), n)
  }

  /** `s[start:][:cut]`, for a `cut` no longer than `s[start:]` (see `ShiftIsSlice`). */
  function Shift<T>(s: seq<T>, start: int, cut: nat): (r: seq<T>)
    requires cut <= |s| - Bound(start, |s|)
    ensures |r| == cut
    ensures forall i | 0 <= i < cut :: r[i] == s[Bound(start, |s|) + i]
  {
    var b := Bound(start, |s|);
    s[b..b + cut]
  }

  /** `Shift` is Python's `s[start:][:cut]`. */
  lemma ShiftIsSlice<T>(s: seq<T>, start: int, cut: nat)
    requires cut <= |s| - Bound(start, |s|)
    ensures Shift(s, start, cut) == Take(From(s, start), cut)
  {
  }

  /** The four slices of the `value` column and the shared index, as `make_features` cuts them:
      row `i` holds the target at position `target + i`, the value `i` (a year earlier), and
      the values `i` places after where the `x` and `x_shifted_week` slices start (a negative
      start counting from the end, as in Python); when no start is negative, those are the
      values at `x + i` and `week + i`. */
  function Lags<T>(o: Offsets, index: seq<Time>, v: seq<T>): (r: FeatureTable<T>)
    requires |index| == |v|
    ensures LagColumns(o, index, v, r)
  {
    var n := |v|;
    var cut := Cut(o, n);
    CutStarts(o, n);
    IndexSlice(o, index);
    var idx := Slice(index, o.target, cut + o.target);
    var xs, ys, ws, yr := Shift(v, o.x, cut), Shift(v, o.target, cut), Shift(v, o.week, cut), Shift(v, 0, cut);
    var r := FeatureTable(idx, xs, ys, ws, yr, []);
    LagsAt(o, index, v, r, Bound(o.target, n), Bound(o.x, n), Bound(o.week, n));
    r
  }

  /** Each slice holds at least `Cut(o, n)` values, and the slices start at the offsets
      themselves whenever the cut is not empty. */
  lemma CutStarts(o: Offsets, n: nat)
    ensures var cut, t, x, w := Cut(o, n), Bound(o.target, n), Bound(o.x, n), Bound(o.week, n);
      && t + cut <= n && x + cut <= n && w + cut <= n
      && (cut > 0 ==> t == o.target && o.target + cut <= n)
      && (o.NonNegative() && cut > 0 ==> x == o.x && w == o.week)
  {
  }

  /** The index slice `index[target:][:cut]` has `cut` labels. */
  lemma IndexSlice(o: Offsets, index: seq<Time>)
    ensures |Slice(index, o.target, Cut(o, |index|) + o.target)| == Cut(o, |index|)
  {
    var n, cut := |index|, Cut(o, |index|);
    if cut > 0 {
      assert Bound(o.target, n) == o.target;
      assert Bound(cut + o.target, n) == cut + o.target;
    }
  }

  /** Columns read from the starts `t`, `x` and `w` of the slices form the table `LagColumns`
      describes, once those starts are the offsets themselves whenever the table has rows. */
  lemma LagsAt<T>(o: Offsets, index: seq<Time>, v: seq<T>, r: FeatureTable<T>, t: nat, x: nat, w: nat)
    requires |index| == |v| && r.covariates == [] && |r.index| == Cut(o, |v|)
    requires |r.x| == |r.index| && |r.y| == |r.index| && |r.xWeek| == |r.index| && |r.xYear| == |r.index|
    requires r.index != [] ==> t == o.target && o.target + |r.index| <= |v|
    requires x == Bound(o.x, |v|) && w == Bound(o.week, |v|)
    requires o.NonNegative() && r.index != [] ==> x == o.x && w == o.week
    requires t + |r.index| <= |v| && x + |r.index| <= |v| && w + |r.index| <= |v|
    requires forall i | 0 <= i < |r.index| :: r.index[i] == index[t + i]
    requires forall i | 0 <= i < |r.index| :: r.y[i] == v[t + i]
    requires forall i | 0 <= i < |r.index| :: r.x[i] == v[x + i]
    requires forall i | 0 <= i < |r.index| :: r.xWeek[i] == v[w + i]
    requires forall i | 0 <= i < |r.index| :: r.xYear[i] == v[i]
    ensures LagColumns(o, index, v, r)
  {
  }

  /** What `Lags` promises about its table, as a property of any table `r`. */
  ghost predicate LagColumns<T>(o: Offsets, index: seq<Time>, v: seq<T>, r: FeatureTable<T>)
    requires |index| == |v|
  {
    && WellShaped(r) && r.covariates == [] && |r.index| == Cut(o, |v|)
    && (r.index != [] ==> o.target + |r.index| <= |v|)
    && (forall i | 0 <= i < |r.index| ::
          && r.index[i] == index[o.target + i]
          && r.y[i] == v[o.target + i]
          && r.xYear[i] == v[i])
    && Bound(o.x, |v|) + |r.index| <= |v| && Bound(o.week, |v|) + |r.index| <= |v|
    && (forall i | 0 <= i < |r.index| ::
          && r.x[i] == v[Bound(o.x, |v|) + i]
          && r.xWeek[i] == v[Bound(o.week, |v|) + i])
    && (o.NonNegative() ==> forall i | 0 <= i < |r.index| ::
          && r.x[i] == v[o.x + i]
          && r.xWeek[i] == v[o.week + i])
  }

  /** `Lags` of the `value` column of a series, on its timestamps: row `i` is the forecast
      instant at position `target + i` of the series. */
  function SeriesLags<T>(o: Offsets, s: Series<T>): (r: FeatureTable<T>)
    ensures LagTable(o, s, r)
  {
    var r := Lags(o, Times(s.rows), Values(s.rows));
    OnSeries(o, s, r);
    r
  }

  /** The lag table of the timestamps and values of a series, read back on the series' rows. */
  lemma OnSeries<T>(o: Offsets, s: Series<T>, r: FeatureTable<T>)
    requires LagColumns(o, Times(s.rows), Values(s.rows), r)
    ensures LagTable(o, s, r)
  {
    OnRows(o, s, Times(s.rows), Values(s.rows), r);
  }

  /** `OnSeries` for any columns `index` and `v` that hold the series' timestamps and values. */
  lemma OnRows<T>(o: Offsets, s: Series<T>, index: seq<Time>, v: seq<T>, r: FeatureTable<T>)
    requires |index| == |s.rows| && |v| == |s.rows|
    requires forall k | 0 <= k < |s.rows| :: index[k] == s.rows[k].time && v[k] == s.rows[k].value
    requires LagColumns(o, index, v, r)
    ensures LagTable(o, s, r)
  {
    var bx, bw := Bound(o.x, |v|), Bound(o.week, |v|);
    forall i | 0 <= i < |r.index|
      ensures && r.index[i] == s.rows[o.target + i].time && r.y[i] == s.rows[o.target + i].value
              && r.xYear[i] == s.rows[i].value
              && r.x[i] == s.rows[bx + i].value && r.xWeek[i] == s.rows[bw + i].value
    {
      assert r.index[i] == index[o.target + i] && r.y[i] == v[o.target + i] && r.xYear[i] == v[i];
      assert r.x[i] == v[bx + i] && r.xWeek[i] == v[bw + i];
    }
    if o.NonNegative() {
      forall i | 0 <= i < |r.index|
        ensures r.x[i] == s.rows[o.x + i].value && r.xWeek[i] == s.rows[o.week + i].value
      {
        assert r.x[i] == v[o.x + i] && r.xWeek[i] == v[o.week + i];
      }
    }
  }

  /** What `SeriesLags` promises about its table, as a property of any table `t`. */
  ghost predicate LagTable<T>(o: Offsets, s: Series<T>, t: FeatureTable<T>)
  {
    && WellShaped(t) && t.covariates == [] && |t.index| == Cut(o, |s.rows|)
    && (t.index != [] ==> o.target + |t.index| <= |s.rows|)
    && (forall i | 0 <= i < |t.index| ::
          && t.index[i] == s.rows[o.target + i].time
          && t.y[i] == s.rows[o.target + i].value
          && t.xYear[i] == s.rows[i].value)
    && Bound(o.x, |s.rows|) + |t.index| <= |s.rows| && Bound(o.week, |s.rows|) + |t.index| <= |s.rows|
    && (forall i | 0 <= i < |t.index| ::
          && t.x[i] == s.rows[Bound(o.x, |s.rows|) + i].value
          && t.xWeek[i] == s.rows[Bound(o.week, |s.rows|) + i].value)
    && (o.NonNegative() ==> forall i | 0 <= i < |t.index| ::
          && t.x[i] == s.rows[o.x + i].value
          && t.xWeek[i] == s.rows[o.week + i].value)
  }

  /** The inputs of the forecast made from series row `k` on: the values a day, a week and a
      year before the target (positions `x + k`, `week + k` and `k`), then the covariates of
      row `k`. */
  function LagInputs<T>(o: Offsets, s: Series<T>, k: nat): seq<T>
    requires o.NonNegative() && o.x + k < |s.rows| && o.week + k < |s.rows|
  {
    [s.rows[o.x + k].value, s.rows[o.week + k].value, s.rows[k].value] + s.rows[k].features
  }

  /** The lag table of a well-formed configuration, in the configuration's own terms: it has
      `max(0, N - YEAR_SHIFT * VALUES_PER_DAY)` rows (none at all for a series no longer than a
      year), and row `i` is the forecast instant `YS + i` with its target there, `x` a day
      before it, `x_shifted_week` a week before it and `x_shifted_year` a year before it. */
  lemma Alignment<T>(cfg: Config, s: Series<T>, t: FeatureTable<T>)
    requires cfg.WellFormed() && LagTable(OffsetsOf(cfg), s, t)
    ensures var ys := cfg.YearLag();
      && |t.index| == (if |s.rows| <= ys then 0 else |s.rows| - ys)
      && (t.index != [] ==> ys + |t.index| <= |s.rows|)
      && forall i | 0 <= i < |t.index| ::
           && t.index[i] == s.rows[ys + i].time
           && t.y[i] == s.rows[ys + i].value
           && t.x[i] == s.rows[ys + i - cfg.DayLag()].value
           && t.xWeek[i] == s.rows[ys + i - cfg.WeekLag()].value
           && t.xYear[i] == s.rows[i].value
  {
    AlignedAt(OffsetsOf(cfg), s, t, cfg.YearLag(), cfg.DayLag(), cfg.WeekLag());
  }

  lemma AlignedAt<T>(o: Offsets, s: Series<T>, t: FeatureTable<T>, ys: nat, day: nat, week: nat)
    requires day <= ys && week <= ys && o == Offsets(ys - day, ys - week, ys) && LagTable(o, s, t)
    ensures && |t.index| == (if |s.rows| <= ys then 0 else |s.rows| - ys)
      && (t.index != [] ==> ys + |t.index| <= |s.rows|)
      && forall i | 0 <= i < |t.index| ::
           && t.index[i] == s.rows[ys + i].time
           && t.y[i] == s.rows[ys + i].value
           && t.x[i] == s.rows[ys + i - day].value
           && t.xWeek[i] == s.rows[ys + i - week].value
           && t.xYear[i] == s.rows[i].value
  {
    assert o.NonNegative();
    assert |t.index| == Cut(o, |s.rows|);
    forall i | 0 <= i < |t.index|
      ensures && t.index[i] == s.rows[ys + i].time && t.y[i] == s.rows[ys + i].value
              && t.x[i] == s.rows[ys + i - day].value && t.xWeek[i] == s.rows[ys + i - week].value
              && t.xYear[i] == s.rows[i].value
    {
      assert o.x + i == ys + i - day && o.week + i == ys + i - week;
    }
  }
}
