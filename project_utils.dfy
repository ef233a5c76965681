/** project/utils.py: the data preparation of the newer pipeline, with covariate columns. */
module ProjectUtils {
  import opened Wrappers
  import opened Frames
  import opened Slicing
  import opened Cleaning
  import opened Features
  import opened Windows

  /** `prepare_data(df, station, features)`: select the timestamp, station and covariate
      columns (KeyError when one is missing), rename the station column to `value`, then
      sort by timestamp, drop rows with a missing cell and keep the first row per timestamp. */
  function PrepareData<C>(df: RawFrame<C>, station: string, features: seq<string>): (r: Result<Series<Option<C>>, Error>)
    requires Rectangular(df)
    ensures r.Err? <==> exists n | n in [station] + features :: n !in df.header
    ensures r.Err? ==> r.error == MissingColumns(Missing(df.header, [station] + features))
    ensures r.Ok? ==>
      var selected := Select(df, station, features).value.rows;
      && r.value.names == features && Shaped(r.value)
      && StrictlyAscending(r.value.rows)
      && (forall e | e in r.value.rows :: NullFree(e) && HasClean(selected, e.time) && e == FirstClean(selected, e.time))
      && (forall t | HasClean(selected, t) :: t in Times(r.value.rows))
  {
    match Select(df, station, features)
    case Err(e) => Err(e)
    case Ok(s) =>
      var rows := Clean(s.rows);
      assert forall i | 0 <= i < |rows| :: |rows[i].features| == |s.names| by {
        forall i | 0 <= i < |rows| ensures |rows[i].features| == |s.names| {
          assert rows[i] in rows;
          var p :| 0 <= p < |s.rows| && s.rows[p] == rows[i];
        }
      }
      Ok(Series(s.names, rows))
  }

  /** `make_features(df, features)`: the lag columns of the `value` column at the offsets of
      the configuration, and every covariate column of the series cut to the same length from
      position 0. */
  function MakeFeatures<T>(cfg: Config, df: Series<T>): (r: FeatureTable<T>)
    requires Shaped(df)
    ensures FeatureTableOf(OffsetsOf(cfg), df, r)
  {
    var lags := SeriesLags(OffsetsOf(cfg), df);
    var r := FeatureTable(lags.index, lags.x, lags.y, lags.xWeek, lags.xYear, Covariates(df, |lags.index|));
    assert r.(covariates := []) == lags;
    r
  }

  /** The table `make_features` builds from series `s` at offsets `o`: the lag table of the
      `value` column, followed by the covariate columns of `s` under their own names, each cut
      to the rows of the table. */
  ghost predicate FeatureTableOf<T>(o: Offsets, s: Series<T>, t: FeatureTable<T>)
  {
    && Shaped(s) && LagTable(o, s, t.(covariates := []))
    && |t.covariates| == |s.names|
    && (forall k | 0 <= k < |s.names| :: t.covariates[k].name == s.names[k] && |t.covariates[k].values| == |t.index|)
    && (forall k, i | 0 <= k < |s.names| && 0 <= i < |t.index| :: t.covariates[k].values[i] == s.rows[i].features[k])
  }

  /** The covariate columns of `make_features`: each feature column of the series, cut to its
      first `cut` values. */
  function Covariates<T>(df: Series<T>, cut: nat): (cols: seq<Column<T>>)
    requires Shaped(df) && cut <= |df.rows|
    ensures |cols| == |df.names|
    ensures forall k | 0 <= k < |df.names| :: cols[k].name == df.names[k] && |cols[k].values| == cut
    ensures forall k, i | 0 <= k < |df.names| && 0 <= i < cut :: cols[k].values[i] == df.rows[i].features[k]
  {
    seq(|df.names|, k requires 0 <= k < |df.names| => Column(df.names[k], Take(FeatureValues(df.rows, k), cut)))
  }

  /** `generate_train_data(df, features, dt_from, dt_till)`: the rows strictly between the
      given bounds, in table order; X row = `[x, x_shifted_week, x_shifted_year, *features]`,
      Y row = `[y]`. A requested column the table lacks raises KeyError. */
  function GenerateTrainData<T>(df: FeatureTable<T>, features: seq<string>, dtFrom: Option<Time>, dtTill: Option<Time>)
    : (r: Result<Window<T>, Error>)
    requires WellShaped(df)
    ensures r.Err? <==> exists f | f in features :: ColumnNamed(df, f).None?
    ensures r.Err? ==> r.error == MissingColumns(Unknown(df, features))
    ensures r.Ok? ==>
      var ks := Kept(df.index, dtFrom, dtTill);
      && |r.value.X| == |ks| && |r.value.Y| == |ks|
      && (forall j | 0 <= j < |ks| :: r.value.Y[j] == [df.y[ks[j]]] && |r.value.X[j]| == 3 + |features|)
      && (forall j | 0 <= j < |ks| ::
            r.value.X[j][0] == df.x[ks[j]] && r.value.X[j][1] == df.xWeek[ks[j]] && r.value.X[j][2] == df.xYear[ks[j]])
      && (forall j, f | 0 <= j < |ks| && 0 <= f < |features| ::
            ColumnNamed(df, features[f]).Some? && r.value.X[j][3 + f] == ColumnNamed(df, features[f]).value[ks[j]])
  {
    var missing := Unknown(df, features);
    if missing != [] then
      assert missing[0] in missing;
      Err(MissingColumns(missing))
    else
      var cols := Inputs(df, features);
      var w := Project(cols, df.y, Kept(df.index, dtFrom, dtTill));
      Ok(w)
  }

  /** The columns `["x", "x_shifted_week", "x_shifted_year"] + features` of a table that has
      all of them. */
  function Inputs<T>(df: FeatureTable<T>, features: seq<string>): (cols: seq<seq<T>>)
    requires WellShaped(df)
    requires forall f | f in features :: ColumnNamed(df, f).Some?
    ensures |cols| == 3 + |features|
    ensures forall c | 0 <= c < |cols| :: |cols[c]| == |df.index|
    ensures cols[0] == df.x && cols[1] == df.xWeek && cols[2] == df.xYear
    ensures forall f | 0 <= f < |features| :: cols[3 + f] == ColumnNamed(df, features[f]).value
  {
    [df.x, df.xWeek, df.xYear] + seq(|features|, f requires 0 <= f < |features| =>
      assert features[f] in features; ColumnNamed(df, features[f]).value)
  }

  /** `generate_test_data(df, last_seen_dt, features, push_y_by, unit)`: the training data of
      the window that opens after `last_seen_dt` and closes `push_y_by` days later; `unit`
      is not read. */
  function GenerateTestData<T>(df: FeatureTable<T>, lastSeen: Time, features: seq<string>, pushBy: int, unit: string)
    : (r: Result<Window<T>, Error>)
    requires WellShaped(df)
    ensures r == GenerateTrainData(df, features, Some(lastSeen), Some(DaysLater(lastSeen, pushBy)))
    ensures r.Err? <==> exists f | f in features :: ColumnNamed(df, f).None?
    ensures r.Ok? ==>
      var ks := Kept(df.index, Some(lastSeen), Some(DaysLater(lastSeen, pushBy)));
      && |r.value.Y| == |ks|
      && forall j | 0 <= j < |ks| ::
           lastSeen < df.index[ks[j]] < DaysLater(lastSeen, pushBy) && r.value.Y[j] == [df.y[ks[j]]]
  {
    var dtTill := DaysLater(lastSeen, pushBy);
    GenerateTrainData(df, features, Some(lastSeen), Some(dtTill))
  }

  /** No two covariates share a name, and none is called like a lag column. */
  predicate PlainNames(names: seq<string>)
  {
    && (forall i, j | 0 <= i < j < |names| :: names[i] != names[j])
    && (forall n | n in names :: n != "x" && n != "y" && n != "x_shifted_week" && n != "x_shifted_year")
  }

  lemma CovariateNamed<T>(t: FeatureTable<T>, names: seq<string>, k: nat)
    requires PlainNames(names) && k < |names| && |t.covariates| == |names|
    requires forall c | 0 <= c < |names| :: t.covariates[c].name == names[c]
    ensures ColumnNamed(t, names[k]) == Some(t.covariates[k].values)
  {
    assert names[k] in names && t.covariates[k].name == names[k];
    var c := CovariateIndex(t.covariates, names[k]);
    assert c.Some? && names[c.value] == names[k];
    assert c.value == k;
  }

  /** `generate_train_data` with the covariate names of the series, on the table
      `make_features` builds (`MakeFeatures` returns a `FeatureTableOf` at the offsets of its
      configuration, and those offsets are non-negative when the configuration is well formed):
      every training pair is one forecast instant `p` of the series inside the window, with
      target the value at `p` and inputs the values a day, a week and a year before `p`
      followed by the covariates of the row a year before `p`. */
  lemma TrainingRows<T>(o: Offsets, s: Series<T>, t: FeatureTable<T>, dtFrom: Option<Time>, dtTill: Option<Time>)
    requires o.NonNegative() && PlainNames(s.names) && FeatureTableOf(o, s, t)
    ensures GenerateTrainData(t, s.names, dtFrom, dtTill).Ok?
    ensures var w := GenerateTrainData(t, s.names, dtFrom, dtTill).value;
      var ks := Kept(t.index, dtFrom, dtTill);
      forall j | 0 <= j < |ks| ::
        && o.x + ks[j] < |s.rows| && o.week + ks[j] < |s.rows| && o.target + ks[j] < |s.rows|
        && InWindow(s.rows[o.target + ks[j]].time, dtFrom, dtTill)
        && w.Y[j] == [s.rows[o.target + ks[j]].value]
        && w.X[j] == LagInputs(o, s, ks[j])
  {
    TrainingDataOk(o, s, t, dtFrom, dtTill);
    var ks := Kept(t.index, dtFrom, dtTill);
    var w := GenerateTrainData(t, s.names, dtFrom, dtTill).value;
    forall j | 0 <= j < |ks|
      ensures o.x + ks[j] < |s.rows| && o.week + ks[j] < |s.rows| && o.target + ks[j] < |s.rows|
      ensures InWindow(s.rows[o.target + ks[j]].time, dtFrom, dtTill)
      ensures w.Y[j] == [s.rows[o.target + ks[j]].value]
      ensures w.X[j] == LagInputs(o, s, ks[j])
    {
      TrainingRow(o, s, t, dtFrom, dtTill, j);
    }
  }

  /** No row is lost: every row of the series whose time lies in the window and that has a
      full history of lags is the target of some training sample. */
  lemma TrainingCovers<T>(o: Offsets, s: Series<T>, t: FeatureTable<T>, dtFrom: Option<Time>, dtTill: Option<Time>)
    requires o.NonNegative() && FeatureTableOf(o, s, t)
    ensures forall p | o.target <= p < |s.rows| && InWindow(s.rows[p].time, dtFrom, dtTill) :: p - o.target in Kept(t.index, dtFrom, dtTill)
  {
    var l := t.(covariates := []);
    assert l.index == t.index;
    assert |t.index| == if |s.rows| <= o.target then 0 else |s.rows| - o.target;
    KeptCovers(t.index, s, o.target, dtFrom, dtTill);
  }

  /** Every covariate `make_features` copied is found again by name. */
  lemma TrainingDataOk<T>(o: Offsets, s: Series<T>, t: FeatureTable<T>, dtFrom: Option<Time>, dtTill: Option<Time>)
    requires PlainNames(s.names) && FeatureTableOf(o, s, t)
    ensures WellShaped(t)
    ensures forall k | 0 <= k < |s.names| :: ColumnNamed(t, s.names[k]) == Some(t.covariates[k].values)
    ensures GenerateTrainData(t, s.names, dtFrom, dtTill).Ok?
  {
    forall k | 0 <= k < |s.names| ensures ColumnNamed(t, s.names[k]) == Some(t.covariates[k].values) {
      CovariateNamed(t, s.names, k);
    }
    forall n | n in s.names ensures ColumnNamed(t, n).Some? {
      var k :| 0 <= k < |s.names| && s.names[k] == n;
    }
  }

  /** Training pair `j`, read off the series. */
  lemma TrainingRow<T>(o: Offsets, s: Series<T>, t: FeatureTable<T>, dtFrom: Option<Time>, dtTill: Option<Time>, j: nat)
    requires o.NonNegative() && PlainNames(s.names) && FeatureTableOf(o, s, t)
    requires GenerateTrainData(t, s.names, dtFrom, dtTill).Ok? && j < |Kept(t.index, dtFrom, dtTill)|
    ensures var w := GenerateTrainData(t, s.names, dtFrom, dtTill).value;
      var k := Kept(t.index, dtFrom, dtTill)[j];
      && o.x + k < |s.rows| && o.week + k < |s.rows| && o.target + k < |s.rows|
      && InWindow(s.rows[o.target + k].time, dtFrom, dtTill)
      && w.Y[j] == [s.rows[o.target + k].value]
      && w.X[j] == LagInputs(o, s, k)
  {
    var k := Kept(t.index, dtFrom, dtTill)[j];
    var w := GenerateTrainData(t, s.names, dtFrom, dtTill).value;
    TrainingDataOk(o, s, t, dtFrom, dtTill);
    LagRowOf(o, s, t, k);
    var row := w.X[j];
    assert row[0] == t.x[k] && row[1] == t.xWeek[k] && row[2] == t.xYear[k];
    forall f | 0 <= f < |s.names| ensures row[3 + f] == s.rows[k].features[f] {
      assert row[3 + f] == ColumnNamed(t, s.names[f]).value[k];
    }
    Spliced(row, s.rows[o.x + k].value, s.rows[o.week + k].value, s.rows[k].value, s.rows[k].features);
  }

  /** Row `k` of the table, read off the series. */
  lemma LagRowOf<T>(o: Offsets, s: Series<T>, t: FeatureTable<T>, k: nat)
    requires o.NonNegative() && FeatureTableOf(o, s, t) && k < |t.index|
    ensures o.x + k < |s.rows| && o.week + k < |s.rows| && o.target + k < |s.rows|
    ensures && t.index[k] == s.rows[o.target + k].time
            && t.y[k] == s.rows[o.target + k].value
            && t.x[k] == s.rows[o.x + k].value
            && t.xWeek[k] == s.rows[o.week + k].value
            && t.xYear[k] == s.rows[k].value
    ensures forall f | 0 <= f < |s.names| :: t.covariates[f].values[k] == s.rows[k].features[f]
  {
    var l := t.(covariates := []);
    assert l.index == t.index && l.x == t.x && l.y == t.y && l.xWeek == t.xWeek && l.xYear == t.xYear;
    assert o.target + k < |s.rows|;
  }

  lemma Spliced<T>(row: seq<T>, a: T, b: T, c: T, rest: seq<T>)
    requires |row| == 3 + |rest| && row[0] == a && row[1] == b && row[2] == c
    requires forall f | 0 <= f < |rest| :: row[3 + f] == rest[f]
    ensures row == [a, b, c] + rest
  {
    assert forall i | 3 <= i < |row| :: row[i] == rest[i - 3];
  }
}
