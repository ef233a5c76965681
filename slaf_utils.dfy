/** slaf-project/src/utils.py: the data preparation of the older pipeline, on the station
    column alone, with min-max scaling of the values. */
module SlafUtils {
  import opened Wrappers
  import opened Frames
  import opened Cleaning
  import opened Features
  import opened Windows

  /** `prepare_data(df, station)`: select the timestamp and station columns (KeyError when the
      station is missing), rename the station column to `value`, then sort by timestamp, drop
      rows without a value and keep the first row per timestamp. */
  function PrepareData<C>(df: RawFrame<C>, station: string): (r: Result<Series<Option<C>>, Error>)
    requires Rectangular(df)
    ensures r.Err? <==> station !in df.header
    ensures r.Err? ==> r.error == MissingColumns([station])
    ensures r.Ok? ==>
      var selected := Select(df, station, []).value.rows;
      && r.value.names == [] && Shaped(r.value)
      && StrictlyAscending(r.value.rows)
      && (forall e | e in r.value.rows :: e.value.Some? && HasClean(selected, e.time) && e == FirstClean(selected, e.time))
      && (forall t | HasClean(selected, t) :: t in Times(r.value.rows))
  {
    assert [station] + [] == [station];
    match Select(df, station, [])
    case Err(e) =>
      assert station in Missing(df.header, [station]);
      Err(e)
    case Ok(s) =>
      var rows := Clean(s.rows);
      assert forall i | 0 <= i < |rows| :: |rows[i].features| == 0 by {
        forall i | 0 <= i < |rows| ensures |rows[i].features| == 0 {
          assert rows[i] in rows;
          var p :| 0 <= p < |s.rows| && s.rows[p] == rows[i];
        }
      }
      Ok(Series([], rows))
  }

  /** `make_features(df)`: the lag table of the `value` column at the offsets of the
      configuration, without covariates. */
  function MakeFeatures<T>(cfg: Config, df: Series<T>): (r: FeatureTable<T>)
    ensures LagTable(OffsetsOf(cfg), df, r)
  {
    SeriesLags(OffsetsOf(cfg), df)
  }

  /** `generate_train_data(df, dt_from, dt_till)`: the rows strictly between the given bounds,
      in table order; X row = `[x, x_shifted_week, x_shifted_year]`, Y row = `[y]`. */
  function GenerateTrainData<T>(df: FeatureTable<T>, dtFrom: Option<Time>, dtTill: Option<Time>): (w: Window<T>)
    requires WellShaped(df)
    ensures var ks := Kept(df.index, dtFrom, dtTill);
      && |w.X| == |ks| && |w.Y| == |ks|
      && forall j | 0 <= j < |ks| ::
           w.X[j] == [df.x[ks[j]], df.xWeek[ks[j]], df.xYear[ks[j]]] && w.Y[j] == [df.y[ks[j]]]
  {
    var ks := Kept(df.index, dtFrom, dtTill);
    var w := Project([df.x, df.xWeek, df.xYear], df.y, ks);
    assert forall j | 0 <= j < |ks| :: w.X[j] == [df.x[ks[j]], df.xWeek[ks[j]], df.xYear[ks[j]]] by {
      forall j | 0 <= j < |ks| ensures w.X[j] == [df.x[ks[j]], df.xWeek[ks[j]], df.xYear[ks[j]]] {
        assert |w.X[j]| == 3;
      }
    }
    w
  }

  /** `generate_test_data(df, last_seen_dt, push_y_by, unit)`: the training data of the window
      that opens after `last_seen_dt` and closes `push_y_by` days later; `unit` is not read. */
  function GenerateTestData<T>(df: FeatureTable<T>, lastSeen: Time, pushBy: int, unit: string): (w: Window<T>)
    requires WellShaped(df)
    ensures w == GenerateTrainData(df, Some(lastSeen), Some(DaysLater(lastSeen, pushBy)))
    ensures var ks := Kept(df.index, Some(lastSeen), Some(DaysLater(lastSeen, pushBy)));
      && |w.Y| == |ks|
      && forall j | 0 <= j < |ks| ::
           lastSeen < df.index[ks[j]] < DaysLater(lastSeen, pushBy) && w.Y[j] == [df.y[ks[j]]]
  {
    GenerateTrainData(df, Some(lastSeen), Some(DaysLater(lastSeen, pushBy)))
  }

  /** `generate_train_data` on a table built as `make_features` builds it (`MakeFeatures`
      returns a `LagTable` at the offsets of its configuration, and those offsets are
      non-negative when the configuration is well formed): training pair `j` is one forecast
      instant of the series inside the window, with target the value at that instant and
      inputs the values a day, a week and a year before it. */
  lemma TrainingRow<T>(o: Offsets, s: Series<T>, t: FeatureTable<T>, dtFrom: Option<Time>, dtTill: Option<Time>, j: nat)
    requires o.NonNegative() && LagTable(o, s, t)
    requires j < |Kept(t.index, dtFrom, dtTill)|
    ensures var w := GenerateTrainData(t, dtFrom, dtTill);
      var k := Kept(t.index, dtFrom, dtTill)[j];
      && o.x + k < |s.rows| && o.week + k < |s.rows| && o.target + k < |s.rows|
      && InWindow(s.rows[o.target + k].time, dtFrom, dtTill)
      && w.Y[j] == [s.rows[o.target + k].value]
      && w.X[j] == [s.rows[o.x + k].value, s.rows[o.week + k].value, s.rows[k].value]
  {
    var w := GenerateTrainData(t, dtFrom, dtTill);
    var k := Kept(t.index, dtFrom, dtTill)[j];
    assert k < |t.index|;
    assert o.x + k < |s.rows| && o.week + k < |s.rows| && o.target + k < |s.rows|;
    assert t.index[k] == s.rows[o.target + k].time;
    assert w.X[j] == [t.x[k], t.xWeek[k], t.xYear[k]];
  }

  /** No row is lost: every row of the series whose time lies in the window and that has a
      full history of lags is the target of some training sample. */
  lemma TrainingCovers<T>(o: Offsets, s: Series<T>, t: FeatureTable<T>, dtFrom: Option<Time>, dtTill: Option<Time>)
    requires o.NonNegative() && LagTable(o, s, t)
    ensures forall p | o.target <= p < |s.rows| && InWindow(s.rows[p].time, dtFrom, dtTill) :: p - o.target in Kept(t.index, dtFrom, dtTill)
  {
    assert |t.index| == if |s.rows| <= o.target then 0 else |s.rows| - o.target;
    KeptCovers(t.index, s, o.target, dtFrom, dtTill);
  }

}
