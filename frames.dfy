/** The tables the utilities read and write: the raw station table, the per-timestamp records
    obtained from it by column selection, and the KeyError pandas raises for an unknown column. */
module Frames {
  import opened Wrappers

  /** A timestamp; the ISO strings of the table stand for points on this ordered line. */
  type Time = int

  /** One line of the raw table: its `Datetime` value and one cell per header column
      (`None` is a missing value, NaN or None). */
  datatype RawRow<C> = RawRow(time: Time, cells: seq<Option<C>>)

  datatype RawFrame<C> = RawFrame(header: seq<string>, rows: seq<RawRow<C>>)

  /** Every line has exactly one cell per header column, as in any DataFrame. */
  predicate Rectangular<C>(f: RawFrame<C>)
  {
    forall i | 0 <= i < |f.rows| :: |f.rows[i].cells| == |f.header|
  }

  /** One row after selection: the timestamp (the index `datetime`), the station column
      renamed to `value`, and the covariate columns in the order they were requested. */
  datatype Record<T> = Record(time: Time, value: T, features: seq<T>)

  /** A table of records and the names of its covariate columns. */
  datatype Series<T> = Series(names: seq<string>, rows: seq<Record<T>>)

  /** The index of a table. */
  function Times<T>(rows: seq<Record<T>>): (ts: seq<Time>)
    ensures |ts| == |rows| && forall i | 0 <= i < |rows| :: ts[i] == rows[i].time
  {
    seq(|rows|, i requires 0 <= i < |rows| => rows[i].time)
  }

  /** The `value` column of a table. */
  function Values<T>(rows: seq<Record<T>>): (v: seq<T>)
    ensures |v| == |rows| && forall i | 0 <= i < |rows| :: v[i] == rows[i].value
  {
    seq(|rows|, i requires 0 <= i < |rows| => rows[i].value)
  }

  /** Covariate column `k` of a table. */
  function FeatureValues<T>(rows: seq<Record<T>>, k: nat): (v: seq<T>)
    requires forall i | 0 <= i < |rows| :: k < |rows[i].features|
    ensures |v| == |rows| && forall i | 0 <= i < |rows| :: v[i] == rows[i].features[k]
  {
    seq(|rows|, i requires 0 <= i < |rows| => rows[i].features[k])
  }

  predicate Shaped<T>(s: Series<T>)
  {
    forall i | 0 <= i < |s.rows| :: |s.rows[i].features| == |s.names|
  }

  /** pandas' KeyError, naming the requested columns the table lacks. */
  datatype Error = MissingColumns(names: seq<string>)

  /** Position of the first header column called `name`. */
  function IndexOf(header: seq<string>, name: string): (r: Option<nat>)
    ensures r.None? <==> name !in header
    ensures r.Some? ==> r.value < |header| && header[r.value] == name
  {
    if |header| == 0 then None
    else if header[0] == name then Some(0)
    else match IndexOf(header[1..], name)
      case None => None
      case Some(k) => Some(k + 1)
  }

  /** The requested names that are not columns of the header, in request order. */
  function Missing(header: seq<string>, names: seq<string>): (r: seq<string>)
    ensures forall n :: n in r <==> n in names && n !in header
  {
    if |names| == 0 then []
    else (if names[0] in header then [] else [names[0]]) + Missing(header, names[1..])
  }

  /** The cell of line `i` under the column called `name`. */
  function Cell<C>(f: RawFrame<C>, i: nat, name: string): Option<C>
    requires Rectangular(f) && i < |f.rows| && name in f.header
  {
    f.rows[i].cells[IndexOf(f.header, name).value]
  }

  /** `df.reset_index()[["Datetime", station, *features]]` followed by the renaming of
      `station` to `value` and `set_index("datetime")`. */
  function Select<C>(f: RawFrame<C>, station: string, features: seq<string>): (r: Result<Series<Option<C>>, Error>)
    requires Rectangular(f)
    ensures r.Err? <==> exists n | n in [station] + features :: n !in f.header
    ensures r.Err? ==> r.error == MissingColumns(Missing(f.header, [station] + features))
    ensures r.Ok? ==> Shaped(r.value) && r.value.names == features && |r.value.rows| == |f.rows|
    ensures r.Ok? ==> forall i | 0 <= i < |f.rows| ::
                        && r.value.rows[i].time == f.rows[i].time
                        && r.value.rows[i].value == Cell(f, i, station)
                        && forall k | 0 <= k < |features| :: r.value.rows[i].features[k] == Cell(f, i, features[k])
  {
    var missing := Missing(f.header, [station] + features);
    if |missing| > 0 then
      assert missing[0] in missing;
      Err(MissingColumns(missing))
    else
      assert forall n | n in [station] + features :: n in f.header;
      var rows := seq(|f.rows|, i requires 0 <= i < |f.rows| =>
        Record(f.rows[i].time, Cell(f, i, station),
               seq(|features|, k requires 0 <= k < |features| => Cell(f, i, features[k]))));
      Ok(Series(features, rows))
  }
}
