/** The date filter and the projection to input/target arrays of both `generate_train_data`
    functions: `df[df.index > dt_from]`, `df[df.index < dt_till]`, then `.values`. */
module Windows {
  import opened Wrappers
  import opened Frames
  import opened Features

  /** `datetime.fromisoformat(t) + timedelta(days=days)`: the instant `days` whole days of
      86400 seconds after `t` (before it for a negative count). */
  function DaysLater(t: Time, days: int): (r: Time)
    ensures r > t <==> days > 0
    ensures r == t <==> days == 0
  {
    t + days * 86400
  }

  /** The two boolean masks; a bound that is `None` or the empty string (`None` here) is not applied. */
  predicate InWindow(t: Time, dtFrom: Option<Time>, dtTill: Option<Time>)
  {
    (dtFrom.None? || dtFrom.value < t) && (dtTill.None? || t < dtTill.value)
  }

  function KeptFrom(index: seq<Time>, dtFrom: Option<Time>, dtTill: Option<Time>, i: nat): (ks: seq<nat>)
    requires i <= |index|
    decreases |index| - i
    ensures forall j | 0 <= j < |ks| :: i <= ks[j] < |index| && InWindow(index[ks[j]], dtFrom, dtTill)
    ensures forall j, k | 0 <= j < k < |ks| :: ks[j] < ks[k]
    ensures forall p | i <= p < |index| && InWindow(index[p], dtFrom, dtTill) :: p in ks
  {
    if i == |index| then []
    else (if InWindow(index[i], dtFrom, dtTill) then [i] else []) + KeptFrom(index, dtFrom, dtTill, i + 1)
  }

  /** The positions the masks keep: exactly the rows whose label lies strictly between the
      bounds that are given, in table order. */
  function Kept(index: seq<Time>, dtFrom: Option<Time>, dtTill: Option<Time>): (ks: seq<nat>)
    ensures forall j | 0 <= j < |ks| :: ks[j] < |index| && InWindow(index[ks[j]], dtFrom, dtTill)
    ensures forall j, k | 0 <= j < k < |ks| :: ks[j] < ks[k]
    ensures forall p | 0 <= p < |index| && InWindow(index[p], dtFrom, dtTill) :: p in ks
  {
    KeptFrom(index, dtFrom, dtTill, 0)
  }

  /** The pair of arrays handed to training: one input row and one one-element target row
      per kept table row. */
  datatype Window<T> = Window(X: seq<seq<T>>, Y: seq<seq<T>>)

  /** `df[cols].values` and `df.y.values.reshape(-1, 1)` restricted to the rows at `ks`. */
  function Project<T>(cols: seq<seq<T>>, y: seq<T>, ks: seq<nat>): (w: Window<T>)
    requires forall j | 0 <= j < |ks| :: ks[j] < |y|
    requires forall c, j | 0 <= c < |cols| && 0 <= j < |ks| :: ks[j] < |cols[c]|
    ensures |w.X| == |ks| && |w.Y| == |ks|
    ensures forall j | 0 <= j < |ks| :: w.Y[j] == [y[ks[j]]] && |w.X[j]| == |cols|
    ensures forall j, c | 0 <= j < |ks| && 0 <= c < |cols| :: w.X[j][c] == cols[c][ks[j]]
  {
    Window(seq(|ks|, j requires 0 <= j < |ks| => seq(|cols|, c requires 0 <= c < |cols| => cols[c][ks[j]])),
           seq(|ks|, j requires 0 <= j < |ks| => [y[ks[j]]]))
  }

  /** The requested names that are not columns of the table, in request order. */
  function Unknown<T>(t: FeatureTable<T>, names: seq<string>): (r: seq<string>)
    ensures forall n :: n in r <==> n in names && ColumnNamed(t, n).None?
  {
    if names == [] then []
    else (if ColumnNamed(t, names[0]).None? then [names[0]] else []) + Unknown(t, names[1..])
  }

  /** An index that lists the timestamps of the series from position `target` on keeps every
      position of the series whose timestamp lies in the window. */
  lemma KeptCovers<T>(index: seq<Time>, s: Series<T>, target: nat, dtFrom: Option<Time>, dtTill: Option<Time>)
    requires |index| == if |s.rows| <= target then 0 else |s.rows| - target
    requires forall i | 0 <= i < |index| :: index[i] == s.rows[target + i].time
    ensures forall p | target <= p < |s.rows| && InWindow(s.rows[p].time, dtFrom, dtTill) :: p - target in Kept(index, dtFrom, dtTill)
  {
    forall p | target <= p < |s.rows| && InWindow(s.rows[p].time, dtFrom, dtTill)
      ensures p - target in Kept(index, dtFrom, dtTill)
    {
      assert index[p - target] == s.rows[p].time;
    }
  }
}
