# Data preparation of the hourly load forecaster

This project models the data-preparation pipeline of the hourly load forecaster. It exists in
two versions:

- `project/utils.py`, the newer one, which carries covariate columns;
- `slaf-project/src/utils.py`, the older one, which has the three lag columns only and its own
  min-max scaling.

Each version has four stages:

1. **`prepare_data`** selects the timestamp, station and covariate columns (KeyError when one
   is missing) and renames the station column to `value`. It then sorts by timestamp
   (`df.loc[sorted_idx]`), drops every row with a missing cell (`dropna`) and keeps the first
   row per timestamp (`duplicated(keep='first')`).
2. **`make_features`** cuts four slices of the value column: `x` (a day back), `x_shifted_week`
   (a week back), `x_shifted_year` (a year back) and `y` (the target). All four are cut to the
   shortest length, indexed by `index[YS : YS + cut]`, and in the newer version followed by the
   covariate columns cut from position 0.
3. **`generate_train_data`** keeps the rows strictly between the bounds that are given, in table
   order. It returns X = `[x, x_shifted_week, x_shifted_year, *features]` and Y = `[y]`.
4. **`generate_test_data`** is the same on the window from `last_seen_dt` to `push_y_by` days
   later.

Timestamps are integers (seconds), and a missing cell is `None` of an `Option`. Column values are
a type parameter `T`, except in the min-max scaling, which works on `real`.
`YEAR_SHIFT`, `WEEK_SHIFT` and `VALUES_PER_DAY` are the fields of a `Config`. The shipped values
365, 7 and 24 are the constant `Features.Shipped`.

Modules:

- `Wrappers`: `Option`, `Result`.
- `Slicing`: Python's `s[start:stop]`, including negative and out-of-range bounds.
- `Frames`: the raw table, column selection and the KeyError.
- `Cleaning`: sort, `loc`, `dropna`, keep-first.
- `Features`: the configuration, the slice offsets and the lag table.
- `Windows`: the date masks and the projection to X and Y.
- `ProjectUtils` and `SlafUtils`: the two `utils.py` files.
- `SlafScaling`: `normalize_data` and `denormalize_data` of the older version.

What the code does at the edges, and what the model therefore does too:

- A series no longer than a year gives an empty feature table (`cut = 0`); no error is raised.
- A constant column scales to NaN everywhere (`0 / 0`); no error is raised.
- An empty column has NaN as its minimum and maximum (pandas `Series.min()`).
- `unit` of `generate_test_data` is never read: the window always closes `push_y_by` days on.
- The docstring of the newer `prepare_data` promises "no duplicated values". The code removes
  duplicated timestamps only, and so does the model.
- The docstring of the newer `make_features` speaks of in-place actions. The code builds a new
  table, and the model is a pure function.

The offsets of `make_features` are settled by `Features.Alignment`. For a configuration whose
day and week lags are not longer than its year lag, row `i` is the instant `YS + i`; `x` sits
one day before it, `x_shifted_week` one week before it and `x_shifted_year` one year before it.

## Model

| member | source | states |
|---|---|---|
| Frames.Select | project/utils.py:26-32 | KeyError exactly when the station or a requested covariate is not a column, naming the missing ones in request order; otherwise one record per line with its timestamp, the station cell as `value` and the covariate cells in request order |
| Cleaning.SortTimes | project/utils.py:34 | the labels in ascending order, as a permutation of the index (duplicates kept) |
| Cleaning.Loc | project/utils.py:36 | `df.loc[sorted_idx]` holds exactly the input rows whose label is among the labels asked for |
| Cleaning.WithTime | project/utils.py:36 | the rows `loc` finds for one label: exactly the input rows carrying it |
| Cleaning.DropNA | project/utils.py:37 | `dropna` keeps exactly the rows with no missing cell (each kept row is an input row) |
| Cleaning.KeepFirst | project/utils.py:38 | `duplicated(keep='first')` keeps input rows only, and no label twice |
| Cleaning.LocWithTime | project/utils.py:36-37 | after `loc` on the sorted labels and `dropna`, the rows of a label are its null-free rows, repeated once per occurrence of the label |
| Cleaning.KeepFirstStrict | project/utils.py:38 | on rows sorted by label, keeping the first row per label leaves strictly ascending labels |
| Cleaning.Clean | project/utils.py:34-38 | the cleaned rows have strictly ascending labels and no missing cell; each is the first null-free input row of its label; every label with a null-free row appears |
| Cleaning.HasCleanExists | project/utils.py:36-37 | a label survives cleaning exactly when some input row carries it with no missing cell |
| Cleaning.FirstCleanIsEarliest | project/utils.py:34-38 | the row kept for a label is the earliest null-free row with that label, in input order |
| Cleaning.CleanKeepsCleanRows | project/utils.py:34-38 | cleaning rows that are already strictly ascending and null-free returns them unchanged |
| Cleaning.CleanIdempotent | project/utils.py:34-38 | cleaning twice is cleaning once |
| ProjectUtils.PrepareData | project/utils.py:11-40 | KeyError exactly when a selected column is missing; otherwise the covariate names are kept and the rows are strictly ascending, null-free, the first null-free row per label of the selection, with every such label present |
| Slicing.Slice | project/utils.py:86-90 | `s[start:stop]`: length and contents from the bounds normalised as Python does (negative bounds from the end, clamped to the sequence) |
| Features.MulIsProduct | project/utils.py:71-77 | the sample count of a number of days is `days * VALUES_PER_DAY` |
| Features.MulSub | project/utils.py:73 | `(YEAR_SHIFT - WEEK_SHIFT) * VALUES_PER_DAY` is the year lag minus the week lag |
| Features.OffsetsOf | project/utils.py:71-77 | the slice starts are `YS - VPD`, `(YEAR_SHIFT - WEEK_SHIFT) * VPD` and `YS`; none is negative exactly when the day and week lags are not longer than the year lag |
| Features.ShippedOffsets | config.py:22-24 | with 365, 7 and 24 the configuration is well formed and the slices start at 8736, 8592 and 8760 |
| Features.Cut | project/utils.py:79-84 | `rcut_idx` is at most every slice length and equals one of them; it is 0 for a series no longer than a year, and `N - YS` when no offset is negative |
| Features.ShiftIsSlice | project/utils.py:94-99 | each column is `values[start:][:rcut_idx]` |
| Features.Lags | project/utils.py:71-99 | the lag table has `Cut` rows, index `index[YS + i]`, `y` at `YS + i`, `x_shifted_year` at `i`, and `x` and `x_shifted_week` `i` places after where their slices start, a negative start counting from the end as in Python (their offsets plus `i` when no offset is negative) |
| Features.SeriesLags | project/utils.py:63-99 | the same on the timestamps and `value` column of a series |
| Features.Alignment | project/utils.py:71-99 | for a well-formed configuration: `max(0, N - YS)` rows; row `i` has index and `y` at `YS + i`, `x` at `YS + i - VPD`, `x_shifted_week` at `YS + i - WEEK_SHIFT * VPD`, `x_shifted_year` at `i` |
| ProjectUtils.Covariates | project/utils.py:65-68 | covariate `k` keeps its name and holds the first `rcut_idx` values of feature `k` |
| ProjectUtils.MakeFeatures | project/utils.py:51-108 | the lag table of the value column followed by every covariate, where covariate `k` at row `i` is feature `k` of series row `i` (the offset of `x_shifted_year`, not `YS + i`) |
| Windows.Kept | project/utils.py:124-127 | the kept positions are increasing, each in the window, and every position in the window is kept |
| Windows.Project | project/utils.py:129-135 | one X row per kept position holding the requested columns there, and a one-element Y row with `y` there |
| Windows.Unknown | project/utils.py:130-135 | exactly the requested names that are neither a lag column nor a covariate |
| ProjectUtils.Inputs | project/utils.py:130-135 | the columns `x`, `x_shifted_week`, `x_shifted_year`, then each requested feature by name |
| ProjectUtils.GenerateTrainData | project/utils.py:111-137 | KeyError exactly when a requested column is missing, naming it; otherwise X and Y have one row per kept position, Y = `[y]`, X = `[x, x_shifted_week, x_shifted_year, *features]`, three columns plus one per feature |
| Windows.DaysLater | project/utils.py:161-162 | pushing by a positive number of days moves strictly later, by zero stays |
| ProjectUtils.GenerateTestData | project/utils.py:140-166 | the training data of the open window from `last_seen_dt` to `push_y_by` days later, whatever `unit` is; every target row lies strictly inside it |
| ProjectUtils.TrainingDataOk | project/utils.py:130-135 | on a table built by `make_features` from the series' own covariate names, each covariate is found by name and no KeyError is raised |
| ProjectUtils.TrainingRow | project/utils.py:129-135 | training pair `j` on such a table, read back in the series |
| ProjectUtils.TrainingRows | project/utils.py:111-137 | on such a table, every pair is a forecast instant `p` inside the window: Y = `[value at p]`, X = the values a day, a week and a year before `p`, then that year-back row's covariates |
| Windows.KeptCovers | project/utils.py:124-127 | an index holding the series' timestamps from position `YS` on keeps every such position whose timestamp is in the window |
| ProjectUtils.TrainingCovers | project/utils.py:124-127 | every series instant past the first year whose timestamp is in the window yields a training pair |
| SlafUtils.PrepareData | slaf-project/src/utils.py:11-25 | KeyError exactly when the station is missing; otherwise strictly ascending rows with a value, the first such row per label, with every such label present |
| SlafUtils.MakeFeatures | slaf-project/src/utils.py:48-85 | the lag table of the value column at the configuration's offsets, without covariates |
| SlafUtils.GenerateTrainData | slaf-project/src/utils.py:88-104 | one row per kept position: X = `[x, x_shifted_week, x_shifted_year]`, Y = `[y]` |
| SlafUtils.GenerateTestData | slaf-project/src/utils.py:107-119 | the training data of the window from `last_seen_dt` to `push_y_by` days later, whatever `unit` is; no row at or before `last_seen_dt` |
| SlafUtils.TrainingRow | slaf-project/src/utils.py:88-104 | on a lag table, pair `j` is a forecast instant in the window with Y its value and X the values a day, a week and a year before |
| SlafUtils.TrainingCovers | slaf-project/src/utils.py:90-93 | every series instant past the first year whose timestamp is in the window yields a training pair |
| SlafScaling.Min | slaf-project/src/utils.py:30 | `data.min()` is an element of the column and no larger than any |
| SlafScaling.Max | slaf-project/src/utils.py:31 | `data.max()` is an element of the column and no smaller than any |
| SlafScaling.Normalize | slaf-project/src/utils.py:28-37 | same length; min and max returned (NaN for an empty column); NaN everywhere for a constant column; otherwise `(d - min) / (max - min)`, each within `[0, 1]` |
| SlafScaling.ScaleUnit | slaf-project/src/utils.py:34 | a value between the bounds scales into `[0, 1]` |
| SlafScaling.ScaleMonotone | slaf-project/src/utils.py:34 | scaling keeps order; the minimum maps to 0 and the maximum to 1 |
| SlafScaling.NormalizeMonotone | slaf-project/src/utils.py:28-37 | normalized values keep the order of the input; the column's minimum maps to 0, its maximum to 1 |
| SlafScaling.Denormalize | slaf-project/src/utils.py:40-45 | `data * (max - min) + min` element by element; NaN anywhere gives NaN |
| SlafScaling.Rescaled | slaf-project/src/utils.py:28-45 | unscaling a scaled value gives it back |
| SlafScaling.RoundTrip | slaf-project/src/utils.py:28-45 | denormalizing with the min and max `normalize_data` returned gives back the column, when it is not constant |

## Left out

- Reading the input files, the tensors and data loaders, the neural model, its training and the
  grid search: these are I/O and external frameworks.
- `normalize_data` and `denormalize_data` of project/utils.py:43-48: they delegate to a scikit-learn
  scaler, whose code is not part of this model.
- Timestamps are integers. ISO string parsing and formatting and the string comparison of
  bounds in pandas are not modelled. So neither is the error `datetime.fromisoformat` raises on a
  malformed `last_seen_dt`.
- Floating point: values are a type parameter, or `real` in the scaling. IEEE rounding,
  infinities, the `float64` cast of the covariates and NaN inputs to `normalize_data` are not
  modelled. A NaN cell is a missing cell (`None`).
- pandas representation details: dtypes, `transpose`, `reshape`, `del`, and the DataFrame's
  column order beyond the four lag columns and the covariates.
- Duplicate header names in the raw table: `IndexOf` takes the first column so named.
- ProjectUtils.MakeFeatures: a covariate named like a lag column (`x`, `y`, `x_shifted_week`,
  `x_shifted_year`) replaces that column in pandas, because the covariates are merged into the
  dictionary of lag columns (project/utils.py:94-102). The model keeps the lag column and appends
  the covariate, so for such names it does not describe the table the code builds.
  Repeated covariate names are not modelled either.
- ProjectUtils.MakeFeatures: the covariates are the series' own feature columns, those that
  `prepare_data` selected; a `features` argument naming other columns, or naming them in
  another order, is not modelled.
- ProjectUtils.TrainingRows, ProjectUtils.TrainingRow, ProjectUtils.TrainingDataOk: stated only
  for covariate names that are distinct and differ from the four lag column names
  (`PlainNames`), the names for which the model's `MakeFeatures` is the code's.
- The text of pandas' KeyError message: the error carries the list of missing names.
- `Features.Mul` spells `days * VALUES_PER_DAY` as repeated addition so that the offsets stay
  linear. `Features.MulIsProduct` proves it equals the product.
