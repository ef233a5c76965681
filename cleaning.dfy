/** The cleaning chain shared by both `prepare_data` functions:
      sorted_idx = df.index.sort_values(); df = df.loc[sorted_idx]
      df = df.dropna(); df = df[~df.index.duplicated(keep='first')]
    on records whose cells may be missing. */
module Cleaning {
  import opened Wrappers
  import opened Frames

  /** No cell of the record is missing (what `dropna` keeps). */
  predicate NullFree<C>(r: Record<Option<C>>)
  {
    r.value.Some? && forall k | 0 <= k < |r.features| :: r.features[k].Some?
  }

  predicate Ascending(ts: seq<Time>)
  {
    forall i, j | 0 <= i < j < |ts| :: ts[i] <= ts[j]
  }

  predicate NonDecreasing<T>(rows: seq<Record<T>>)
  {
    forall i, j | 0 <= i < j < |rows| :: rows[i].time <= rows[j].time
  }

  predicate StrictlyAscending<T>(rows: seq<Record<T>>)
  {
    forall i, j | 0 <= i < j < |rows| :: rows[i].time < rows[j].time
  }

  // ---------------------------------------------------------------------------
  // The four steps

  function Insert(t: Time, s: seq<Time>): (r: seq<Time>)
    requires Ascending(s)
    ensures Ascending(r) && multiset(r) == multiset(s) + multiset{t}
    ensures forall k | 0 <= k < |r| :: r[k] == t || r[k] in s
  {
    if s == [] then [t]
    else if t <= s[0] then [t] + s
    else
      assert s == [s[0]] + s[1..];
      [s[0]] + Insert(t, s[1..])
  }

  /** `df.index.sort_values()`: the index labels in ascending order, duplicates kept. */
  function SortTimes(ts: seq<Time>): (r: seq<Time>)
    ensures Ascending(r) && multiset(r) == multiset(ts)
  {
    if ts == [] then []
    else
      assert ts == [ts[0]] + ts[1..];
      Insert(ts[0], SortTimes(ts[1..]))
  }

  /** The rows labelled `t`, in table order (`df.loc[t]`). */
  function WithTime<T>(rows: seq<Record<T>>, t: Time): (r: seq<Record<T>>)
    ensures forall e | e in r :: e in rows && e.time == t
    ensures forall e | e in rows && e.time == t :: e in r
  {
    if rows == [] then []
    else (if rows[0].time == t then [rows[0]] else []) + WithTime(rows[1..], t)
  }

  /** `df.loc[labels]`: for each label in turn, every row carrying it. A label that occurs
      k times in `labels` contributes its rows k times. */
  function Loc<T>(rows: seq<Record<T>>, labels: seq<Time>): (r: seq<Record<T>>)
    ensures forall e | e in r :: e in rows && e.time in labels
    ensures forall e | e in rows && e.time in labels :: e in r
  {
    if labels == [] then []
    else
      assert forall l | l in labels :: l == labels[0] || l in labels[1..];
      WithTime(rows, labels[0]) + Loc(rows, labels[1..])
  }

  /** `df.dropna()` */
  function DropNA<C>(rows: seq<Record<Option<C>>>): (r: seq<Record<Option<C>>>)
    ensures forall e | e in r :: e in rows && NullFree(e)
    ensures forall e | e in rows && NullFree(e) :: e in r
  {
    if rows == [] then []
    else (if NullFree(rows[0]) then [rows[0]] else []) + DropNA(rows[1..])
  }

  /** `df[~df.index.duplicated(keep='first')]`: a row stays when no earlier row has its label. */
  function KeepFirst<T>(rows: seq<Record<T>>): (r: seq<Record<T>>)
    ensures forall e | e in r :: e in rows
    ensures forall i, j | 0 <= i < j < |r| :: r[i].time != r[j].time
  {
    if rows == [] then []
    else
      var init, last := rows[..|rows| - 1], rows[|rows| - 1];
      var kept := KeepFirst(init);
      assert rows == init + [last];
      assert forall e | e in kept :: e.time in Times(init) by {
        forall e | e in kept ensures e.time in Times(init) {
          var p :| 0 <= p < |init| && init[p] == e;
          assert Times(init)[p] == e.time;
        }
      }
      kept + (if last.time in Times(init) then [] else [last])
  }

  // ---------------------------------------------------------------------------
  // What the chain promises

  /** Some row labelled `t` has no missing cell. */
  predicate HasClean<C>(rows: seq<Record<Option<C>>>, t: Time)
  {
    DropNA(WithTime(rows, t)) != []
  }

  /** The first null-free row labelled `t`, in table order. */
  function FirstClean<C>(rows: seq<Record<Option<C>>>, t: Time): Record<Option<C>>
    requires HasClean(rows, t)
  {
    DropNA(WithTime(rows, t))[0]
  }

  /** The cleaning chain of `prepare_data`. Its result has strictly ascending labels and no
      missing cell, and holds, for every label that has a null-free row, exactly that
      label's first null-free row of the input. */
  function Clean<C>(rows: seq<Record<Option<C>>>): (r: seq<Record<Option<C>>>)
    ensures StrictlyAscending(r)
    ensures forall e | e in r :: e in rows && NullFree(e) && HasClean(rows, e.time) && e == FirstClean(rows, e.time)
    ensures forall t | HasClean(rows, t) :: t in Times(r)
  {
    CleanSpec(rows);
    KeepFirst(DropNA(Loc(rows, SortTimes(Times(rows)))))
  }

  // ---------------------------------------------------------------------------
  // Lemmas about the filters

  lemma {:induction false} WithTimeAppend<T>(a: seq<Record<T>>, b: seq<Record<T>>, t: Time)
    ensures WithTime(a + b, t) == WithTime(a, t) + WithTime(b, t)
  {
    if a != [] {
      assert (a + b)[1..] == a[1..] + b;
      WithTimeAppend(a[1..], b, t);
    } else {
      assert a + b == b;
    }
  }

  lemma {:induction false} DropNAAppend<C>(a: seq<Record<Option<C>>>, b: seq<Record<Option<C>>>)
    ensures DropNA(a + b) == DropNA(a) + DropNA(b)
  {
    if a != [] {
      assert (a + b)[1..] == a[1..] + b;
      DropNAAppend(a[1..], b);
    } else {
      assert a + b == b;
    }
  }

  lemma {:induction false} WithTimeDropNA<C>(rows: seq<Record<Option<C>>>, t: Time)
    ensures DropNA(WithTime(rows, t)) == WithTime(DropNA(rows), t)
  {
    if rows != [] {
      WithTimeDropNA(rows[1..], t);
      var h := if rows[0].time == t then [rows[0]] else [];
      DropNAAppend(h, WithTime(rows[1..], t));
      var g := if NullFree(rows[0]) then [rows[0]] else [];
      WithTimeAppend(g, DropNA(rows[1..]), t);
    }
  }

  lemma {:induction false} WithTimeTwice<T>(rows: seq<Record<T>>, l: Time, t: Time)
    ensures WithTime(WithTime(rows, l), t) == if l == t then WithTime(rows, t) else []
  {
    if rows != [] {
      WithTimeTwice(rows[1..], l, t);
      var h := if rows[0].time == l then [rows[0]] else [];
      WithTimeAppend(h, WithTime(rows[1..], l), t);
    }
  }

  lemma {:induction false} WithTimeEmpty<T>(rows: seq<Record<T>>, t: Time)
    ensures WithTime(rows, t) == [] <==> t !in Times(rows)
  {
    if rows != [] {
      WithTimeEmpty(rows[1..], t);
      assert Times(rows) == [rows[0].time] + Times(rows[1..]);
    }
  }

  lemma {:induction false} DropNAHas<C>(rows: seq<Record<Option<C>>>, e: Record<Option<C>>)
    requires e in rows && NullFree(e)
    ensures e in DropNA(rows)
  {
    if rows[0] != e {
      DropNAHas(rows[1..], e);
    }
  }

  lemma {:induction false} DropNANonDecreasing<C>(rows: seq<Record<Option<C>>>)
    requires NonDecreasing(rows)
    ensures NonDecreasing(DropNA(rows))
  {
    if rows != [] {
      DropNANonDecreasing(rows[1..]);
      var rest := DropNA(rows[1..]);
      forall e | e in rest ensures rows[0].time <= e.time {
        assert e in rows[1..];
        var k :| 0 <= k < |rows[1..]| && rows[1..][k] == e;
        assert rows[k + 1] == e;
      }
      assert DropNA(rows) == (if NullFree(rows[0]) then [rows[0]] else []) + rest;
    }
  }

  // ---------------------------------------------------------------------------
  // Lemmas about `loc` on the sorted labels

  /** `h` repeated `k` times. */
  function Rep<T>(h: seq<T>, k: nat): seq<T>
  {
    if k == 0 then [] else h + Rep(h, k - 1)
  }

  lemma RepFirst<T>(h: seq<T>, k: nat)
    ensures Rep(h, k) != [] <==> h != [] && k > 0
    ensures Rep(h, k) != [] ==> Rep(h, k)[0] == h[0]
  {
  }

  /** After `loc` and `dropna`, the rows labelled `t` are the label's null-free rows,
      once for every occurrence of `t` among the labels. */
  lemma {:induction false} LocWithTime<C>(rows: seq<Record<Option<C>>>, labels: seq<Time>, t: Time)
    ensures WithTime(DropNA(Loc(rows, labels)), t) == Rep(DropNA(WithTime(rows, t)), multiset(labels)[t])
  {
    if labels != [] {
      var l, rest := labels[0], labels[1..];
      var h := DropNA(WithTime(rows, t));
      var a, b := WithTime(rows, l), Loc(rows, rest);
      assert labels == [l] + rest;
      assert multiset(labels)[t] == multiset(rest)[t] + (if l == t then 1 else 0);
      LocWithTime(rows, rest, t);
      DropNAAppend(a, b);
      WithTimeAppend(DropNA(a), DropNA(b), t);
      WithTimeDropNA(a, t);
      WithTimeTwice(rows, l, t);
      assert WithTime(DropNA(a), t) == if l == t then h else [];
      calc {
        WithTime(DropNA(Loc(rows, labels)), t);
        WithTime(DropNA(a + b), t);
        WithTime(DropNA(a), t) + WithTime(DropNA(b), t);
        (if l == t then h else []) + Rep(h, multiset(rest)[t]);
      }
    }
  }

  lemma {:induction false} LocNonDecreasing<T>(rows: seq<Record<T>>, labels: seq<Time>)
    requires Ascending(labels)
    ensures NonDecreasing(Loc(rows, labels))
    ensures forall e | e in Loc(rows, labels) :: e.time in labels
  {
    if labels != [] {
      var rest := labels[1..];
      LocNonDecreasing(rows, rest);
      var g, l := WithTime(rows, labels[0]), Loc(rows, rest);
      forall e | e in l ensures labels[0] <= e.time {
        var k :| 0 <= k < |rest| && rest[k] == e.time;
        assert labels[k + 1] == e.time;
      }
      forall i, j | 0 <= i < j < |g + l| ensures (g + l)[i].time <= (g + l)[j].time {
        if j < |g| {
          assert (g + l)[i] in g && (g + l)[j] in g;
        } else if i < |g| {
          assert (g + l)[i] in g && (g + l)[j] in l;
        } else {
          assert (g + l)[i] == l[i - |g|] && (g + l)[j] == l[j - |g|];
        }
      }
    }
  }

  // ---------------------------------------------------------------------------
  // Lemmas about `duplicated(keep='first')`

  /** Every kept row is the first row of the input that carries its label. */
  lemma {:induction false} KeepFirstMembers<T>(rows: seq<Record<T>>)
    ensures forall e | e in KeepFirst(rows) :: e in rows && WithTime(rows, e.time) != [] && WithTime(rows, e.time)[0] == e
  {
    if rows != [] {
      var init, last := rows[..|rows| - 1], rows[|rows| - 1];
      assert rows == init + [last];
      KeepFirstMembers(init);
      forall e | e in KeepFirst(rows)
        ensures e in rows && WithTime(rows, e.time) != [] && WithTime(rows, e.time)[0] == e
      {
        WithTimeAppend(init, [last], e.time);
        if e in KeepFirst(init) {
        } else {
          assert e == last && last.time !in Times(init);
          WithTimeEmpty(init, last.time);
        }
      }
    }
  }

  /** Every label of the input is the label of some kept row. */
  lemma {:induction false} KeepFirstCovers<T>(rows: seq<Record<T>>, t: Time)
    requires t in Times(rows)
    ensures t in Times(KeepFirst(rows))
  {
    var init, last := rows[..|rows| - 1], rows[|rows| - 1];
    var k := KeepFirst(init) + (if last.time in Times(init) then [] else [last]);
    if t in Times(init) {
      KeepFirstCovers(init, t);
      var i :| 0 <= i < |KeepFirst(init)| && Times(KeepFirst(init))[i] == t;
      assert Times(k)[i] == t;
    } else {
      var i :| 0 <= i < |rows| && Times(rows)[i] == t;
      assert i == |rows| - 1;
      assert Times(k)[|k| - 1] == t;
    }
  }

  /** On rows sorted by label, keeping the first row per label leaves strictly ascending labels. */
  lemma {:induction false} KeepFirstStrict<T>(rows: seq<Record<T>>)
    requires NonDecreasing(rows)
    ensures StrictlyAscending(KeepFirst(rows))
  {
    if rows != [] {
      var init, last := rows[..|rows| - 1], rows[|rows| - 1];
      KeepFirstStrict(init);
      KeepFirstMembers(init);
      var a := KeepFirst(init);
      if last.time !in Times(init) {
        forall e | e in a ensures e.time < last.time {
          var k :| 0 <= k < |init| && init[k] == e;
          assert Times(init)[k] == e.time;
        }
        forall i, j | 0 <= i < j < |a + [last]| ensures (a + [last])[i].time < (a + [last])[j].time {
          if j == |a| {
            assert (a + [last])[i] in a;
          }
        }
      }
    }
  }

  // ---------------------------------------------------------------------------
  // The characterisation of Clean and its idempotence

  lemma CleanSpec<C>(rows: seq<Record<Option<C>>>)
    ensures var r := KeepFirst(DropNA(Loc(rows, SortTimes(Times(rows)))));
      && StrictlyAscending(r)
      && (forall e | e in r :: e in rows && NullFree(e) && HasClean(rows, e.time) && e == FirstClean(rows, e.time))
      && (forall t | HasClean(rows, t) :: t in Times(r))
  {
    var labels := SortTimes(Times(rows));
    var l := Loc(rows, labels);
    var d := DropNA(l);
    var c := KeepFirst(d);
    LocNonDecreasing(rows, labels);
    DropNANonDecreasing(l);
    KeepFirstStrict(d);
    KeepFirstMembers(d);
    forall e | e in c ensures e in rows && NullFree(e) && HasClean(rows, e.time) && e == FirstClean(rows, e.time) {
      LocWithTime(rows, labels, e.time);
      RepFirst(DropNA(WithTime(rows, e.time)), multiset(labels)[e.time]);
      FirstCleanIn(rows, e.time);
    }
    forall t | HasClean(rows, t) ensures t in Times(c) {
      var h := DropNA(WithTime(rows, t));
      assert h[0] in WithTime(rows, t);
      WithTimeEmpty(rows, t);
      assert multiset(labels)[t] > 0;
      LocWithTime(rows, labels, t);
      RepFirst(h, multiset(labels)[t]);
      WithTimeEmpty(d, t);
      KeepFirstCovers(d, t);
    }
  }

  /** In a table with strictly ascending labels, a label identifies its row. */
  lemma UniqueLabel<T>(rows: seq<Record<T>>, a: Record<T>, b: Record<T>)
    requires StrictlyAscending(rows) && a in rows && b in rows && a.time == b.time
    ensures a == b
  {
    var p :| 0 <= p < |rows| && rows[p] == a;
    var q :| 0 <= q < |rows| && rows[q] == b;
    assert p == q;
  }

  /** Two strictly ascending tables with the same rows start with the same row, and their
      tails have the same rows. */
  lemma SameRowsHead<T>(a: seq<Record<T>>, b: seq<Record<T>>)
    requires StrictlyAscending(a) && StrictlyAscending(b)
    requires forall e :: e in a <==> e in b
    requires a != [] && b != []
    ensures a[0] == b[0]
    ensures forall e :: e in a[1..] <==> e in b[1..]
  {
    assert a[0] in a && b[0] in b;
    var i :| 0 <= i < |a| && a[i] == b[0];
    var j :| 0 <= j < |b| && b[j] == a[0];
    assert i == 0 && j == 0;
    forall e ensures e in a[1..] <==> e in b[1..] {
      if e in a[1..] {
        var k :| 0 <= k < |a[1..]| && a[1..][k] == e;
        assert a[k + 1] == e && a[0].time < e.time;
        assert e in a;
        var m :| 0 <= m < |b| && b[m] == e;
        assert m != 0 && b[1..][m - 1] == e;
      }
      if e in b[1..] {
        var k :| 0 <= k < |b[1..]| && b[1..][k] == e;
        assert b[k + 1] == e && b[0].time < e.time;
        assert e in b;
        var m :| 0 <= m < |a| && a[m] == e;
        assert m != 0 && a[1..][m - 1] == e;
      }
    }
  }

  /** Two strictly ascending tables with the same rows are the same table. */
  lemma {:induction false} SameRowsSameTable<T>(a: seq<Record<T>>, b: seq<Record<T>>)
    requires StrictlyAscending(a) && StrictlyAscending(b)
    requires forall e :: e in a <==> e in b
    ensures a == b
  {
    if a != [] {
      assert a[0] in b;
    }
    if b != [] {
      assert b[0] in a;
    }
    if a != [] && b != [] {
      SameRowsHead(a, b);
      SameRowsSameTable(a[1..], b[1..]);
      assert a == [a[0]] + a[1..] && b == [b[0]] + b[1..];
    }
  }

  lemma FirstCleanIn<C>(rows: seq<Record<Option<C>>>, t: Time)
    requires HasClean(rows, t)
    ensures FirstClean(rows, t) in rows && FirstClean(rows, t).time == t && NullFree(FirstClean(rows, t))
  {
    assert DropNA(WithTime(rows, t))[0] in DropNA(WithTime(rows, t));
  }

  /** A null-free row of a clean table survives cleaning. */
  lemma CleanKeepsRow<C>(rows: seq<Record<Option<C>>>, e: Record<Option<C>>)
    requires StrictlyAscending(rows) && e in rows && NullFree(e)
    ensures e in Clean(rows)
  {
    var c := Clean(rows);
    var t := e.time;
    DropNAHas(WithTime(rows, t), e);
    assert HasClean(rows, t);
    assert t in Times(c);
    var i :| 0 <= i < |c| && Times(c)[i] == t;
    var f := c[i];
    assert f in c;
    assert f == FirstClean(rows, t);
    FirstCleanIn(rows, t);
    UniqueLabel(rows, e, f);
  }

  /** Cleaning rows that are already clean changes nothing. */
  lemma CleanKeepsCleanRows<C>(rows: seq<Record<Option<C>>>)
    requires StrictlyAscending(rows) && forall e | e in rows :: NullFree(e)
    ensures Clean(rows) == rows
  {
    var c := Clean(rows);
    forall e | e in c ensures e in rows {
      FirstCleanIn(rows, e.time);
    }
    forall e | e in rows ensures e in c {
      CleanKeepsRow(rows, e);
    }
    SameRowsSameTable(c, rows);
  }

  lemma CleanIdempotent<C>(rows: seq<Record<Option<C>>>)
    ensures Clean(Clean(rows)) == Clean(rows)
  {
    CleanKeepsCleanRows(Clean(rows));
  }

  /** The row carries label `t` and has no missing cell. */
  predicate CleanRow<C>(e: Record<Option<C>>, t: Time)
  {
    e.time == t && NullFree(e)
  }

  /** The null-free rows labelled `t`, one row at a time. */
  lemma CleanStep<C>(rows: seq<Record<Option<C>>>, t: Time)
    requires rows != []
    ensures DropNA(WithTime(rows, t)) == (if CleanRow(rows[0], t) then [rows[0]] else []) + DropNA(WithTime(rows[1..], t))
  {
    var h := if rows[0].time == t then [rows[0]] else [];
    DropNAAppend(h, WithTime(rows[1..], t));
  }

  /** A label has a null-free row exactly when some row of the table carries it and has no
      missing cell. */
  lemma HasCleanExists<C>(rows: seq<Record<Option<C>>>, t: Time)
    ensures HasClean(rows, t) <==> exists i | 0 <= i < |rows| :: CleanRow(rows[i], t)
  {
    var d := DropNA(WithTime(rows, t));
    if d != [] {
      assert d[0] in d;
      var i :| 0 <= i < |rows| && rows[i] == d[0];
      assert CleanRow(rows[i], t);
    }
    if exists i | 0 <= i < |rows| :: CleanRow(rows[i], t) {
      var i :| 0 <= i < |rows| && CleanRow(rows[i], t);
      assert rows[i] in WithTime(rows, t);
      assert rows[i] in d;
    }
  }

  /** `FirstClean` is the earliest null-free row with its label, in table order. */
  lemma {:induction false} FirstCleanIsEarliest<C>(rows: seq<Record<Option<C>>>, t: Time)
    requires HasClean(rows, t)
    ensures exists i | 0 <= i < |rows| ::
      && rows[i] == FirstClean(rows, t) && CleanRow(rows[i], t)
      && forall j | 0 <= j < i :: !CleanRow(rows[j], t)
  {
    CleanStep(rows, t);
    if !CleanRow(rows[0], t) {
      FirstCleanIsEarliest(rows[1..], t);
      var i :| 0 <= i < |rows[1..]| && rows[1..][i] == FirstClean(rows[1..], t) && CleanRow(rows[1..][i], t)
               && forall j | 0 <= j < i :: !CleanRow(rows[1..][j], t);
      assert rows[i + 1] == FirstClean(rows, t);
      forall j | 0 <= j < i + 1 ensures !CleanRow(rows[j], t) {
        if j > 0 { assert rows[j] == rows[1..][j - 1]; }
      }
    }
  }
}
