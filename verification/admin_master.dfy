/** The admin master dataset: the latest demand forecast of every district,
    joined with the lifecycle-friction table and the update-dependency table
    on (state, district), with three columns renamed for the dashboard. The
    friction and dependency tables are taken as given; the forecast table is
    the one `DemandForecast` computes. */
module AdminMaster {
  import opened Wrappers
  import opened Seqs
  import DemandForecast

  type District = (string, string)
  type ForecastRow = DemandForecast.ForecastRow

  /** A row of `lifecycle_friction_index.csv`. */
  datatype LfiRow = LfiRow(state: string, district: string, date: int, score: real, frictionLevel: string)

  /** A row of `update_dependency_ratio.csv`. */
  datatype UdrRow = UdrRow(state: string, district: string, date: int, udr: real, udrLevel: string)

  function LfiKey(l: LfiRow): District { (l.state, l.district) }
  function UdrKey(u: UdrRow): District { (u.state, u.district) }
  function ForecastKey(f: ForecastRow): District { (f.state, f.district) }

  // ---------------------------------------------------------------- the latest forecast

  predicate DateLe(a: ForecastRow, b: ForecastRow) { a.date <= b.date }

  lemma DateLeIsTotalPreorder()
    ensures TotalPreorder(DateLe)
  {}

  /** No later row belongs to the same district: the row that
      `groupby(['state', 'district']).tail(1)` keeps. */
  predicate IsLast(rows: seq<ForecastRow>, i: nat)
    requires i < |rows|
  {
    forall m :: i < m < |rows| ==> ForecastKey(rows[m]) != ForecastKey(rows[i])
  }

  /** The positions below `n` that are last of their district, ascending. */
  function LastIndices(rows: seq<ForecastRow>, n: nat): (idx: seq<nat>)
    requires n <= |rows|
    ensures |idx| <= n
    ensures forall a :: 0 <= a < |idx| ==> idx[a] < n
  {
    if n == 0 then []
    else LastIndices(rows, n - 1) + if IsLast(rows, n - 1) then [n - 1] else []
  }

  lemma {:induction false} LastIndicesAreLast(rows: seq<ForecastRow>, n: nat)
    requires n <= |rows|
    ensures forall a :: 0 <= a < |LastIndices(rows, n)| ==> IsLast(rows, LastIndices(rows, n)[a])
  {
    if n > 0 {
      LastIndicesAreLast(rows, n - 1);
    }
  }

  lemma {:induction false} LastIndicesComplete(rows: seq<ForecastRow>, n: nat)
    requires n <= |rows|
    ensures forall i :: 0 <= i < n && IsLast(rows, i) ==> i in LastIndices(rows, n)
  {
    if n > 0 {
      LastIndicesComplete(rows, n - 1);
    }
  }

  lemma {:induction false} LastIndicesAscending(rows: seq<ForecastRow>, n: nat)
    requires n <= |rows|
    ensures forall a, b :: 0 <= a < b < |LastIndices(rows, n)| ==> LastIndices(rows, n)[a] < LastIndices(rows, n)[b]
  {
    if n > 0 {
      LastIndicesAscending(rows, n - 1);
    }
  }

  /** Every row has a last row of its district at or after it. */
  lemma LastExists(rows: seq<ForecastRow>, j: nat) returns (i: nat)
    requires j < |rows|
    ensures j <= i < |rows| && IsLast(rows, i) && ForecastKey(rows[i]) == ForecastKey(rows[j])
    decreases |rows| - j
  {
    if IsLast(rows, j) {
      i := j;
    } else {
      var m :| j < m < |rows| && ForecastKey(rows[m]) == ForecastKey(rows[j]);
      i := LastExists(rows, m);
    }
  }

  /** `groupby(['state', 'district']).tail(1)`: the last row of every
      district, in row order. */
  function TailOne(rows: seq<ForecastRow>): (t: seq<ForecastRow>)
    ensures |t| <= |rows|
  {
    var idx := LastIndices(rows, |rows|);
    seq(|idx|, a requires 0 <= a < |idx| => rows[idx[a]])
  }

  /** Every row `tail(1)` keeps is the last row of its district. */
  lemma TailOneRows(rows: seq<ForecastRow>)
    ensures forall a :: 0 <= a < |TailOne(rows)| ==>
              exists i :: 0 <= i < |rows| && IsLast(rows, i) && TailOne(rows)[a] == rows[i]
  {
    var t := TailOne(rows);
    var idx := LastIndices(rows, |rows|);
    LastIndicesAreLast(rows, |rows|);
    forall a | 0 <= a < |t|
      ensures exists i :: 0 <= i < |rows| && IsLast(rows, i) && t[a] == rows[i]
    {
      assert t[a] == rows[idx[a]] && IsLast(rows, idx[a]);
    }
  }

  /** The row `tail(1)` keeps at position `a`, and where it stands in the
      table. */
  lemma TailOneRowAt(rows: seq<ForecastRow>, a: nat) returns (i: nat)
    requires a < |TailOne(rows)|
    ensures i < |rows| && IsLast(rows, i) && TailOne(rows)[a] == rows[i]
  {
    var idx := LastIndices(rows, |rows|);
    LastIndicesAreLast(rows, |rows|);
    i := idx[a];
  }

  /** Every district of the table keeps a row. */
  lemma TailOneCovers(rows: seq<ForecastRow>, j: nat) returns (a: nat)
    requires j < |rows|
    ensures a < |TailOne(rows)| && ForecastKey(TailOne(rows)[a]) == ForecastKey(rows[j])
  {
    var idx := LastIndices(rows, |rows|);
    LastIndicesComplete(rows, |rows|);
    var i := LastExists(rows, j);
    assert i in idx;
    a :| 0 <= a < |idx| && idx[a] == i;
  }

  /** No district keeps two rows. */
  lemma TailOneDistinct(rows: seq<ForecastRow>)
    ensures forall a, b :: 0 <= a < b < |TailOne(rows)| ==>
              ForecastKey(TailOne(rows)[a]) != ForecastKey(TailOne(rows)[b])
  {
    var t := TailOne(rows);
    var idx := LastIndices(rows, |rows|);
    LastIndicesAreLast(rows, |rows|);
    LastIndicesAscending(rows, |rows|);
    forall a, b | 0 <= a < b < |t|
      ensures ForecastKey(t[a]) != ForecastKey(t[b])
    {
      assert idx[a] < idx[b] && IsLast(rows, idx[a]);
      assert t[a] == rows[idx[a]] && t[b] == rows[idx[b]];
    }
  }

  /** `forecast.sort_values('date').groupby(['state', 'district']).tail(1)`.
      The sort is `pandas`' default quicksort, which does not keep the order
      of rows with equal dates; the model sorts stably, which is one of the
      orders quicksort may produce. */
  function Latest(forecast: seq<ForecastRow>): (t: seq<ForecastRow>)
    ensures |t| <= |forecast|
  {
    TailOne(Sort(forecast, DateLe))
  }

  /** Every row of the latest forecast is a row of the table, and no
      district appears twice in it. */
  lemma LatestRows(forecast: seq<ForecastRow>)
    ensures forall a :: 0 <= a < |Latest(forecast)| ==> Latest(forecast)[a] in forecast
    ensures forall a, b :: 0 <= a < b < |Latest(forecast)| ==>
              ForecastKey(Latest(forecast)[a]) != ForecastKey(Latest(forecast)[b])
  {
    var s := Sort(forecast, DateLe);
    assert forall x :: x in s <==> x in multiset(s);
    assert forall x :: x in forecast <==> x in multiset(forecast);
    TailOneRows(s);
    TailOneDistinct(s);
  }

  /** Every district of the forecast table has its row in the latest
      forecast. */
  lemma LatestCovers(forecast: seq<ForecastRow>, j: nat) returns (a: nat)
    requires j < |forecast|
    ensures a < |Latest(forecast)| && ForecastKey(Latest(forecast)[a]) == ForecastKey(forecast[j])
  {
    var s := Sort(forecast, DateLe);
    assert forall x :: x in forecast <==> x in multiset(forecast);
    assert forall x :: x in s <==> x in multiset(s);
    assert forecast[j] in s;
    var m :| 0 <= m < |s| && s[m] == forecast[j];
    a := TailOneCovers(s, m);
  }

  /** In a date-sorted table, the last row of a district is its newest. */
  lemma LastIsNewest(s: seq<ForecastRow>, i: nat, m: nat)
    requires Sorted(s, DateLe) && i < |s| && IsLast(s, i)
    requires m < |s| && ForecastKey(s[m]) == ForecastKey(s[i])
    ensures s[m].date <= s[i].date
  {
    assert m <= i;
    if m < i {
      assert DateLe(s[m], s[i]);
    }
  }

  /** The row the latest forecast keeps for a district carries the latest
      date of that district. */
  lemma LatestIsNewest(forecast: seq<ForecastRow>, a: nat, j: nat)
    requires a < |Latest(forecast)| && j < |forecast|
    requires ForecastKey(forecast[j]) == ForecastKey(Latest(forecast)[a])
    ensures forecast[j].date <= Latest(forecast)[a].date
  {
    var s := Sort(forecast, DateLe);
    DateLeIsTotalPreorder();
    SortSorted(forecast, DateLe);
    var i := TailOneRowAt(s, a);
    assert forecast[j] in multiset(forecast);
    assert forecast[j] in multiset(s);
    var m :| 0 <= m < |s| && s[m] == forecast[j];
    LastIsNewest(s, i, m);
  }

  /** The latest forecast: one row per district of the forecast table and
      no other, each a row of the table carrying its district's latest
      date. */
  lemma LatestMeans(forecast: seq<ForecastRow>)
    ensures forall a :: 0 <= a < |Latest(forecast)| ==> Latest(forecast)[a] in forecast
    ensures forall a, b :: 0 <= a < b < |Latest(forecast)| ==>
              ForecastKey(Latest(forecast)[a]) != ForecastKey(Latest(forecast)[b])
    ensures forall j :: 0 <= j < |forecast| ==>
              exists a :: 0 <= a < |Latest(forecast)| && ForecastKey(Latest(forecast)[a]) == ForecastKey(forecast[j])
    ensures forall a, j :: 0 <= a < |Latest(forecast)| && 0 <= j < |forecast| &&
              ForecastKey(forecast[j]) == ForecastKey(Latest(forecast)[a])
              ==> forecast[j].date <= Latest(forecast)[a].date
  {
    LatestRows(forecast);
    forall j | 0 <= j < |forecast|
      ensures exists a :: 0 <= a < |Latest(forecast)| && ForecastKey(Latest(forecast)[a]) == ForecastKey(forecast[j])
    {
      var a := LatestCovers(forecast, j);
    }
    forall a, j | 0 <= a < |Latest(forecast)| && 0 <= j < |forecast| &&
                  ForecastKey(forecast[j]) == ForecastKey(Latest(forecast)[a])
      ensures forecast[j].date <= Latest(forecast)[a].date
    {
      LatestIsNewest(forecast, a, j);
    }
  }

  // ---------------------------------------------------------------- left joins

  /** A row of a left join: the left row and its partner, or `None` (the
      NaN columns) when the right table has no row of its district. */
  datatype Joined<L, R> = Joined(left: L, right: Option<R>)

  /** The rows of `right` in district `k`, in their order. */
  function MatchesOf<R>(right: seq<R>, rk: R -> District, k: District): (ms: seq<R>)
    ensures forall a :: 0 <= a < |ms| ==> rk(ms[a]) == k
  {
    if right == [] then []
    else
      var last := right[|right| - 1];
      MatchesOf(right[..|right| - 1], rk, k) + if rk(last) == k then [last] else []
  }

  lemma {:induction false} MatchesOfSound<R>(right: seq<R>, rk: R -> District, k: District)
    ensures forall x :: x in MatchesOf(right, rk, k) ==> x in right
  {
    if right != [] {
      MatchesOfSound(right[..|right| - 1], rk, k);
    }
  }

  lemma {:induction false} MatchesOfComplete<R>(right: seq<R>, rk: R -> District, k: District)
    ensures forall j :: 0 <= j < |right| && rk(right[j]) == k ==> right[j] in MatchesOf(right, rk, k)
  {
    if right != [] {
      var p := right[..|right| - 1];
      MatchesOfComplete(p, rk, k);
      assert forall j :: 0 <= j < |p| ==> right[j] == p[j];
    }
  }

  /** No match is found exactly when no row of `right` is in district `k`. */
  lemma {:induction false} MatchesOfEmpty<R>(right: seq<R>, rk: R -> District, k: District)
    ensures MatchesOf(right, rk, k) == [] <==> forall j :: 0 <= j < |right| ==> rk(right[j]) != k
  {
    MatchesOfComplete(right, rk, k);
    if right != [] {
      var p := right[..|right| - 1];
      MatchesOfEmpty(p, rk, k);
      assert forall j :: 0 <= j < |p| ==> right[j] == p[j];
    }
  }

  /** A right table with no district twice has at most one row per
      district. */
  lemma {:induction false} MatchesOfUnique<R>(right: seq<R>, rk: R -> District, k: District)
    requires forall a, b :: 0 <= a < b < |right| ==> rk(right[a]) != rk(right[b])
    ensures |MatchesOf(right, rk, k)| <= 1
  {
    if right != [] {
      var p := right[..|right| - 1];
      MatchesOfUnique(p, rk, k);
      assert forall j :: 0 <= j < |p| ==> rk(p[j]) != rk(right[|right| - 1]) by {
        assert forall j :: 0 <= j < |p| ==> p[j] == right[j];
      }
      MatchesOfEmpty(p, rk, k);
    }
  }

  /** The rows one left row yields: one per match, or one with no partner. */
  function JoinRow<L, R>(l: L, right: seq<R>, lk: L -> District, rk: R -> District): (out: seq<Joined<L, R>>)
    ensures 1 <= |out|
  {
    var ms := MatchesOf(right, rk, lk(l));
    if ms == [] then [Joined(l, None)]
    else seq(|ms|, a requires 0 <= a < |ms| => Joined(l, Some(ms[a])))
  }

  /** `left.merge(right, on=['state', 'district'], how='left')`: the left
      rows in order, each followed by its matches in the right table's
      order. */
  function LeftJoin<L, R>(left: seq<L>, right: seq<R>, lk: L -> District, rk: R -> District): (out: seq<Joined<L, R>>)
    ensures |left| <= |out|
  {
    if left == [] then []
    else LeftJoin(left[..|left| - 1], right, lk, rk) + JoinRow(left[|left| - 1], right, lk, rk)
  }

  /** No row of `right` is in the district of `l`. */
  predicate Unmatched<L, R>(l: L, right: seq<R>, lk: L -> District, rk: R -> District) {
    forall j :: 0 <= j < |right| ==> rk(right[j]) != lk(l)
  }

  /** A joined row pairs its left row with a right row of the same
      district, or with nothing when the right table has none. */
  predicate Partnered<L, R(==)>(o: Joined<L, R>, right: seq<R>, lk: L -> District, rk: R -> District) {
    match o.right
    case Some(r) => r in right && rk(r) == lk(o.left)
    case None => Unmatched(o.left, right, lk, rk)
  }

  lemma JoinRowMeans<L, R>(l: L, right: seq<R>, lk: L -> District, rk: R -> District)
    ensures forall i :: 0 <= i < |JoinRow(l, right, lk, rk)| ==>
              JoinRow(l, right, lk, rk)[i].left == l && Partnered(JoinRow(l, right, lk, rk)[i], right, lk, rk)
    ensures forall m :: 0 <= m < |right| && rk(right[m]) == lk(l) ==> Joined(l, Some(right[m])) in JoinRow(l, right, lk, rk)
    ensures Unmatched(l, right, lk, rk) ==> JoinRow(l, right, lk, rk) == [Joined(l, None)]
  {
    var ms := MatchesOf(right, rk, lk(l));
    var out := JoinRow(l, right, lk, rk);
    MatchesOfSound(right, rk, lk(l));
    MatchesOfComplete(right, rk, lk(l));
    MatchesOfEmpty(right, rk, lk(l));
    forall m | 0 <= m < |right| && rk(right[m]) == lk(l)
      ensures Joined(l, Some(right[m])) in out
    {
      var a :| 0 <= a < |ms| && ms[a] == right[m];
      assert out[a] == Joined(l, Some(right[m]));
    }
  }

  /** Each match of a left row gives it a joined row. */
  lemma JoinRowHasMatch<L, R>(l: L, right: seq<R>, lk: L -> District, rk: R -> District, m: nat) returns (a: nat)
    requires m < |right| && rk(right[m]) == lk(l)
    ensures a < |JoinRow(l, right, lk, rk)| && JoinRow(l, right, lk, rk)[a] == Joined(l, Some(right[m]))
  {
    var ms := MatchesOf(right, rk, lk(l));
    MatchesOfComplete(right, rk, lk(l));
    a :| 0 <= a < |ms| && ms[a] == right[m];
  }

  /** Every joined row comes from a left row and is correctly partnered. */
  lemma {:induction false} LeftJoinRows<L, R>(left: seq<L>, right: seq<R>, lk: L -> District, rk: R -> District)
    ensures forall i :: 0 <= i < |LeftJoin(left, right, lk, rk)| ==>
              LeftJoin(left, right, lk, rk)[i].left in left && Partnered(LeftJoin(left, right, lk, rk)[i], right, lk, rk)
  {
    if left != [] {
      var p := left[..|left| - 1];
      var l := left[|left| - 1];
      LeftJoinRows(p, right, lk, rk);
      JoinRowMeans(l, right, lk, rk);
      var head: seq<Joined<L, R>> := LeftJoin(p, right, lk, rk);
      var tail: seq<Joined<L, R>> := JoinRow(l, right, lk, rk);
      assert forall x :: x in p ==> x in left;
      forall i | 0 <= i < |head + tail|
        ensures (head + tail)[i].left in left && Partnered((head + tail)[i], right, lk, rk)
      {
        if i < |head| {
          assert (head + tail)[i] == head[i];
        } else {
          assert (head + tail)[i] == tail[i - |head|];
        }
      }
    }
  }

  /** A left row is kept once with each of its matches. */
  lemma {:induction false} LeftJoinKeepsMatch<L, R>(left: seq<L>, right: seq<R>, lk: L -> District, rk: R -> District, j: nat, m: nat)
    returns (k: nat)
    requires j < |left| && m < |right| && rk(right[m]) == lk(left[j])
    ensures k < |LeftJoin(left, right, lk, rk)| && LeftJoin(left, right, lk, rk)[k] == Joined(left[j], Some(right[m]))
    decreases |left|
  {
    var p := left[..|left| - 1];
    var head: seq<Joined<L, R>> := LeftJoin(p, right, lk, rk);
    var tail: seq<Joined<L, R>> := JoinRow(left[|left| - 1], right, lk, rk);
    assert LeftJoin(left, right, lk, rk) == head + tail;
    if j < |p| {
      assert p[j] == left[j];
      k := LeftJoinKeepsMatch(p, right, lk, rk, j, m);
      assert (head + tail)[k] == head[k];
    } else {
      assert j == |left| - 1;
      var a := JoinRowHasMatch(left[|left| - 1], right, lk, rk, m);
      k := |head| + a;
      assert (head + tail)[k] == tail[a];
    }
  }

  /** A left row with no match is kept once, with nothing. */
  lemma {:induction false} LeftJoinKeepsUnmatched<L, R>(left: seq<L>, right: seq<R>, lk: L -> District, rk: R -> District, j: nat)
    returns (k: nat)
    requires j < |left| && Unmatched(left[j], right, lk, rk)
    ensures k < |LeftJoin(left, right, lk, rk)| && LeftJoin(left, right, lk, rk)[k] == Joined(left[j], None)
    decreases |left|
  {
    var p := left[..|left| - 1];
    var head: seq<Joined<L, R>> := LeftJoin(p, right, lk, rk);
    var tail: seq<Joined<L, R>> := JoinRow(left[|left| - 1], right, lk, rk);
    assert LeftJoin(left, right, lk, rk) == head + tail;
    if j < |p| {
      assert p[j] == left[j];
      k := LeftJoinKeepsUnmatched(p, right, lk, rk, j);
      assert (head + tail)[k] == head[k];
    } else {
      assert j == |left| - 1;
      MatchesOfEmpty(right, rk, lk(left[|left| - 1]));
      assert tail == [Joined(left[j], None)];
      k := |head|;
      assert (head + tail)[k] == tail[0];
    }
  }

  /** Against a right table with no district twice, the join keeps the left
      table row for row: same length, same order. */
  lemma {:induction false} LeftJoinOneToOne<L, R>(left: seq<L>, right: seq<R>, lk: L -> District, rk: R -> District)
    requires forall a, b :: 0 <= a < b < |right| ==> rk(right[a]) != rk(right[b])
    ensures |LeftJoin(left, right, lk, rk)| == |left|
    ensures forall i :: 0 <= i < |left| ==> LeftJoin(left, right, lk, rk)[i].left == left[i]
  {
    if left != [] {
      var p := left[..|left| - 1];
      var l := left[|left| - 1];
      LeftJoinOneToOne(p, right, lk, rk);
      MatchesOfUnique(right, rk, lk(l));
      var head: seq<Joined<L, R>> := LeftJoin(p, right, lk, rk);
      var tail: seq<Joined<L, R>> := JoinRow(l, right, lk, rk);
      assert |tail| == 1 && tail[0].left == l;
      forall i | 0 <= i < |left|
        ensures (head + tail)[i].left == left[i]
      {
        if i < |p| {
          assert (head + tail)[i] == head[i] && left[i] == p[i];
        }
      }
    }
  }

  // ---------------------------------------------------------------- the admin view

  /** A row of the admin dataset: the friction row's own columns, then the
      dependency row's (`None` where the district has none), then the
      forecast's label and action (`None` where the district has no
      forecast). */
  datatype AdminRow = AdminRow(
    state: string, district: string, lfiDate: int, score: real, frictionLevel: string,
    udrDate: Option<int>, udr: Option<real>, udrLevel: Option<string>,
    forecastLevel: Option<string>, recommendedAction: Option<string>)

  function FirstKey(j: Joined<LfiRow, UdrRow>): District { LfiKey(j.left) }

  function Flatten(j: Joined<Joined<LfiRow, UdrRow>, ForecastRow>): AdminRow {
    var l := j.left.left;
    var u := j.left.right;
    var f := j.right;
    AdminRow(l.state, l.district, l.date, l.score, l.frictionLevel,
             if u.Some? then Some(u.value.date) else None,
             if u.Some? then Some(u.value.udr) else None,
             if u.Some? then Some(u.value.udrLevel) else None,
             if f.Some? then Some(f.value.level) else None,
             if f.Some? then Some(f.value.action) else None)
  }

  /** `lfi.merge(udr, ...).merge(latest_forecast[...], ...)`, both joins on
      (state, district) only. */
  function AdminRows(lfi: seq<LfiRow>, udr: seq<UdrRow>, forecast: seq<ForecastRow>): (out: seq<AdminRow>)
    ensures |LeftJoin(lfi, udr, LfiKey, UdrKey)| <= |out|
  {
    var first := LeftJoin(lfi, udr, LfiKey, UdrKey);
    var second := LeftJoin(first, Latest(forecast), FirstKey, ForecastKey);
    seq(|second|, i requires 0 <= i < |second| => Flatten(second[i]))
  }

  /** The admin row carries the friction row's own columns. */
  predicate Carries(r: AdminRow, l: LfiRow) {
    r.state == l.state && r.district == l.district && r.lfiDate == l.date &&
    r.score == l.score && r.frictionLevel == l.frictionLevel
  }

  /** The forecast join adds no row, and keeps the rows of the first join
      in order. */
  lemma SecondJoinOneToOne(lfi: seq<LfiRow>, udr: seq<UdrRow>, forecast: seq<ForecastRow>)
    ensures var first := LeftJoin(lfi, udr, LfiKey, UdrKey);
            var second := LeftJoin(first, Latest(forecast), FirstKey, ForecastKey);
            && |second| == |first|
            && forall i :: 0 <= i < |first| ==> second[i].left == first[i]
  {
    LatestRows(forecast);
    LeftJoinOneToOne(LeftJoin(lfi, udr, LfiKey, UdrKey), Latest(forecast), FirstKey, ForecastKey);
  }

  /** Every friction row has a row in the first join. */
  lemma FirstJoinKeeps(lfi: seq<LfiRow>, udr: seq<UdrRow>, j: nat) returns (k: nat)
    requires j < |lfi|
    ensures k < |LeftJoin(lfi, udr, LfiKey, UdrKey)| && LeftJoin(lfi, udr, LfiKey, UdrKey)[k].left == lfi[j]
  {
    var first := LeftJoin(lfi, udr, LfiKey, UdrKey);
    if Unmatched(lfi[j], udr, LfiKey, UdrKey) {
      k := LeftJoinKeepsUnmatched(lfi, udr, LfiKey, UdrKey, j);
    } else {
      var m :| 0 <= m < |udr| && UdrKey(udr[m]) == LfiKey(lfi[j]);
      k := LeftJoinKeepsMatch(lfi, udr, LfiKey, UdrKey, j, m);
    }
  }

  /** The admin row at a position of the first join carries the friction
      row found there. */
  lemma AdminRowAt(lfi: seq<LfiRow>, udr: seq<UdrRow>, forecast: seq<ForecastRow>, k: nat)
    requires k < |LeftJoin(lfi, udr, LfiKey, UdrKey)|
    ensures k < |AdminRows(lfi, udr, forecast)|
    ensures Carries(AdminRows(lfi, udr, forecast)[k], LeftJoin(lfi, udr, LfiKey, UdrKey)[k].left)
  {
    var first := LeftJoin(lfi, udr, LfiKey, UdrKey);
    var second := LeftJoin(first, Latest(forecast), FirstKey, ForecastKey);
    SecondJoinOneToOne(lfi, udr, forecast);
    assert AdminRows(lfi, udr, forecast)[k] == Flatten(second[k]) && second[k].left == first[k];
  }

  /** Every friction row reaches the admin dataset: the joins drop none. */
  lemma AdminRowsKeepLfi(lfi: seq<LfiRow>, udr: seq<UdrRow>, forecast: seq<ForecastRow>, j: nat)
    requires j < |lfi|
    ensures exists i :: 0 <= i < |AdminRows(lfi, udr, forecast)| && Carries(AdminRows(lfi, udr, forecast)[i], lfi[j])
  {
    var k := FirstJoinKeeps(lfi, udr, j);
    AdminRowAt(lfi, udr, forecast, k);
  }

  /** No forecast row is in district `k`. */
  predicate NoForecast(forecast: seq<ForecastRow>, k: District) {
    forall m :: 0 <= m < |forecast| ==> ForecastKey(forecast[m]) != k
  }

  /** A district with a forecast gets the label and action of its latest
      forecast row; a district with none gets empty label and action. */
  lemma AdminRowForecast(lfi: seq<LfiRow>, udr: seq<UdrRow>, forecast: seq<ForecastRow>, i: nat)
    requires i < |AdminRows(lfi, udr, forecast)|
    ensures var r := AdminRows(lfi, udr, forecast)[i];
            && (r.forecastLevel.None? <==> NoForecast(forecast, (r.state, r.district)))
            && (r.forecastLevel.None? <==> r.recommendedAction.None?)
            && (r.forecastLevel.Some? ==>
                  exists m :: 0 <= m < |forecast| && ForecastKey(forecast[m]) == (r.state, r.district) &&
                    r.forecastLevel == Some(forecast[m].level) && r.recommendedAction == Some(forecast[m].action) &&
                    forall m' :: 0 <= m' < |forecast| && ForecastKey(forecast[m']) == (r.state, r.district) ==>
                      forecast[m'].date <= forecast[m].date)
  {
    var first := LeftJoin(lfi, udr, LfiKey, UdrKey);
    var t := Latest(forecast);
    var second := LeftJoin(first, t, FirstKey, ForecastKey);
    var r := AdminRows(lfi, udr, forecast)[i];
    assert r == Flatten(second[i]);
    LeftJoinRows(first, t, FirstKey, ForecastKey);
    assert Partnered(second[i], t, FirstKey, ForecastKey);
    var k := FirstKey(second[i].left);
    assert k == (r.state, r.district);
    LatestRows(forecast);
    match second[i].right
    case Some(f) =>
      var a :| 0 <= a < |t| && t[a] == f;
      assert f in forecast;
      var m :| 0 <= m < |forecast| && forecast[m] == f;
      forall m' | 0 <= m' < |forecast| && ForecastKey(forecast[m']) == k
        ensures forecast[m'].date <= forecast[m].date
      {
        LatestIsNewest(forecast, a, m');
      }
    case None =>
      forall m | 0 <= m < |forecast|
        ensures ForecastKey(forecast[m]) != k
      {
        var a := LatestCovers(forecast, m);
      }
  }

  /** No dependency row is in district `k`. */
  predicate NoDependency(udr: seq<UdrRow>, k: District) {
    forall m :: 0 <= m < |udr| ==> UdrKey(udr[m]) != k
  }

  /** A district with dependency rows gets the columns of one of them; a
      district with none gets empty dependency columns. */
  lemma AdminRowDependency(lfi: seq<LfiRow>, udr: seq<UdrRow>, forecast: seq<ForecastRow>, i: nat)
    requires i < |AdminRows(lfi, udr, forecast)|
    ensures var r := AdminRows(lfi, udr, forecast)[i];
            && (r.udrLevel.None? <==> NoDependency(udr, (r.state, r.district)))
            && (r.udrLevel.Some? ==>
                  exists m :: 0 <= m < |udr| && UdrKey(udr[m]) == (r.state, r.district) &&
                    r.udrDate == Some(udr[m].date) && r.udr == Some(udr[m].udr) && r.udrLevel == Some(udr[m].udrLevel))
  {
    var first := LeftJoin(lfi, udr, LfiKey, UdrKey);
    var second := LeftJoin(first, Latest(forecast), FirstKey, ForecastKey);
    var r := AdminRows(lfi, udr, forecast)[i];
    SecondJoinOneToOne(lfi, udr, forecast);
    assert r == Flatten(second[i]) && second[i].left == first[i];
    LeftJoinRows(lfi, udr, LfiKey, UdrKey);
    assert Partnered(first[i], udr, LfiKey, UdrKey);
    if first[i].right.Some? {
      var u := first[i].right.value;
      var m :| 0 <= m < |udr| && udr[m] == u;
    }
  }

  /** Fed with the forecast script's own table, every admin row has either
      no demand label or one of the three labels, with the action that label
      calls for. */
  lemma AdminRowLabels(lfi: seq<LfiRow>, udr: seq<UdrRow>, demo: seq<DemandForecast.DemoRow>,
                       bio: seq<DemandForecast.BioRow>, i: nat)
    requires i < |AdminRows(lfi, udr, DemandForecast.ForecastTable(demo, bio))|
    ensures var r := AdminRows(lfi, udr, DemandForecast.ForecastTable(demo, bio))[i];
            r.forecastLevel.Some? ==>
              && r.forecastLevel.value in {DemandForecast.LowDemand, DemandForecast.MediumDemand, DemandForecast.HighDemand}
              && r.recommendedAction == Some(DemandForecast.RecommendAction(r.forecastLevel.value))
  {
    var forecast := DemandForecast.ForecastTable(demo, bio);
    var r := AdminRows(lfi, udr, forecast)[i];
    AdminRowForecast(lfi, udr, forecast, i);
    DemandForecast.ForecastTableMeans(demo, bio);
    if r.forecastLevel.Some? {
      var m :| 0 <= m < |forecast| && ForecastKey(forecast[m]) == (r.state, r.district) &&
               r.forecastLevel == Some(forecast[m].level) && r.recommendedAction == Some(forecast[m].action);
      assert forecast[m] == DemandForecast.RowAt(DemandForecast.Ordered(demo, bio), m);
    }
  }

  // ---------------------------------------------------------------- the rename

  /** The columns of the merged frame, in order: `date` appears in both the
      friction and the dependency table, so the join suffixes it. */
  const MergedColumns: seq<string> :=
    ["state", "district", "date_x", "lifecycle_friction_score", "friction_level",
     "date_y", "udr", "udr_level", "forecast_level", "recommended_action"]

  /** The mapping handed to `rename`. */
  const AdminRenames: map<string, string> :=
    map["friction_level" := "Lifecycle_Friction",
        "dependency_level" := "Update_Dependency_Pressure",
        "forecast_level" := "Next_Month_Demand"]

  function RenameOne(mapping: map<string, string>, c: string): string {
    if c in mapping then mapping[c] else c
  }

  /** Every column the mapping names takes its new name; the others keep
      theirs, and names the mapping lists but the frame lacks are ignored. */
  function Renamed(columns: seq<string>, mapping: map<string, string>): (r: seq<string>)
    ensures |r| == |columns|
  {
    seq(|columns|, i requires 0 <= i < |columns| => RenameOne(mapping, columns[i]))
  }

  /** The saved frame: its column names and its rows. */
  class AdminView {
    var columns: seq<string>
    var rows: seq<AdminRow>

    /** The merged frame, before the rename. */
    constructor (lfi: seq<LfiRow>, udr: seq<UdrRow>, forecast: seq<ForecastRow>)
      ensures columns == MergedColumns && rows == AdminRows(lfi, udr, forecast)
    {
      columns := MergedColumns;
      rows := AdminRows(lfi, udr, forecast);
    }

    /** `rename(columns=mapping, inplace=True)`, one column at a time. */
    method Rename(mapping: map<string, string>)
      modifies this
      ensures columns == Renamed(old(columns), mapping)
      ensures rows == old(rows)
    {
      var i := 0;
      while i < |columns|
        invariant i <= |columns| == |old(columns)|
        invariant columns == Renamed(old(columns)[..i], mapping) + old(columns)[i..]
        invariant rows == old(rows)
      {
        RenameStep(old(columns), mapping, i);
        columns := columns[i := RenameOne(mapping, columns[i])];
        i := i + 1;
      }
      assert old(columns)[..i] == old(columns);
    }
  }

  /** One more column of the rename: the loop's step. */
  lemma RenameStep(columns: seq<string>, mapping: map<string, string>, i: nat)
    requires i < |columns|
    ensures (Renamed(columns[..i], mapping) + columns[i..])[i := RenameOne(mapping, columns[i])] ==
            Renamed(columns[..i + 1], mapping) + columns[i + 1..]
  {
    var before := Renamed(columns[..i], mapping) + columns[i..];
    var after := Renamed(columns[..i + 1], mapping) + columns[i + 1..];
    assert |before[i := RenameOne(mapping, columns[i])]| == |after|;
    forall k | 0 <= k < |after| ensures before[i := RenameOne(mapping, columns[i])][k] == after[k] {
      if k < i {
        assert before[k] == Renamed(columns[..i], mapping)[k] == RenameOne(mapping, columns[k]);
      } else if k > i {
        assert before[k] == columns[k];
      }
    }
  }

  /** A name the frame lacks has no effect on the rename. */
  lemma RenameIgnoresAbsent(columns: seq<string>, mapping: map<string, string>, c: string)
    requires c !in columns
    ensures Renamed(columns, mapping) == Renamed(columns, mapping - {c})
  {}

  /** Renaming back through the inverse mapping restores the columns, as
      long as no column left alone is one the inverse would rename. */
  lemma RenameBack(columns: seq<string>, mapping: map<string, string>, inverse: map<string, string>)
    requires forall c :: c in mapping ==> mapping[c] in inverse && inverse[mapping[c]] == c
    requires forall i :: 0 <= i < |columns| && columns[i] !in mapping ==> columns[i] !in inverse
    ensures Renamed(Renamed(columns, mapping), inverse) == columns
  {}

  /** Renaming keeps the columns distinct when the new names are distinct
      and none of them is a column left alone. */
  lemma RenameKeepsDistinct(columns: seq<string>, mapping: map<string, string>)
    requires NoDups(columns)
    requires forall a, b :: a in mapping && b in mapping && a != b ==> mapping[a] != mapping[b]
    requires forall i, c :: 0 <= i < |columns| && c in mapping && columns[i] !in mapping ==> mapping[c] != columns[i]
    ensures NoDups(Renamed(columns, mapping))
  {
    var r := Renamed(columns, mapping);
    forall i, j | 0 <= i < j < |r| ensures r[i] != r[j] {
      assert columns[i] != columns[j];
    }
  }

  /** The dataset's columns after the rename: friction and forecast labels
      under their dashboard names, while the dependency label keeps its
      name `udr_level`, because the frame has no `dependency_level` column. */
  lemma AdminColumns()
    ensures Renamed(MergedColumns, AdminRenames) ==
            ["state", "district", "date_x", "lifecycle_friction_score", "Lifecycle_Friction",
             "date_y", "udr", "udr_level", "Next_Month_Demand", "recommended_action"]
    ensures "dependency_level" !in MergedColumns
    ensures "Update_Dependency_Pressure" !in Renamed(MergedColumns, AdminRenames)
  {}
}
