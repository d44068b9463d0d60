/** The demand forecast (`src/06_forecast_demand.py`): the monthly
    demographic and biometric update counts are joined per district and
    month, the rows are ordered by state, district and date, each row gets
    the mean of its own total and up to two earlier totals of its district,
    and the mean is labelled and mapped to an action. Dates are abstract
    ordinals; a mean is kept as its exact sum and count. */
module DemandForecast {
  import opened Seqs

  // ---------------------------------------------------------------- the joined updates

  /** A row of `demo_monthly.csv`. */
  datatype DemoRow = DemoRow(state: string, district: string, date: int, age5To17: int, age17Plus: int)

  /** A row of `bio_monthly.csv`. */
  datatype BioRow = BioRow(state: string, district: string, date: int, age5To17: int, age17Plus: int)

  type Key = (string, string, int)

  function DemoKey(d: DemoRow): Key { (d.state, d.district, d.date) }
  function BioKey(b: BioRow): Key { (b.state, b.district, b.date) }

  /** `demo_total` and `bio_total`. */
  function DemoTotal(d: DemoRow): int { d.age5To17 + d.age17Plus }
  function BioTotal(b: BioRow): int { b.age5To17 + b.age17Plus }

  /** A row of `updates` after the join and `fillna(0)`. */
  datatype Update = Update(state: string, district: string, date: int, demoTotal: int, bioTotal: int)

  /** `total_updates`. */
  function Total(u: Update): int { u.demoTotal + u.bioTotal }

  /** The biometric totals of the rows that match `d` on state, district
      and date, in order. */
  function Hits(d: DemoRow, bio: seq<BioRow>): (hs: seq<int>)
    ensures forall h :: h in hs ==> exists b :: b in bio && BioKey(b) == DemoKey(d) && h == BioTotal(b)
    ensures hs == [] <==> forall b :: b in bio ==> BioKey(b) != DemoKey(d)
    ensures forall b :: b in bio && BioKey(b) == DemoKey(d) ==> BioTotal(b) in hs
  {
    if bio == [] then []
    else
      var b := bio[|bio| - 1];
      var rest := Hits(d, bio[..|bio| - 1]);
      assert forall c :: c in bio[..|bio| - 1] ==> c in bio;
      assert forall c :: c in bio ==> c in bio[..|bio| - 1] || c == b;
      if BioKey(b) == DemoKey(d) then rest + [BioTotal(b)] else rest
  }

  /** There is one hit per matching biometric row, duplicates included. */
  lemma {:induction false} HitsCount(d: DemoRow, bio: seq<BioRow>)
    ensures |Hits(d, bio)| == Count(bio, SameKey(d))
  {
    if bio != [] {
      var p := bio[..|bio| - 1];
      var b := bio[|bio| - 1];
      var one := if BioKey(b) == DemoKey(d) then 1 else 0;
      calc {
        |Hits(d, bio)|;
        { assert bio == p + [b]; }
        |Hits(d, p + [b])|;
        { HitsSnoc(d, p, b); }
        |Hits(d, p)| + one;
        { HitsCount(d, p); }
        Count(p, SameKey(d)) + one;
        { CountSnoc(p, b, SameKey(d)); }
        Count(p + [b], SameKey(d));
        { assert bio == p + [b]; }
        Count(bio, SameKey(d));
      }
    }
  }

  lemma HitsSnoc(d: DemoRow, p: seq<BioRow>, b: BioRow)
    ensures |Hits(d, p + [b])| == |Hits(d, p)| + if BioKey(b) == DemoKey(d) then 1 else 0
  {
    assert (p + [b])[..|p|] == p;
  }

  /** A biometric row that matches `d` on state, district and date. */
  function SameKey(d: DemoRow): BioRow -> bool {
    (b: BioRow) => BioKey(b) == DemoKey(d)
  }

  /** The rows a left join on state, district and date makes of one
      demographic row: one per matching biometric row, in order, or the row
      alone with a biometric total of 0 when none matches. */
  function JoinBio(d: DemoRow, bio: seq<BioRow>): seq<Update> {
    var hs := Hits(d, bio);
    if hs == [] then [Update(d.state, d.district, d.date, DemoTotal(d), 0)]
    else seq(|hs|, i requires 0 <= i < |hs| => Update(d.state, d.district, d.date, DemoTotal(d), hs[i]))
  }

  /** `demo.merge(bio, on=[...], how='left')`, then `fillna(0)`. */
  function Merge(demo: seq<DemoRow>, bio: seq<BioRow>): seq<Update> {
    if demo == [] then [] else Merge(demo[..|demo| - 1], bio) + JoinBio(demo[|demo| - 1], bio)
  }

  /** Where an update row came from: the key and demographic total of `d`. */
  predicate From(u: Update, d: DemoRow) {
    (u.state, u.district, u.date) == DemoKey(d) && u.demoTotal == DemoTotal(d)
  }

  predicate Matches(d: DemoRow, bio: seq<BioRow>) {
    exists b :: b in bio && BioKey(b) == DemoKey(d)
  }

  /** Every row the join makes of `d` carries its key and demographic total. */
  lemma JoinBioFrom(d: DemoRow, bio: seq<BioRow>)
    ensures JoinBio(d, bio) != []
    ensures forall u :: u in JoinBio(d, bio) ==> From(u, d)
  {}

  /** With no matching biometric row, the row stays alone with a
      biometric total of 0. */
  lemma JoinBioUnmatched(d: DemoRow, bio: seq<BioRow>)
    requires !Matches(d, bio)
    ensures JoinBio(d, bio) == [Update(d.state, d.district, d.date, DemoTotal(d), 0)]
  {
  }

  /** The rows the join makes of `d`, position by position. */
  lemma JoinBioAt(d: DemoRow, bio: seq<BioRow>)
    requires Hits(d, bio) != []
    ensures var us, hs := JoinBio(d, bio), Hits(d, bio);
            |us| == |hs| && forall i :: 0 <= i < |us| ==> Total(us[i]) == DemoTotal(d) + hs[i]
  {}

  /** The join makes one row per matching biometric row, duplicates
      included, and a single row when none matches. */
  lemma JoinBioCount(d: DemoRow, bio: seq<BioRow>)
    ensures |JoinBio(d, bio)| == if Count(bio, SameKey(d)) == 0 then 1 else Count(bio, SameKey(d))
  {
    HitsCount(d, bio);
  }

  /** With matches, `total_updates` is the demographic total plus the total
      of a matching biometric row. */
  lemma JoinBioMatched(d: DemoRow, bio: seq<BioRow>)
    requires Matches(d, bio)
    ensures forall u :: u in JoinBio(d, bio) ==>
              exists b :: b in bio && BioKey(b) == DemoKey(d) && Total(u) == DemoTotal(d) + BioTotal(b)
  {
    var hs := Hits(d, bio);
    var us := JoinBio(d, bio);
    var b0 :| b0 in bio && BioKey(b0) == DemoKey(d);
    assert BioTotal(b0) in hs;
    JoinBioAt(d, bio);
    forall u | u in us
      ensures exists b :: b in bio && BioKey(b) == DemoKey(d) && Total(u) == DemoTotal(d) + BioTotal(b)
    {
      var i :| 0 <= i < |us| && us[i] == u;
      HitFrom(d, bio, hs[i]);
    }
  }

  /** Every matching biometric row gives a row of its own. */
  lemma JoinBioEveryMatch(d: DemoRow, bio: seq<BioRow>, b: BioRow)
    requires b in bio && BioKey(b) == DemoKey(d)
    ensures exists u :: u in JoinBio(d, bio) && Total(u) == DemoTotal(d) + BioTotal(b)
  {
    var hs := Hits(d, bio);
    assert BioTotal(b) in hs;
    JoinBioAt(d, bio);
    var i :| 0 <= i < |hs| && hs[i] == BioTotal(b);
    assert JoinBio(d, bio)[i] in JoinBio(d, bio);
  }

  lemma HitFrom(d: DemoRow, bio: seq<BioRow>, h: int)
    requires h in Hits(d, bio)
    ensures exists b :: b in bio && BioKey(b) == DemoKey(d) && h == BioTotal(b)
  {}

  /** The left join keeps every demographic row: each gives at least one
      update row. */
  lemma {:induction false} MergeKeepsDemo(demo: seq<DemoRow>, bio: seq<BioRow>)
    ensures |Merge(demo, bio)| >= |demo|
    ensures forall d :: d in demo ==> exists u :: u in Merge(demo, bio) && From(u, d)
  {
    if demo != [] {
      var p, d := demo[..|demo| - 1], demo[|demo| - 1];
      MergeKeepsDemo(p, bio);
      JoinBioFrom(d, bio);
      var us := Merge(demo, bio);
      assert us == Merge(p, bio) + JoinBio(d, bio);
      forall e | e in demo ensures exists u :: u in us && From(u, e) {
        if e in p {
          var u :| u in Merge(p, bio) && From(u, e);
          assert u in us;
        } else {
          assert e == d;
          var u := JoinBio(d, bio)[0];
          assert u in us;
        }
      }
    }
  }

  /** Every update row comes from a demographic row. */
  lemma {:induction false} MergeFromDemo(demo: seq<DemoRow>, bio: seq<BioRow>)
    ensures forall u :: u in Merge(demo, bio) ==> exists d :: d in demo && From(u, d)
  {
    if demo != [] {
      var p, d := demo[..|demo| - 1], demo[|demo| - 1];
      MergeFromDemo(p, bio);
      JoinBioFrom(d, bio);
      var us := Merge(demo, bio);
      forall u | u in us ensures exists e :: e in demo && From(u, e) {
        if u in Merge(p, bio) {
          var e :| e in p && From(u, e);
          assert e in demo;
        } else {
          assert From(u, d);
        }
      }
    }
  }

  // ---------------------------------------------------------------- ordering

  function GroupOf(u: Update): (string, string) { (u.state, u.district) }

  /** `sort_values(['state', 'district', 'date'])`. */
  predicate UpdateLe(a: Update, b: Update) {
    PairLe(GroupOf(a), GroupOf(b)) && (GroupOf(a) == GroupOf(b) ==> a.date <= b.date)
  }

  lemma UpdateLeIsTotalPreorder()
    ensures TotalPreorder(UpdateLe)
  {
    PairLeIsTotalPreorder();
    forall a: Update, b: Update | UpdateLe(a, b) && UpdateLe(b, a) ensures GroupOf(a) == GroupOf(b) {
      PairLeAntisym(GroupOf(a), GroupOf(b));
    }
    forall a: Update, b: Update, c: Update | UpdateLe(a, b) && UpdateLe(b, c) ensures UpdateLe(a, c) {
      if GroupOf(a) == GroupOf(c) {
        PairLeAntisym(GroupOf(a), GroupOf(b));
      }
    }
  }

  /** The joined rows in state, district and date order. */
  function Ordered(demo: seq<DemoRow>, bio: seq<BioRow>): (us: seq<Update>)
    ensures multiset(us) == multiset(Merge(demo, bio))
  {
    Sort(Merge(demo, bio), UpdateLe)
  }

  lemma OrderedIsSorted(demo: seq<DemoRow>, bio: seq<BioRow>)
    ensures Sorted(Ordered(demo, bio), UpdateLe)
  {
    UpdateLeIsTotalPreorder();
    SortSorted(Merge(demo, bio), UpdateLe);
  }

  // ---------------------------------------------------------------- the rolling mean

  /** The positions before `n` of the rows of group `k`, ascending: the
      group `groupby(['state', 'district'])` hands to `rolling`. */
  function Earlier(rows: seq<Update>, k: (string, string), n: nat): (g: seq<nat>)
    requires n <= |rows|
    ensures forall a :: 0 <= a < |g| ==> g[a] < n
  {
    if n == 0 then []
    else Earlier(rows, k, n - 1) + if GroupOf(rows[n - 1]) == k then [n - 1] else []
  }

  /** Exactly the rows of the group, each once, ascending. */
  lemma EarlierMeans(rows: seq<Update>, k: (string, string), n: nat)
    requires n <= |rows|
    ensures var g := Earlier(rows, k, n);
            && (forall a :: 0 <= a < |g| ==> GroupOf(rows[g[a]]) == k)
            && (forall j :: 0 <= j < n && GroupOf(rows[j]) == k ==> j in g)
            && (forall a, b :: 0 <= a < b < |g| ==> g[a] < g[b])
  {
    EarlierInGroup(rows, k, n);
    EarlierComplete(rows, k, n);
    EarlierAscending(rows, k, n);
  }

  lemma {:induction false} EarlierInGroup(rows: seq<Update>, k: (string, string), n: nat)
    requires n <= |rows|
    ensures forall a :: 0 <= a < |Earlier(rows, k, n)| ==> GroupOf(rows[Earlier(rows, k, n)[a]]) == k
  {
    if n > 0 {
      EarlierInGroup(rows, k, n - 1);
    }
  }

  lemma {:induction false} EarlierComplete(rows: seq<Update>, k: (string, string), n: nat)
    requires n <= |rows|
    ensures forall j :: 0 <= j < n && GroupOf(rows[j]) == k ==> j in Earlier(rows, k, n)
  {
    if n > 0 {
      EarlierComplete(rows, k, n - 1);
    }
  }

  lemma {:induction false} EarlierAscending(rows: seq<Update>, k: (string, string), n: nat)
    requires n <= |rows|
    ensures forall a, b :: 0 <= a < b < |Earlier(rows, k, n)| ==> Earlier(rows, k, n)[a] < Earlier(rows, k, n)[b]
  {
    if n > 0 {
      EarlierAscending(rows, k, n - 1);
    }
  }

  /** `rolling(3, min_periods=1)`: the row and at most two rows before it
      in its group. */
  function Window(rows: seq<Update>, i: nat): (w: seq<nat>)
    requires i < |rows|
    ensures forall a :: 0 <= a < |w| ==> w[a] < |rows|
  {
    var g := Earlier(rows, GroupOf(rows[i]), i + 1);
    if |g| <= 3 then g else g[|g| - 3..]
  }

  function SumAt(rows: seq<Update>, w: seq<nat>): int
    requires forall a :: 0 <= a < |w| ==> w[a] < |rows|
  {
    if w == [] then 0 else SumAt(rows, w[..|w| - 1]) + Total(rows[w[|w| - 1]])
  }

  /** A mean, as its exact sum and count. */
  datatype Mean = Mean(sum: int, count: nat)

  /** `forecast_next_month` of row `i`. */
  function Forecast(rows: seq<Update>, i: nat): Mean
    requires i < |rows|
  {
    var w := Window(rows, i);
    Mean(SumAt(rows, w), |w|)
  }

  /** The number of rows of row `i`'s district up to and including it. */
  function Rank(rows: seq<Update>, i: nat): nat
    requires i < |rows|
  {
    |Earlier(rows, GroupOf(rows[i]), i + 1)|
  }

  lemma EarlierEndsAt(rows: seq<Update>, i: nat)
    requires i < |rows|
    ensures var g := Earlier(rows, GroupOf(rows[i]), i + 1);
            g == Earlier(rows, GroupOf(rows[i]), i) + [i]
  {}

  /** The window holds one to three positions, as many as the rows of the
      district so far allow, ends with the row itself and holds only rows of
      its district, ascending. */
  lemma WindowShape(rows: seq<Update>, i: nat)
    requires i < |rows|
    ensures var w := Window(rows, i);
            && 1 <= |w| <= 3
            && |w| == (if Rank(rows, i) < 3 then Rank(rows, i) else 3)
            && w[|w| - 1] == i
            && (forall a, b :: 0 <= a < b < |w| ==> w[a] < w[b])
            && (forall a :: 0 <= a < |w| ==> w[a] <= i && GroupOf(rows[w[a]]) == GroupOf(rows[i]))
  {
    var k := GroupOf(rows[i]);
    var g := Earlier(rows, k, i + 1);
    EarlierEndsAt(rows, i);
    EarlierInGroup(rows, k, i + 1);
    EarlierAscending(rows, k, i + 1);
    var w := Window(rows, i);
    var s := if |g| <= 3 then 0 else |g| - 3;
    assert w == g[s..];
    SuffixShape(g, s);
  }

  /** A suffix of an ascending list is ascending, and its positions are
      positions of the list. */
  lemma SuffixShape(g: seq<nat>, s: nat)
    requires s <= |g|
    requires forall a, b :: 0 <= a < b < |g| ==> g[a] < g[b]
    ensures forall a, b :: 0 <= a < b < |g| - s ==> g[s..][a] < g[s..][b]
    ensures forall a :: 0 <= a < |g| - s ==> g[s..][a] == g[s + a]
  {}

  /** The window skips no row of the district between its first position
      and the row. */
  lemma WindowIsComplete(rows: seq<Update>, i: nat)
    requires i < |rows|
    ensures var w := Window(rows, i);
            forall j :: w[0] <= j <= i && GroupOf(rows[j]) == GroupOf(rows[i]) ==> j in w
  {
    var k := GroupOf(rows[i]);
    var g := Earlier(rows, k, i + 1);
    EarlierEndsAt(rows, i);
    EarlierMeans(rows, k, i + 1);
    var s := if |g| <= 3 then 0 else |g| - 3;
    assert Window(rows, i) == g[s..];
    forall j | g[s] <= j <= i && GroupOf(rows[j]) == k ensures j in g[s..] {
      SuffixHolds(g, s, j);
    }
  }

  /** In an ascending list, a member no smaller than position `s` lies at
      or after it. */
  lemma SuffixHolds(g: seq<nat>, s: nat, j: nat)
    requires s < |g| && j in g && g[s] <= j
    requires forall a, b :: 0 <= a < b < |g| ==> g[a] < g[b]
    ensures j in g[s..]
  {
    var p :| 0 <= p < |g| && g[p] == j;
    Ascending(g, p, s);
    assert g[s..][p - s] == j;
  }

  /** Each district's first row is forecast as its own total. */
  lemma FirstRowOwnTotal(rows: seq<Update>, i: nat)
    requires i < |rows|
    requires forall j :: 0 <= j < i ==> GroupOf(rows[j]) != GroupOf(rows[i])
    ensures Forecast(rows, i) == Mean(Total(rows[i]), 1)
  {
    var k := GroupOf(rows[i]);
    NoneEarlier(rows, k, i);
    EarlierEndsAt(rows, i);
    assert Window(rows, i) == [i];
    assert [i][..0] == [];
    assert SumAt(rows, [i]) == Total(rows[i]);
  }

  lemma {:induction false} NoneEarlier(rows: seq<Update>, k: (string, string), n: nat)
    requires n <= |rows|
    requires forall j :: 0 <= j < n ==> GroupOf(rows[j]) != k
    ensures Earlier(rows, k, n) == []
  {
    if n > 0 {
      NoneEarlier(rows, k, n - 1);
    }
  }

  lemma {:induction false} SumAtBounds(rows: seq<Update>, w: seq<nat>, lo: int, hi: int)
    requires forall a :: 0 <= a < |w| ==> w[a] < |rows| && lo <= Total(rows[w[a]]) <= hi
    ensures lo * |w| <= SumAt(rows, w) <= hi * |w|
  {
    if w != [] {
      SumAtBounds(rows, w[..|w| - 1], lo, hi);
    }
  }

  /** The forecast lies between the least and the greatest total of its
      window. */
  lemma ForecastBounds(rows: seq<Update>, i: nat, lo: int, hi: int)
    requires i < |rows|
    requires forall a :: 0 <= a < |Window(rows, i)| ==> lo <= Total(rows[Window(rows, i)[a]]) <= hi
    ensures var f := Forecast(rows, i);
            f.count > 0 && lo * f.count <= f.sum <= hi * f.count
  {
    WindowShape(rows, i);
    SumAtBounds(rows, Window(rows, i), lo, hi);
  }

  /** In rows ordered by state, district and date, a row between two rows
      of a district belongs to it, and its date lies between theirs. */
  lemma SortedGroupsAreRuns(rows: seq<Update>, j: nat, m: nat, i: nat)
    requires Sorted(rows, UpdateLe)
    requires j <= m <= i < |rows| && GroupOf(rows[j]) == GroupOf(rows[i])
    ensures GroupOf(rows[m]) == GroupOf(rows[i]) && rows[j].date <= rows[m].date <= rows[i].date
  {
    if j < m < i {
      assert UpdateLe(rows[j], rows[m]) && UpdateLe(rows[m], rows[i]);
      PairLeAntisym(GroupOf(rows[j]), GroupOf(rows[m]));
    } else if j < m {
      assert UpdateLe(rows[j], rows[m]);
    } else if m < i {
      assert UpdateLe(rows[m], rows[i]);
    }
  }

  /** In rows ordered by state, district and date, a window is the row and
      the rows just before it, none of them later in date. */
  lemma WindowIsRun(rows: seq<Update>, i: nat)
    requires Sorted(rows, UpdateLe) && i < |rows|
    ensures var w := Window(rows, i);
            && |w| <= i + 1
            && (forall a :: 0 <= a < |w| ==> w[a] == i - |w| + 1 + a)
            && (forall a :: 0 <= a < |w| ==> rows[w[a]].date <= rows[i].date)
  {
    var w := Window(rows, i);
    WindowShape(rows, i);
    WindowIsComplete(rows, i);
    forall j | w[0] <= j <= i ensures j in w {
      SortedGroupsAreRuns(rows, w[0], j, i);
    }
    forall a | 0 <= a < |w| ensures rows[w[a]].date <= rows[i].date {
      SortedGroupsAreRuns(rows, w[a], w[a], i);
    }
    RunOfAscending(w, i);
  }

  /** The sum of the totals of the rows at positions `lo` to `hi - 1`. */
  function SumRange(rows: seq<Update>, lo: nat, hi: nat): int
    requires lo <= hi <= |rows|
    decreases hi - lo
  {
    if lo == hi then 0 else SumRange(rows, lo, hi - 1) + Total(rows[hi - 1])
  }

  lemma {:induction false} SumAtRun(rows: seq<Update>, w: seq<nat>, lo: nat)
    requires lo + |w| <= |rows|
    requires forall a :: 0 <= a < |w| ==> w[a] == lo + a
    ensures SumAt(rows, w) == SumRange(rows, lo, lo + |w|)
  {
    if w != [] {
      SumAtRun(rows, w[..|w| - 1], lo);
    }
  }

  /** In rows ordered by state, district and date, the forecast of row `i`
      is the mean of the totals of the `c` consecutive rows ending at `i`,
      where `c` is 3, or fewer only at the start of the district; those rows
      are all of its district and none is later in date. */
  lemma RollingMean(rows: seq<Update>, i: nat)
    requires Sorted(rows, UpdateLe) && i < |rows|
    ensures var f := Forecast(rows, i);
            var c := f.count;
            && 1 <= c <= 3 && c <= i + 1
            && f.sum == SumRange(rows, i + 1 - c, i + 1)
            && (forall j :: i + 1 - c <= j <= i ==> GroupOf(rows[j]) == GroupOf(rows[i]) && rows[j].date <= rows[i].date)
            && (c < 3 ==> forall j :: 0 <= j < i + 1 - c ==> GroupOf(rows[j]) != GroupOf(rows[i]))
  {
    RollingSum(rows, i);
    RollingRows(rows, i);
    ShortWindowStartsDistrict(rows, i);
  }

  lemma RollingSum(rows: seq<Update>, i: nat)
    requires Sorted(rows, UpdateLe) && i < |rows|
    ensures var f := Forecast(rows, i);
            && 1 <= f.count <= 3 && f.count <= i + 1
            && f.sum == SumRange(rows, i + 1 - f.count, i + 1)
  {
    var w := Window(rows, i);
    assert 1 <= |w| <= 3 by {
      WindowShape(rows, i);
    }
    assert |w| <= i + 1 && forall a :: 0 <= a < |w| ==> w[a] == i + 1 - |w| + a by {
      WindowIsRun(rows, i);
    }
    SumAtRun(rows, w, i + 1 - |w|);
    assert Forecast(rows, i) == Mean(SumAt(rows, w), |w|);
  }

  lemma RollingRows(rows: seq<Update>, i: nat)
    requires Sorted(rows, UpdateLe) && i < |rows|
    ensures var c := Forecast(rows, i).count;
            && c <= i + 1
            && forall j :: i + 1 - c <= j <= i ==> GroupOf(rows[j]) == GroupOf(rows[i]) && rows[j].date <= rows[i].date
  {
    var w := Window(rows, i);
    assert |w| <= i + 1 && forall a :: 0 <= a < |w| ==> w[a] == i + 1 - |w| + a by {
      WindowIsRun(rows, i);
    }
    assert forall a :: 0 <= a < |w| ==> GroupOf(rows[w[a]]) == GroupOf(rows[i]) && rows[w[a]].date <= rows[i].date by {
      WindowShape(rows, i);
      WindowIsRun(rows, i);
    }
    forall j | i + 1 - |w| <= j <= i ensures GroupOf(rows[j]) == GroupOf(rows[i]) && rows[j].date <= rows[i].date {
      assert w[j - (i + 1 - |w|)] == j;
    }
  }

  lemma ShortWindowStartsDistrict(rows: seq<Update>, i: nat)
    requires Sorted(rows, UpdateLe) && i < |rows|
    ensures var c := Forecast(rows, i).count;
            c < 3 ==> forall j :: 0 <= j < i + 1 - c ==> GroupOf(rows[j]) != GroupOf(rows[i])
  {
    var w := Window(rows, i);
    if |w| < 3 {
      WindowIsRun(rows, i);
      EarlierMeans(rows, GroupOf(rows[i]), i + 1);
      assert w == Earlier(rows, GroupOf(rows[i]), i + 1);
    }
  }

  // ---------------------------------------------------------------- level and action

  const LowDemand: string := "Low Demand"
  const MediumDemand: string := "Medium Demand"
  const HighDemand: string := "High Demand"

  /** `np.select` over `< 500`, `between(500, 2000)` (both ends included)
      and `> 2000`, the first that holds, with "Low Demand" for a mean that
      is not a number (no rows). */
  function LevelOf(f: Mean): string {
    if f.count > 0 && f.sum < 500 * f.count then LowDemand
    else if f.count > 0 && 500 * f.count <= f.sum <= 2000 * f.count then MediumDemand
    else if f.count > 0 && f.sum > 2000 * f.count then HighDemand
    else LowDemand
  }

  /** For a mean of at least one row the three conditions are exclusive and
      exhaustive, and the label is the one whose condition holds. */
  lemma LevelMeans(f: Mean)
    requires f.count > 0
    ensures var low, mid, high := f.sum < 500 * f.count, 500 * f.count <= f.sum <= 2000 * f.count, f.sum > 2000 * f.count;
            (low || mid || high) && !(low && mid) && !(low && high) && !(mid && high)
    ensures LevelOf(f) == LowDemand <==> f.sum < 500 * f.count
    ensures LevelOf(f) == MediumDemand <==> 500 * f.count <= f.sum <= 2000 * f.count
    ensures LevelOf(f) == HighDemand <==> f.sum > 2000 * f.count
  {}

  function LevelRank(level: string): nat {
    if level == HighDemand then 2 else if level == MediumDemand then 1 else 0
  }

  /** A larger mean never gets a lower label. */
  lemma LevelMonotone(f: Mean, g: Mean)
    requires f.count > 0 && g.count > 0
    requires f.sum * g.count <= g.sum * f.count
    ensures LevelRank(LevelOf(f)) <= LevelRank(LevelOf(g))
  {
    LevelMeans(f);
    LevelMeans(g);
    AboveScales(f, g, 500);
    AboveScales(f, g, 2000);
  }

  /** If `f <= g` as means and `f` is at least `t` (or above it), so is `g`. */
  lemma AboveScales(f: Mean, g: Mean, t: int)
    requires f.count > 0 && g.count > 0
    requires f.sum * g.count <= g.sum * f.count
    ensures f.sum >= t * f.count ==> g.sum >= t * g.count
    ensures f.sum > t * f.count ==> g.sum > t * g.count
  {
    if f.sum >= t * f.count {
      assert f.sum * g.count >= t * f.count * g.count;
      assert g.sum * f.count >= (t * g.count) * f.count;
      ScaleBack(g.sum, t * g.count, f.count);
    }
    if f.sum > t * f.count {
      assert f.sum * g.count > t * f.count * g.count;
      assert g.sum * f.count > (t * g.count) * f.count;
      ScaleBack(g.sum, t * g.count, f.count);
    }
  }

  lemma ScaleBack(a: int, b: int, c: int)
    requires c > 0
    ensures a * c >= b * c ==> a >= b
    ensures a * c > b * c ==> a > b
  {
    if a < b {
      assert (b - a) * c > 0;
    }
    if a <= b {
      assert (b - a) * c >= 0;
    }
  }

  /** `recommend_action`. */
  function RecommendAction(level: string): string {
    if level == HighDemand then "Deploy mobile Aadhaar van / add staff"
    else if level == MediumDemand then "Extend working hours"
    else "No action required"
  }

  /** The action follows the mean: staff above 2000, longer hours from 500
      to 2000, nothing below 500. */
  lemma ActionMeans(f: Mean)
    requires f.count > 0
    ensures RecommendAction(LevelOf(f)) == "Deploy mobile Aadhaar van / add staff" <==> f.sum > 2000 * f.count
    ensures RecommendAction(LevelOf(f)) == "Extend working hours" <==> 500 * f.count <= f.sum <= 2000 * f.count
    ensures RecommendAction(LevelOf(f)) == "No action required" <==> f.sum < 500 * f.count
  {
    LevelMeans(f);
  }

  // ---------------------------------------------------------------- the output

  /** A row of `demand_forecast_actions.csv`. */
  datatype ForecastRow = ForecastRow(state: string, district: string, date: int,
                                     forecast: Mean, level: string, action: string)

  function RowAt(rows: seq<Update>, i: nat): ForecastRow
    requires i < |rows|
  {
    var f := Forecast(rows, i);
    ForecastRow(rows[i].state, rows[i].district, rows[i].date, f, LevelOf(f), RecommendAction(LevelOf(f)))
  }

  /** The whole script, from the two monthly tables to the forecast table. */
  function ForecastTable(demo: seq<DemoRow>, bio: seq<BioRow>): (out: seq<ForecastRow>)
    ensures |out| == |Merge(demo, bio)|
  {
    var rows := Ordered(demo, bio);
    seq(|rows|, i requires 0 <= i < |rows| => RowAt(rows, i))
  }

  /** A row of the table: its forecast is the mean of its own total and
      the totals of the (up to two) rows of its district just before it,
      fewer only at the start of the district, and its label and action are
      the ones that mean calls for. */
  lemma RowAtMeans(rows: seq<Update>, i: nat)
    requires Sorted(rows, UpdateLe) && i < |rows|
    ensures var r := RowAt(rows, i);
            var f := r.forecast;
            && (r.state, r.district, r.date) == (rows[i].state, rows[i].district, rows[i].date)
            && 1 <= f.count <= 3 && f.count <= i + 1
            && f.sum == SumRange(rows, i + 1 - f.count, i + 1)
            && (forall j :: i + 1 - f.count <= j <= i ==> GroupOf(rows[j]) == GroupOf(rows[i]))
            && (f.count < 3 ==> forall j :: 0 <= j < i + 1 - f.count ==> GroupOf(rows[j]) != GroupOf(rows[i]))
            && (r.level == HighDemand <==> f.sum > 2000 * f.count)
            && (r.level == MediumDemand <==> 500 * f.count <= f.sum <= 2000 * f.count)
            && (r.level == LowDemand <==> f.sum < 500 * f.count)
            && r.action == RecommendAction(r.level)
  {
    RollingMean(rows, i);
    LevelMeans(Forecast(rows, i));
  }

  /** The forecast table has a row for every joined row, in state, district
      and date order, each as described by `RowAtMeans`. */
  lemma ForecastTableMeans(demo: seq<DemoRow>, bio: seq<BioRow>)
    ensures var rows, out := Ordered(demo, bio), ForecastTable(demo, bio);
            && Sorted(rows, UpdateLe)
            && multiset(rows) == multiset(Merge(demo, bio))
            && |out| == |rows|
            && forall i :: 0 <= i < |out| ==> out[i] == RowAt(rows, i)
  {
    OrderedIsSorted(demo, bio);
  }

  /** An ascending list of positions that ends at `i` and contains every
      position from its first to `i` is that range. */
  lemma RunOfAscending(w: seq<nat>, i: nat)
    requires w != [] && w[|w| - 1] == i
    requires forall a, b :: 0 <= a < b < |w| ==> w[a] < w[b]
    requires forall j :: w[0] <= j <= i ==> j in w
    ensures |w| <= i + 1
    ensures forall a :: 0 <= a < |w| ==> w[a] == i - |w| + 1 + a
  {
    forall a | 0 <= a < |w| ensures w[a] == w[0] + a {
      Consecutive(w, i, a);
    }
  }

  lemma {:induction false} Consecutive(w: seq<nat>, i: nat, a: nat)
    requires a < |w| && w[|w| - 1] == i
    requires forall x, y :: 0 <= x < y < |w| ==> w[x] < w[y]
    requires forall j :: w[0] <= j <= i ==> j in w
    ensures w[a] == w[0] + a
  {
    if a > 0 {
      Consecutive(w, i, a - 1);
      var v := w[a - 1] + 1;
      StrictGaps(w, a - 1, a);
      StrictGaps(w, a, |w| - 1);
      assert v in w;
      var b :| 0 <= b < |w| && w[b] == v;
      Ascending(w, b, a - 1);
      Ascending(w, a, b);
    }
  }

  lemma {:induction false} StrictGaps(w: seq<nat>, a: nat, b: nat)
    requires a <= b < |w|
    requires forall x, y :: 0 <= x < y < |w| ==> w[x] < w[y]
    ensures w[a] + (b - a) <= w[b]
    decreases b - a
  {
    if a < b {
      StrictGaps(w, a + 1, b);
    }
  }

  /** In a strictly ascending list, positions and values are in the same order. */
  lemma Ascending(w: seq<nat>, x: nat, y: nat)
    requires x < |w| && y < |w|
    requires forall p, q :: 0 <= p < q < |w| ==> w[p] < w[q]
    ensures w[x] < w[y] <==> x < y
  {}
}
