/** The demand map: per-state counters built from the raw rows, the state's
    demand level from the average score, the fill colour and the tooltip. */
module IndiaDemandMap {
  import opened Wrappers
  import opened Seqs
  import opened Records

  /** One entry of `stateStats`. */
  datatype Stats = Stats(total: nat, high: nat, medium: nat, low: nat, score: nat)

  const Zero: Stats := Stats(0, 0, 0, 0, 0)

  /** The counters agree with each other: every row counted once, with
      weight 3, 2 or 1. */
  predicate Consistent(s: Stats) {
    s.total == s.high + s.medium + s.low && s.score == 3 * s.high + 2 * s.medium + s.low
  }

  /** One row's contribution: "High Demand" weighs 3, "Medium Demand" 2 and
      any other label, or none, 1. */
  function Tally(s: Stats, demand: Option<string>): Stats {
    if demand == Some("High Demand") then s.(total := s.total + 1, high := s.high + 1, score := s.score + 3)
    else if demand == Some("Medium Demand") then s.(total := s.total + 1, medium := s.medium + 1, score := s.score + 2)
    else s.(total := s.total + 1, low := s.low + 1, score := s.score + 1)
  }

  /** Counting a row keeps the counters consistent and adds exactly one to
      the total. */
  lemma TallyConsistent(s: Stats, demand: Option<string>)
    requires Consistent(s)
    ensures Consistent(Tally(s, demand)) && Tally(s, demand).total == s.total + 1
  {}

  /** A row takes part when its raw state is present and non-empty. */
  predicate Counted(row: DistrictRow) {
    row.state.Some? && row.state.value != ""
  }

  function StatsOf(stats: map<string, Stats>, st: string): Stats {
    if st in stats then stats[st] else Zero
  }

  /** One iteration of the `forEach`: rows without a state are skipped,
      a state seen for the first time starts from zero counters. */
  function Add(stats: map<string, Stats>, row: DistrictRow): map<string, Stats> {
    if !Counted(row) then stats
    else stats[row.state.value := Tally(StatsOf(stats, row.state.value), row.demand)]
  }

  /** `stateStats` after the `forEach` has run over `data`, keyed by the raw
      state string. */
  function Aggregate(data: seq<DistrictRow>): map<string, Stats> {
    if data == [] then map[]
    else Add(Aggregate(data[..|data| - 1]), data[|data| - 1])
  }

  lemma AggregateSnoc(data: seq<DistrictRow>, i: nat)
    requires i < |data|
    ensures Aggregate(data[..i + 1]) == Add(Aggregate(data[..i]), data[i])
  {
    assert data[..i + 1][..i] == data[..i];
  }

  /** The `forEach` callback: updates the counters of the row's state. */
  method AddRow(stats0: map<string, Stats>, row: DistrictRow) returns (stats: map<string, Stats>)
    ensures stats == Add(stats0, row)
  {
    stats := stats0;
    if row.state.Some? && row.state.value != "" {
      var st := row.state.value;
      // a state seen for the first time starts from zero counters
      var s := if st in stats then stats[st] else Zero;
      if row.demand == Some("High Demand") {
        s := s.(total := s.total + 1, high := s.high + 1, score := s.score + 3);
      } else if row.demand == Some("Medium Demand") {
        s := s.(total := s.total + 1, medium := s.medium + 1, score := s.score + 2);
      } else {
        s := s.(total := s.total + 1, low := s.low + 1, score := s.score + 1);
      }
      stats := stats[st := s];
    }
  }

  /** The aggregation loop of the component. */
  method AggregateStates(data: seq<DistrictRow>) returns (stats: map<string, Stats>)
    ensures stats == Aggregate(data)
  {
    stats := map[];
    var i := 0;
    while i < |data|
      invariant i <= |data|
      invariant stats == Aggregate(data[..i])
    {
      AggregateSnoc(data, i);
      stats := AddRow(stats, data[i]);
      i := i + 1;
    }
    assert data[..i] == data;
  }

  // ---------------------------------------------------------------- what the counters count

  function InState(st: string): DistrictRow -> bool {
    (row: DistrictRow) => row.state == Some(st)
  }

  function InStateWith(st: string, tag: string): DistrictRow -> bool {
    (row: DistrictRow) => row.state == Some(st) && row.demand == Some(tag)
  }

  function InStateOther(st: string): DistrictRow -> bool {
    (row: DistrictRow) => row.state == Some(st) && row.demand != Some("High Demand") && row.demand != Some("Medium Demand")
  }

  lemma CountOne(x: DistrictRow, keep: DistrictRow -> bool)
    ensures Count([x], keep) == if keep(x) then 1 else 0
  {
    CountCons([x], keep);
    assert [x][1..] == [];
  }

  /** Counting over `p + [x]`. */
  lemma CountSnoc(p: seq<DistrictRow>, x: DistrictRow, keep: DistrictRow -> bool)
    ensures Count(p + [x], keep) == Count(p, keep) + if keep(x) then 1 else 0
  {
    CountAppend(p, [x], keep);
    CountOne(x, keep);
  }

  /** One row moves only its own state's counters, by one, on the counter
      its label selects. */
  lemma AddCounters(m: map<string, Stats>, row: DistrictRow, st: string)
    requires st != ""
    ensures var a := StatsOf(m, st);
            var b := StatsOf(Add(m, row), st);
            var mine := row.state == Some(st);
            && b.total == a.total + (if mine then 1 else 0)
            && b.high == a.high + (if InStateWith(st, "High Demand")(row) then 1 else 0)
            && b.medium == a.medium + (if InStateWith(st, "Medium Demand")(row) then 1 else 0)
            && b.low == a.low + (if InStateOther(st)(row) then 1 else 0)
  {}

  /** Each counter of a state counts the rows with exactly that raw state and
      that label; every other label counts as low. No normalisation and no
      de-duplication happens, so repeated rows all count. */
  lemma {:induction false} AggregateCounts(data: seq<DistrictRow>, st: string)
    requires st != ""
    ensures var s := StatsOf(Aggregate(data), st);
            && s.total == Count(data, InState(st))
            && s.high == Count(data, InStateWith(st, "High Demand"))
            && s.medium == Count(data, InStateWith(st, "Medium Demand"))
            && s.low == Count(data, InStateOther(st))
  {
    if data == [] {
      assert StatsOf(Aggregate(data), st) == Zero;
    } else {
      var p := data[..|data| - 1];
      var x := data[|data| - 1];
      assert data == p + [x];
      AggregateCounts(p, st);
      AddCounters(Aggregate(p), x, st);
      CountSnoc(p, x, InState(st));
      CountSnoc(p, x, InStateWith(st, "High Demand"));
      CountSnoc(p, x, InStateWith(st, "Medium Demand"));
      CountSnoc(p, x, InStateOther(st));
    }
  }

  /** The entries of a map of counters are named, consistent and non-empty. */
  ghost predicate WellFormed(m: map<string, Stats>) {
    forall st :: st in m ==> st != "" && Consistent(m[st]) && m[st].total > 0
  }

  lemma AddWellFormed(m: map<string, Stats>, row: DistrictRow)
    requires WellFormed(m)
    ensures WellFormed(Add(m, row))
  {
    var n := Add(m, row);
    forall st | st in n ensures st != "" && Consistent(n[st]) && n[st].total > 0 {
      AddEntry(m, row, st);
    }
  }

  lemma AddEntry(m: map<string, Stats>, row: DistrictRow, st: string)
    requires WellFormed(m) && st in Add(m, row)
    ensures st != "" && Consistent(Add(m, row)[st]) && Add(m, row)[st].total > 0
  {
    if Counted(row) && st == row.state.value {
      TallyConsistent(StatsOf(m, st), row.demand);
    } else {
      assert Add(m, row)[st] == m[st];
    }
  }

  lemma AddKeys(m: map<string, Stats>, row: DistrictRow)
    ensures forall st :: st in Add(m, row) <==> st in m || (Counted(row) && st == row.state.value)
  {}

  /** A state has an entry exactly when some row carries it, and every entry
      is consistent and non-empty. */
  lemma AggregateEntries(data: seq<DistrictRow>)
    ensures WellFormed(Aggregate(data))
    ensures forall st :: st != "" ==> (st in Aggregate(data) <==> exists i :: 0 <= i < |data| && data[i].state == Some(st))
  {
    AggregateWellFormed(data);
    forall st | st != ""
      ensures st in Aggregate(data) <==> exists i :: 0 <= i < |data| && data[i].state == Some(st)
    {
      AggregateHasState(data, st);
    }
  }

  lemma {:induction false} AggregateWellFormed(data: seq<DistrictRow>)
    ensures WellFormed(Aggregate(data))
  {
    if data != [] {
      AggregateWellFormed(data[..|data| - 1]);
      AddWellFormed(Aggregate(data[..|data| - 1]), data[|data| - 1]);
    }
  }

  lemma {:induction false} AggregateHasState(data: seq<DistrictRow>, st: string)
    requires st != ""
    ensures st in Aggregate(data) <==> exists i :: 0 <= i < |data| && data[i].state == Some(st)
  {
    if data != [] {
      var p := data[..|data| - 1];
      var x := data[|data| - 1];
      AggregateHasState(p, st);
      AddKeys(Aggregate(p), x);
      if st in Aggregate(p) {
        var i :| 0 <= i < |p| && p[i].state == Some(st);
        assert data[i] == p[i];
      }
      if exists i :: 0 <= i < |data| && data[i].state == Some(st) {
        var i :| 0 <= i < |data| && data[i].state == Some(st);
        if i < |p| {
          assert p[i] == data[i];
        }
      }
    }
  }

  /** total = high + medium + low and score = 3·high + 2·medium + low, so
      total ≤ score ≤ 3·total: the average of a state with data lies in [1, 3]. */
  lemma ScoreBounds(s: Stats)
    requires Consistent(s)
    ensures s.total <= s.score <= 3 * s.total
  {}

  // ---------------------------------------------------------------- demand level and colour

  /** `getStateDemandLevel`: no entry gives "Low Demand"; otherwise the
      average `score / total` is compared with 2.3 and 1.6, written as
      `10·score > 23·total` and `10·score > 16·total`. */
  function StateDemandLevel(stats: map<string, Stats>, name: string): string {
    if name !in stats then "Low Demand"
    else
      var s := stats[name];
      if 10 * s.score > 23 * s.total then "High Demand"
      else if 10 * s.score > 16 * s.total then "Medium Demand"
      else "Low Demand"
  }

  function LevelRank(level: string): nat {
    if level == "High Demand" then 2 else if level == "Medium Demand" then 1 else 0
  }

  /** The three levels partition the averages: above 2.3, in (1.6, 2.3], and
      at most 1.6 (or no data). */
  lemma LevelThresholds(stats: map<string, Stats>, name: string)
    ensures var l := StateDemandLevel(stats, name);
            && (l == "High Demand" <==> name in stats && 10 * stats[name].score > 23 * stats[name].total)
            && (l == "Medium Demand" <==> name in stats && 16 * stats[name].total < 10 * stats[name].score <= 23 * stats[name].total)
            && (l == "Low Demand" <==> name !in stats || 10 * stats[name].score <= 16 * stats[name].total)
  {}

  /** A state whose average is at least another's gets at least its level. */
  lemma LevelMonotone(stats: map<string, Stats>, a: string, b: string)
    requires a in stats && b in stats && stats[a].total > 0 && stats[b].total > 0
    requires stats[a].score * stats[b].total <= stats[b].score * stats[a].total
    ensures LevelRank(StateDemandLevel(stats, a)) <= LevelRank(StateDemandLevel(stats, b))
  {
    var sa := stats[a];
    var sb := stats[b];
    if 10 * sa.score > 23 * sa.total {
      AverageAbove(sa, sb, 23);
    } else if 10 * sa.score > 16 * sa.total {
      AverageAbove(sa, sb, 16);
    }
  }

  /** If `a`'s average exceeds c/10 and `b`'s average is at least `a`'s, so
      does `b`'s. */
  lemma AverageAbove(sa: Stats, sb: Stats, c: nat)
    requires sa.total > 0 && sb.total > 0
    requires sa.score * sb.total <= sb.score * sa.total
    requires 10 * sa.score > c * sa.total
    ensures 10 * sb.score > c * sb.total
  {
    assert 10 * sa.score * sb.total > c * sa.total * sb.total by {
      MulStrict(10 * sa.score, c * sa.total, sb.total);
    }
    assert 10 * sb.score * sa.total >= 10 * sa.score * sb.total;
    assert 10 * sb.score * sa.total > c * sb.total * sa.total;
    if 10 * sb.score <= c * sb.total {
      MulMono(10 * sb.score, c * sb.total, sa.total);
      assert false;
    }
  }

  lemma {:induction false} MulStrict(x: int, y: int, k: nat)
    requires x > y && k > 0
    ensures x * k > y * k
  {
    if k > 1 {
      MulStrict(x, y, k - 1);
      assert x * k == x * (k - 1) + x && y * k == y * (k - 1) + y;
    }
  }

  lemma MulMono(x: int, y: int, k: nat)
    requires x <= y
    ensures x * k <= y * k
  {}

  /** A state whose rows carry only unrecognised labels averages exactly 1
      and is "Low Demand". */
  lemma OnlyOtherLabelsIsLow(stats: map<string, Stats>, name: string)
    requires name in stats && Consistent(stats[name]) && stats[name].high == 0 && stats[name].medium == 0
    ensures stats[name].score == stats[name].total
    ensures StateDemandLevel(stats, name) == "Low Demand"
  {}

  /** `getColor`: red for high demand, yellow for medium, green otherwise. */
  function Color(level: string): (c: string)
    ensures c == "#dc2626" <==> level == "High Demand"
    ensures c == "#facc15" <==> level == "Medium Demand"
    ensures c == "#16a34a" <==> level != "High Demand" && level != "Medium Demand"
  {
    if level == "High Demand" then "#dc2626"
    else if level == "Medium Demand" then "#facc15"
    else "#16a34a"
  }

  /** What the tooltip shows for a state. */
  datatype Tooltip = Tooltip(name: string, level: string, total: nat, high: nat, medium: nat, low: nat)

  /** The tooltip names the state, shows `getStateDemandLevel` for it, and
      reads its counters as `stats?.total || 0` and the like, so a state
      without data shows zeros. */
  function StateTooltip(stats: map<string, Stats>, name: string): (t: Tooltip)
    ensures t.name == name && t.level == StateDemandLevel(stats, name)
    ensures name !in stats ==> t == Tooltip(name, "Low Demand", 0, 0, 0, 0)
    ensures name in stats ==> t.total == stats[name].total && t.high == stats[name].high
                              && t.medium == stats[name].medium && t.low == stats[name].low
  {
    var s := StatsOf(stats, name);
    Tooltip(name, StateDemandLevel(stats, name), s.total, s.high, s.medium, s.low)
  }

  /** The tooltip of a map built from rows adds up: its three counts sum to
      its total, which is the number of rows carrying that state. */
  lemma TooltipAddsUp(data: seq<DistrictRow>, name: string)
    requires name != ""
    ensures var t := StateTooltip(Aggregate(data), name);
            t.high + t.medium + t.low == t.total == Count(data, InState(name))
  {
    AggregateEntries(data);
    AggregateCounts(data, name);
    TooltipOfWellFormed(Aggregate(data), name);
  }

  /** The level the tooltip prints is the one its own counts give: the
      weighted average (3·high + 2·medium + low) / total above 2.3 is High,
      above 1.6 Medium, and anything else, or no rows at all, Low. */
  lemma TooltipLevelFromCounts(data: seq<DistrictRow>, name: string)
    ensures var t := StateTooltip(Aggregate(data), name);
            var w := 3 * t.high + 2 * t.medium + t.low;
            && (t.level == "High Demand" <==> t.total > 0 && 10 * w > 23 * t.total)
            && (t.level == "Medium Demand" <==> t.total > 0 && 16 * t.total < 10 * w <= 23 * t.total)
            && (t.level == "Low Demand" <==> t.total == 0 || 10 * w <= 16 * t.total)
  {
    AggregateEntries(data);
    var m := Aggregate(data);
    LevelThresholds(m, name);
    if name in m {
      assert Consistent(m[name]);
    }
  }

  lemma TooltipOfWellFormed(m: map<string, Stats>, name: string)
    requires WellFormed(m)
    ensures var t := StateTooltip(m, name);
            t.high + t.medium + t.low == t.total == StatsOf(m, name).total
  {
    if name in m {
      assert Consistent(m[name]);
    }
  }
}
