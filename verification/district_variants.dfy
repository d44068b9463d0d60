/** The report of district names spelled more than one way within a state
    (`scripts/report_district_variants.py`): rows are grouped by their
    normalised state and district, each group collects the distinct raw
    district cells, and the groups with more than one are listed in key
    order, at most 200 of them, each with its spellings sorted. */
module DistrictVariants {
  import opened Wrappers
  import opened Text
  import opened Seqs
  import StateLookup
  import opened DistrictCanonical

  // ---------------------------------------------------------------- grouping keys

  /** This script's `norm_district`: the words of the scrubbed, lower-cased
      cell; a missing cell has none. */
  function DistrictWords(d: Option<string>): seq<string> {
    match d
    case None => []
    case Some(v) => Words(Scrub(Lower(v)))
  }

  type Key = (string, string)

  /** `(st, ' '.join(dt_words))`, or nothing when `not st or not dt_words`. */
  function KeyOf(row: DashboardRow): Option<Key> {
    var st := NormState(row.state);
    var ws := DistrictWords(row.district);
    if st == "" || ws == [] then None else Some((st, JoinSpace(ws)))
  }

  /** `str(r.get('district', ''))`: the cell as written, whitespace and all. */
  function Shown(row: DashboardRow): string {
    match row.district
    case None => "nan"
    case Some(v) => v
  }

  lemma JoinSpaceNonEmpty(ws: seq<string>)
    requires ws != [] && IsToken(ws[0])
    ensures JoinSpace(ws) != ""
  {}

  /** The grouping key is the pair of keys the canonical-spelling script
      counts under, and a row is grouped exactly when that script counts it. */
  lemma KeyOfMeans(row: DashboardRow)
    ensures var st, dk := NormState(row.state), NormDistrict(row.district);
            KeyOf(row) == if st == "" || dk == "" then None else Some((st, dk))
  {
    var ws := DistrictWords(row.district);
    if ws != [] {
      WordsAreTokens(Scrub(Lower(row.district.value)));
      JoinSpaceNonEmpty(ws);
    }
  }

  /** What the grouping loop reads from a row: its key, if it has one, and
      its district cell as written. */
  datatype Sighting = Sighting(key: Option<Key>, shown: string)

  function SightingOf(row: DashboardRow): Sighting {
    Sighting(KeyOf(row), Shown(row))
  }

  function Sightings(rows: seq<DashboardRow>): (ss: seq<Sighting>)
    ensures |ss| == |rows|
  {
    seq(|rows|, i requires 0 <= i < |rows| => SightingOf(rows[i]))
  }

  lemma SightingsSnoc(rows: seq<DashboardRow>, i: nat)
    requires i < |rows|
    ensures Sightings(rows[..i + 1]) == Sightings(rows[..i]) + [SightingOf(rows[i])]
  {
    var a, b := Sightings(rows[..i + 1]), Sightings(rows[..i]) + [SightingOf(rows[i])];
    forall j | 0 <= j <= i ensures a[j] == b[j] {
      assert rows[..i + 1][j] == rows[j];
    }
  }

  // ---------------------------------------------------------------- the groups

  /** `dist_map`: the keys in insertion order and, for each, its set of
      spellings, kept as a duplicate-free list in insertion order (only its
      size and its sorted contents are ever read). */
  datatype DistMap = DistMap(order: seq<Key>, variants: map<Key, seq<string>>)

  /** `set.add`. */
  function AddVariant(vs: seq<string>, v: string): (r: seq<string>)
    ensures NoDups(vs) ==> NoDups(r)
    ensures forall x :: x in r <==> x in vs || x == v
  {
    if v in vs then vs else vs + [v]
  }

  /** `dist_map.setdefault(key, set()).add(shown)`, for a row with a key. */
  function Add(m: DistMap, s: Sighting): DistMap {
    match s.key
    case None => m
    case Some(k) =>
      if k in m.variants then DistMap(m.order, m.variants[k := AddVariant(m.variants[k], s.shown)])
      else DistMap(m.order + [k], m.variants[k := [s.shown]])
  }

  function VariantsFrom(ss: seq<Sighting>): DistMap {
    if ss == [] then DistMap([], map[]) else Add(VariantsFrom(ss[..|ss| - 1]), ss[|ss| - 1])
  }

  /** The grouping loop over the dashboard rows. */
  method CollectVariants(rows: seq<DashboardRow>) returns (m: DistMap)
    ensures m == VariantsFrom(Sightings(rows))
  {
    var order: seq<Key> := [];
    var variants: map<Key, seq<string>> := map[];
    for i := 0 to |rows|
      invariant DistMap(order, variants) == VariantsFrom(Sightings(rows[..i]))
    {
      SightingsSnoc(rows, i);
      ghost var ss := Sightings(rows[..i + 1]);
      assert ss[..|ss| - 1] == Sightings(rows[..i]);
      var r := rows[i];
      var st := NormState(r.state);
      var words := DistrictWords(r.district);
      if st != "" && words != [] {
        var key := (st, JoinSpace(words));
        if key in variants {
          variants := variants[key := AddVariant(variants[key], Shown(r))];
        } else {
          order := order + [key];
          variants := variants[key := [Shown(r)]];
        }
      }
    }
    assert rows[..|rows|] == rows;
    m := DistMap(order, variants);
  }

  function KeyIn(s: Sighting): Option<Key> { s.key }

  /** The spelling a row contributes to group `k`, if it belongs there. */
  function ShownUnder(k: Key): Sighting -> Option<string> {
    (s: Sighting) => if s.key == Some(k) then Some(s.shown) else None
  }

  /** What `dist_map` should hold: every key of the rows once, in order of
      first occurrence, and for each the distinct cells of its rows. */
  ghost predicate Mirrors(m: DistMap, ss: seq<Sighting>) {
    && m.order == Distinct(StateLookup.Recognised(ss, KeyIn))
    && (forall k :: k in m.variants <==> k in m.order)
    && forall k :: k in m.variants ==> m.variants[k] == Distinct(StateLookup.Recognised(ss, ShownUnder(k)))
  }

  /** The spellings of one group after one more row. */
  lemma AddVariantsOf(m: DistMap, ss: seq<Sighting>, s: Sighting, k: Key)
    requires Mirrors(m, ss)
    requires k in Add(m, s).variants
    ensures Add(m, s).variants[k] == Distinct(StateLookup.Recognised(ss + [s], ShownUnder(k)))
  {
    var f := ShownUnder(k);
    var shown := StateLookup.Recognised(ss, f);
    StateLookup.RecognisedSnoc(ss, s, f);
    if s.key == Some(k) {
      StateLookup.DistinctSnoc(shown, s.shown);
      if k !in m.variants {
        NoKeyNoneShown(ss, k);
      }
    }
  }

  /** A key no row carries has no spellings. */
  lemma NoKeyNoneShown(ss: seq<Sighting>, k: Key)
    requires k !in Distinct(StateLookup.Recognised(ss, KeyIn))
    ensures StateLookup.Recognised(ss, ShownUnder(k)) == []
  {
    StateLookup.RecognisedMeans(ss, KeyIn);
    StateLookup.RecognisedMeans(ss, ShownUnder(k));
  }

  lemma AddMirrors(m: DistMap, ss: seq<Sighting>, s: Sighting)
    requires Mirrors(m, ss)
    ensures Mirrors(Add(m, s), ss + [s])
  {
    StateLookup.RecognisedSnoc(ss, s, KeyIn);
    if s.key.Some? {
      StateLookup.DistinctSnoc(StateLookup.Recognised(ss, KeyIn), s.key.value);
    }
    var m' := Add(m, s);
    forall k | k in m'.variants
      ensures m'.variants[k] == Distinct(StateLookup.Recognised(ss + [s], ShownUnder(k)))
    {
      AddVariantsOf(m, ss, s, k);
    }
  }

  /** The grouping loop builds exactly the reference groups. */
  lemma {:induction false} VariantsFromMirrors(ss: seq<Sighting>)
    ensures Mirrors(VariantsFrom(ss), ss)
  {
    if ss != [] {
      var p, s := ss[..|ss| - 1], ss[|ss| - 1];
      assert ss == p + [s];
      VariantsFromMirrors(p);
      AddMirrors(VariantsFrom(p), p, s);
    }
  }

  /** The spellings recorded for a group are exactly the cells of its rows,
      each once. */
  lemma VariantsMeans(ss: seq<Sighting>, k: Key)
    ensures var m := VariantsFrom(ss);
            && (k in m.variants <==> exists i :: 0 <= i < |ss| && ss[i].key == Some(k))
            && (k in m.variants ==>
                  && NoDups(m.variants[k])
                  && forall v :: v in m.variants[k] <==> exists i :: 0 <= i < |ss| && ss[i].key == Some(k) && ss[i].shown == v)
  {
    var m := VariantsFrom(ss);
    VariantsFromMirrors(ss);
    MirroredKeys(m, ss, k);
    if k in m.variants {
      MirroredSpellings(m, ss, k);
    }
  }

  lemma MirroredKeys(m: DistMap, ss: seq<Sighting>, k: Key)
    requires Mirrors(m, ss)
    ensures k in m.variants <==> exists i :: 0 <= i < |ss| && ss[i].key == Some(k)
  {
    StateLookup.RecognisedMeans(ss, KeyIn);
    if exists i :: 0 <= i < |ss| && ss[i].key == Some(k) {
      var i :| 0 <= i < |ss| && ss[i].key == Some(k);
      assert KeyIn(ss[i]) == Some(k);
    }
  }

  lemma MirroredSpellings(m: DistMap, ss: seq<Sighting>, k: Key)
    requires Mirrors(m, ss) && k in m.variants
    ensures NoDups(m.variants[k])
    ensures forall v :: v in m.variants[k] <==> exists i :: 0 <= i < |ss| && ss[i].key == Some(k) && ss[i].shown == v
  {
    var f := ShownUnder(k);
    StateLookup.RecognisedMeans(ss, f);
    forall v ensures v in m.variants[k] <==> exists i :: 0 <= i < |ss| && ss[i].key == Some(k) && ss[i].shown == v {
      if exists i :: 0 <= i < |ss| && ss[i].key == Some(k) && ss[i].shown == v {
        var i :| 0 <= i < |ss| && ss[i].key == Some(k) && ss[i].shown == v;
        assert f(ss[i]) == Some(v);
      }
    }
  }

  // ---------------------------------------------------------------- the report

  /** `len(v) > 1`. */
  function IsProblem(m: DistMap): Key -> bool {
    (k: Key) => k in m.variants && |m.variants[k]| > 1
  }

  /** `problems`, sorted: the keys of the groups with several spellings.
      The keys are distinct, so sorting the `(key, spellings)` pairs orders
      them by key alone. */
  function ProblemKeys(m: DistMap): seq<Key> {
    Sort(Filter(m.order, IsProblem(m)), PairLe)
  }

  function VariantsAt(m: DistMap, k: Key): seq<string> {
    if k in m.variants then m.variants[k] else []
  }

  /** One printed group: its keys and `sorted(variants)`. */
  function Listing(m: DistMap, k: Key): (Key, seq<string>) {
    (k, SortStrings(VariantsAt(m, k)))
  }

  /** What the script prints: the number of groups with several spellings,
      and the first 200 of them, each with its spellings in ascending order. */
  datatype Report = Report(total: nat, groups: seq<(Key, seq<string>)>)

  function ReportOf(m: DistMap): Report {
    var keys := ProblemKeys(m);
    var shown := keys[..if |keys| < 200 then |keys| else 200];
    Report(|keys|, seq(|shown|, i requires 0 <= i < |shown| => Listing(m, shown[i])))
  }

  /** The whole script. */
  method ReportVariants(rows: seq<DashboardRow>) returns (report: Report)
    ensures report == ReportOf(VariantsFrom(Sightings(rows)))
  {
    var m := CollectVariants(rows);
    var sorted := ProblemKeys(m);
    var groups := ListGroups(m, sorted[..if |sorted| < 200 then |sorted| else 200]);
    report := Report(|sorted|, groups);
  }

  /** The printing loop over the groups shown. */
  method ListGroups(m: DistMap, keys: seq<Key>) returns (groups: seq<(Key, seq<string>)>)
    ensures groups == seq(|keys|, i requires 0 <= i < |keys| => Listing(m, keys[i]))
  {
    groups := [];
    for i := 0 to |keys|
      invariant |groups| == i
      invariant forall j :: 0 <= j < i ==> groups[j] == Listing(m, keys[j])
    {
      groups := groups + [Listing(m, keys[i])];
    }
  }

  /** Two rows in the same group with different district cells. */
  predicate Disagree(ss: seq<Sighting>, k: Key, i: int, j: int) {
    0 <= i < |ss| && 0 <= j < |ss| &&
    ss[i].key == Some(k) && ss[j].key == Some(k) && ss[i].shown != ss[j].shown
  }

  /** A list with two different members has at least two elements. */
  lemma TwoMembers<T>(s: seq<T>, a: T, b: T)
    requires a in s && b in s && a != b
    ensures |s| > 1
  {}

  /** A group has several spellings exactly when two of its rows disagree. */
  lemma ProblemMeans(ss: seq<Sighting>, k: Key)
    ensures IsProblem(VariantsFrom(ss))(k) <==> exists i, j :: Disagree(ss, k, i, j)
  {
    var m := VariantsFrom(ss);
    VariantsMeans(ss, k);
    if IsProblem(m)(k) {
      var d := m.variants[k];
      assert d[0] != d[1] && d[0] in d && d[1] in d;
      var i :| 0 <= i < |ss| && ss[i].key == Some(k) && ss[i].shown == d[0];
      var j :| 0 <= j < |ss| && ss[j].key == Some(k) && ss[j].shown == d[1];
      assert Disagree(ss, k, i, j);
    }
    if exists i, j :: Disagree(ss, k, i, j) {
      var i, j :| Disagree(ss, k, i, j);
      TwoMembers(m.variants[k], ss[i].shown, ss[j].shown);
    }
  }

  /** The reported keys are strictly ascending, and a key is among them
      exactly when two rows of its group have different district cells. */
  lemma ProblemKeysMeans(ss: seq<Sighting>)
    ensures var keys := ProblemKeys(VariantsFrom(ss));
            && Sorted(keys, PairLe) && NoDups(keys)
            && forall k :: k in keys <==> exists i, j :: Disagree(ss, k, i, j)
  {
    var m := VariantsFrom(ss);
    VariantsFromMirrors(ss);
    var problems := Filter(m.order, IsProblem(m));
    PairLeIsTotalPreorder();
    SortSorted(problems, PairLe);
    FilterNoDups(m.order, IsProblem(m));
    SortPairsDistinct(problems);
    forall k ensures k in ProblemKeys(m) <==> exists i, j :: Disagree(ss, k, i, j) {
      ProblemMeans(ss, k);
    }
  }

  /** A printed group lists exactly the distinct cells of its rows,
      strictly ascending. */
  lemma ListingMeans(ss: seq<Sighting>, k: Key)
    requires k in VariantsFrom(ss).variants
    ensures var l := Listing(VariantsFrom(ss), k).1;
            && StrictlySorted(l)
            && forall v :: v in l <==> exists j :: 0 <= j < |ss| && ss[j].key == Some(k) && ss[j].shown == v
  {
    VariantsMeans(ss, k);
    SortStringsStrict(VariantsFrom(ss).variants[k]);
  }

  /** The report counts every group with several spellings, prints the
      first 200 in key order, and prints each with exactly the distinct
      cells of its rows, strictly ascending. */
  lemma ReportMeans(ss: seq<Sighting>)
    ensures var m := VariantsFrom(ss);
            var r := ReportOf(m);
            && r.total == |ProblemKeys(m)|
            && |r.groups| == (if r.total < 200 then r.total else 200)
            && forall i :: 0 <= i < |r.groups| ==>
                 && r.groups[i].0 == ProblemKeys(m)[i]
                 && StrictlySorted(r.groups[i].1)
                 && forall v :: v in r.groups[i].1 <==>
                      exists j :: 0 <= j < |ss| && ss[j].key == Some(r.groups[i].0) && ss[j].shown == v
  {
    var m := VariantsFrom(ss);
    var r := ReportOf(m);
    var keys := ProblemKeys(m);
    forall i | 0 <= i < |r.groups|
      ensures r.groups[i] == Listing(m, keys[i]) && keys[i] in m.variants
    {
      assert keys[i] in keys;
      FilterMembers(m, keys[i]);
    }
    forall i | 0 <= i < |r.groups|
      ensures StrictlySorted(r.groups[i].1)
      ensures forall v :: v in r.groups[i].1 <==>
                exists j :: 0 <= j < |ss| && ss[j].key == Some(r.groups[i].0) && ss[j].shown == v
    {
      ListingMeans(ss, keys[i]);
    }
  }

  /** A reported key has a group. */
  lemma FilterMembers(m: DistMap, k: Key)
    requires k in ProblemKeys(m)
    ensures k in m.variants
  {
    var problems := Filter(m.order, IsProblem(m));
    assert k in multiset(Sort(problems, PairLe));
    assert k in problems;
  }

  // ---------------------------------------------------------------- the two scripts side by side

  /** This script groups by the cell as written, the canonical-spelling
      script by the stripped cell: a cell and the same cell with a trailing
      blank are reported as two spellings of one district, while the
      canonical script counts them as one spelling. */
  lemma TrailingSpaceIsAVariant(state: Option<string>, v: string)
    requires KeyOf(DashboardRow(state, Some(v))).Some?
    ensures var a, b := DashboardRow(state, Some(v)), DashboardRow(state, Some(v + " "));
            var k := KeyOf(a).value;
            && KeyOf(b) == Some(k)
            && IsProblem(VariantsFrom(Sightings([a, b])))(k)
            && EntryOf(a) == EntryOf(b)
  {
    var a, b := DashboardRow(state, Some(v)), DashboardRow(state, Some(v + " "));
    TrimSpaceSuffix(v);
    NormDistrictIgnoresPadding(v);
    NormDistrictIgnoresPadding(v + " ");
    KeyOfMeans(a);
    KeyOfMeans(b);
    var k := KeyOf(a).value;
    assert Disagree(Sightings([a, b]), k, 0, 1);
    ProblemMeans(Sightings([a, b]), k);
  }
}
