/** The script that writes the canonical district spelling table used by the
    district page: for every normalised state and normalised district name
    found in the admin decision dashboard, the raw district spelling that
    occurs most often (the first one seen wins a tie). The counting pass and
    the choosing pass are loops over the rows and over the nested
    dictionaries; each is proved against a function of its input, and the
    properties of the table are proved about those functions. */
module DistrictCanonical {
  import opened Wrappers
  import opened Text
  import opened Seqs
  import StateLookup

  /** The two cells of a dashboard row the script reads; an empty (NaN) cell
      is `None`. */
  datatype DashboardRow = DashboardRow(state: Option<string>, district: Option<string>)

  // ---------------------------------------------------------------- normalisation

  /** `norm_state`: a missing cell gives "", anything else is lower-cased
      with its whitespace runs collapsed to single spaces. */
  function NormState(s: Option<string>): string {
    match s
    case None => ""
    case Some(v) => SplitJoin(Lower(v))
  }

  /** A state key is trimmed, single-spaced and free of upper case. */
  lemma NormStateShape(s: Option<string>)
    ensures IsSpaced(NormState(s)) && HasNoUpper(NormState(s))
  {
    if s.Some? {
      SplitJoinIsSpaced(Lower(s.value));
      LowerHasNoUpper(s.value);
    }
  }

  /** The characters the district pattern `[^a-z0-9 ]` leaves alone. */
  predicate KeepChar(c: char) { IsLowerLetter(c) || IsDigit(c) || c == ' ' }

  /** `re.sub('[^a-z0-9 ]', ' ', s)`: every other character becomes a space. */
  function Scrub(s: string): (r: string)
    ensures |r| == |s|
    ensures forall i :: 0 <= i < |r| ==> KeepChar(r[i])
  {
    seq(|s|, i requires 0 <= i < |s| => if KeepChar(s[i]) then s[i] else ' ')
  }

  /** `norm_district`: lower-cased, punctuation turned into spaces, spaces
      collapsed; a missing cell gives "". */
  function NormDistrict(d: Option<string>): string {
    match d
    case None => ""
    case Some(v) => SplitJoin(Scrub(Lower(v)))
  }

  /** A district key is trimmed, single-spaced and made of lower-case
      letters, digits and spaces only. */
  lemma NormDistrictShape(d: Option<string>)
    ensures IsSpaced(NormDistrict(d))
    ensures forall i :: 0 <= i < |NormDistrict(d)| ==> KeepChar(NormDistrict(d)[i])
  {
    if d.Some? {
      SplitJoinIsSpaced(Scrub(Lower(d.value)));
    }
  }

  /** A district key normalises to itself. */
  lemma NormDistrictIdempotent(d: Option<string>)
    ensures NormDistrict(Some(NormDistrict(d))) == NormDistrict(d)
  {
    var k := NormDistrict(d);
    NormDistrictShape(d);
    assert Lower(k) == k;
    assert Scrub(k) == k;
    SplitJoinOfSpaced(k);
  }

  lemma ScrubAppend(a: string, b: string)
    ensures Scrub(a + b) == Scrub(a) + Scrub(b)
  {}

  /** Whitespace is scrubbed to whitespace. */
  lemma ScrubLowerOfSpace(sp: string)
    requires forall i :: 0 <= i < |sp| ==> IsSpace(sp[i])
    ensures forall i :: 0 <= i < |Scrub(Lower(sp))| ==> IsSpace(Scrub(Lower(sp))[i])
  {}

  lemma ScrubLowerSplit(pre: string, t: string, post: string)
    ensures Scrub(Lower(pre + t + post)) == Scrub(Lower(pre)) + (Scrub(Lower(t)) + Scrub(Lower(post)))
  {
    LowerAppend(pre + t, post);
    LowerAppend(pre, t);
    ScrubAppend(Lower(pre) + Lower(t), Lower(post));
    ScrubAppend(Lower(pre), Lower(t));
  }

  lemma WordsIgnorePadding(sp: string, mid: string, sq: string)
    requires forall i :: 0 <= i < |sp| ==> IsSpace(sp[i])
    requires forall i :: 0 <= i < |sq| ==> IsSpace(sq[i])
    ensures Words(sp + (mid + sq)) == Words(mid)
  {
    WordsOfSpacePrefix(sp, mid + sq);
    WordsOfSpaceSuffix(mid, sq);
  }

  /** Whitespace around a district name does not change its key, so the
      stripped spelling the script counts has the key of its row. */
  lemma NormDistrictIgnoresPadding(v: string)
    ensures NormDistrict(Some(Trim(v))) == NormDistrict(Some(v))
  {
    var k := TrimIsSlice(v);
    var t := Trim(v);
    var pre, post := v[..k], v[k + |t|..];
    assert v == pre + t + post;
    ScrubLowerSplit(pre, t, post);
    ScrubLowerOfSpace(pre);
    ScrubLowerOfSpace(post);
    WordsIgnorePadding(Scrub(Lower(pre)), Scrub(Lower(t)), Scrub(Lower(post)));
  }

  /** `str(district).strip()`: the spelling that is counted; a NaN cell
      prints as "nan" (such a row is skipped anyway, its key being ""). */
  function RawOf(d: Option<string>): string {
    match d
    case None => "nan"
    case Some(v) => Trim(v)
  }

  /** The keys and the spelling the script computes for a row: `st`, `dk`
      and `raw`. */
  type Entry = (string, string, string)

  function EntryOf(row: DashboardRow): Entry {
    (NormState(row.state), NormDistrict(row.district), RawOf(row.district))
  }

  function Entries(rows: seq<DashboardRow>): (es: seq<Entry>)
    ensures |es| == |rows|
  {
    seq(|rows|, i requires 0 <= i < |rows| => EntryOf(rows[i]))
  }

  lemma EntriesSnoc(rows: seq<DashboardRow>, i: nat)
    requires i < |rows|
    ensures Entries(rows[..i + 1]) == Entries(rows[..i]) + [EntryOf(rows[i])]
  {}

  /** The entry is counted under the non-empty keys `(st, dk)`. */
  predicate InGroup(e: Entry, st: string, dk: string) {
    st != "" && dk != "" && e.0 == st && e.1 == dk
  }

  /** The entry is counted under `(st, dk)` with spelling `x`. */
  predicate Spelled(e: Entry, st: string, dk: string, x: string) {
    InGroup(e, st, dk) && e.2 == x
  }

  /** The number of rows counted under `(st, dk)` with spelling `x`. */
  function Uses(es: seq<Entry>, st: string, dk: string, x: string): nat {
    if es == [] then 0
    else Uses(es[..|es| - 1], st, dk, x) + if Spelled(es[|es| - 1], st, dk, x) then 1 else 0
  }

  /** Every spelling counted under a district key has that key. */
  lemma SpellingNormalises(row: DashboardRow, st: string, dk: string)
    requires InGroup(EntryOf(row), st, dk)
    ensures NormDistrict(Some(RawOf(row.district))) == dk
  {
    NormDistrictIgnoresPadding(row.district.value);
  }

  // ---------------------------------------------------------------- the reference tally

  /** The spelling an entry contributes under `(st, dk)`, if it is counted there. */
  function SpellingIn(st: string, dk: string): Entry -> Option<string> {
    (e: Entry) => if InGroup(e, st, dk) then Some(e.2) else None
  }

  /** The spellings counted under `(st, dk)`, one per entry, in row order. */
  function RawsOf(es: seq<Entry>, st: string, dk: string): seq<string> {
    StateLookup.Recognised(es, SpellingIn(st, dk))
  }

  /** A dictionary from spelling to count, in insertion order. */
  type Tally = seq<(string, nat)>

  function Spellings(t: Tally): seq<string> {
    seq(|t|, i requires 0 <= i < |t| => t[i].0)
  }

  /** What a tally for `(st, dk)` should hold: each distinct spelling of
      the group in the order it first occurs, with the number of rows that
      use it. */
  predicate Reflects(t: Tally, es: seq<Entry>, st: string, dk: string) {
    && Spellings(t) == Distinct(RawsOf(es, st, dk))
    && forall i :: 0 <= i < |t| ==> t[i].1 == Uses(es, st, dk, t[i].0)
  }

  // ---------------------------------------------------------------- counting

  /** `rawmap.setdefault(raw, 0); rawmap[raw] += 1`: the entry keeps its
      place, a new spelling goes to the end. */
  function Bump(t: Tally, raw: string): (r: Tally)
    ensures Spellings(r) == if raw in Spellings(t) then Spellings(t) else Spellings(t) + [raw]
  {
    if raw in Spellings(t) then
      seq(|t|, i requires 0 <= i < |t| => if t[i].0 == raw then (raw, t[i].1 + 1) else t[i])
    else
      t + [(raw, 1)]
  }

  lemma BumpAt(t: Tally, raw: string, i: nat)
    requires raw in Spellings(t) && i < |t|
    ensures |Bump(t, raw)| == |t|
    ensures Bump(t, raw)[i] == if t[i].0 == raw then (raw, t[i].1 + 1) else t[i]
  {}

  /** `counts[st][dk][raw]`. */
  type Counts = map<string, map<string, Tally>>

  predicate HasPair<V>(m: map<string, map<string, V>>, st: string, dk: string) {
    st in m && dk in m[st]
  }

  function Tallied(counts: Counts, st: string, dk: string): Tally {
    if HasPair(counts, st, dk) then counts[st][dk] else []
  }

  /** One pass of the counting loop: an entry with an empty state or
      district key is skipped, any other bumps its spelling under its two
      keys. */
  function Record(counts: Counts, e: Entry): Counts {
    if e.0 == "" || e.1 == "" then counts
    else
      var inner := if e.0 in counts then counts[e.0] else map[];
      counts[e.0 := inner[e.1 := Bump(Tallied(counts, e.0, e.1), e.2)]]
  }

  function CountsFrom(es: seq<Entry>): Counts {
    if es == [] then map[] else Record(CountsFrom(es[..|es| - 1]), es[|es| - 1])
  }

  /** The counting loop over the dashboard rows. */
  method CountSpellings(rows: seq<DashboardRow>) returns (counts: Counts)
    ensures counts == CountsFrom(Entries(rows))
  {
    counts := map[];
    for i := 0 to |rows|
      invariant counts == CountsFrom(Entries(rows[..i]))
    {
      EntriesSnoc(rows, i);
      ghost var es := Entries(rows[..i + 1]);
      assert es[..|es| - 1] == Entries(rows[..i]);
      var r := rows[i];
      var st := NormState(r.state);
      var dk := NormDistrict(r.district);
      var raw := RawOf(r.district);
      if st != "" && dk != "" {
        var inner := if st in counts then counts[st] else map[];
        var tally := if dk in inner then inner[dk] else [];
        counts := counts[st := inner[dk := Bump(tally, raw)]];
      }
    }
    assert rows[..|rows|] == rows;
  }

  lemma RecordEffect(counts: Counts, e: Entry, st: string, dk: string)
    ensures HasPair(Record(counts, e), st, dk) <==> HasPair(counts, st, dk) || InGroup(e, st, dk)
    ensures Tallied(Record(counts, e), st, dk) ==
            if InGroup(e, st, dk) then Bump(Tallied(counts, st, dk), e.2) else Tallied(counts, st, dk)
  {}

  lemma UsesSnoc(es: seq<Entry>, e: Entry, st: string, dk: string, x: string)
    ensures Uses(es + [e], st, dk, x) == Uses(es, st, dk, x) + if Spelled(e, st, dk, x) then 1 else 0
  {
    assert (es + [e])[..|es|] == es;
  }

  /** A spelling no row has is used zero times. */
  lemma {:induction false} UnseenCountsZero(es: seq<Entry>, st: string, dk: string, x: string)
    requires x !in RawsOf(es, st, dk)
    ensures Uses(es, st, dk, x) == 0
  {
    if es != [] {
      var p, e := es[..|es| - 1], es[|es| - 1];
      assert es == p + [e];
      RawsSnoc(p, e, st, dk);
      UnseenCountsZero(p, st, dk, x);
    }
  }

  lemma RawsSnoc(es: seq<Entry>, e: Entry, st: string, dk: string)
    ensures RawsOf(es + [e], st, dk) == RawsOf(es, st, dk) + (if InGroup(e, st, dk) then [e.2] else [])
  {
    assert (es + [e])[..|es|] == es;
  }

  lemma DistinctRawsSnoc(es: seq<Entry>, e: Entry, st: string, dk: string)
    ensures var d, d' := Distinct(RawsOf(es, st, dk)), Distinct(RawsOf(es + [e], st, dk));
            d' == if InGroup(e, st, dk) && e.2 !in d then d + [e.2] else d
  {
    RawsSnoc(es, e, st, dk);
    if InGroup(e, st, dk) {
      StateLookup.DistinctSnoc(RawsOf(es, st, dk), e.2);
    }
  }

  /** An entry outside the group leaves the tally right as it is. */
  lemma SkipReflects(t: Tally, es: seq<Entry>, e: Entry, st: string, dk: string)
    requires Reflects(t, es, st, dk) && !InGroup(e, st, dk)
    ensures Reflects(t, es + [e], st, dk)
  {
    DistinctRawsSnoc(es, e, st, dk);
    forall i | 0 <= i < |t| ensures t[i].1 == Uses(es + [e], st, dk, t[i].0) {
      UsesSnoc(es, e, st, dk, t[i].0);
    }
  }

  /** An entry of the group is accounted for by bumping its spelling. */
  lemma BumpReflects(t: Tally, es: seq<Entry>, e: Entry, st: string, dk: string)
    requires Reflects(t, es, st, dk) && InGroup(e, st, dk)
    ensures Reflects(Bump(t, e.2), es + [e], st, dk)
  {
    DistinctRawsSnoc(es, e, st, dk);
    var b := Bump(t, e.2);
    if e.2 in Spellings(t) {
      forall i | 0 <= i < |b| ensures b[i].1 == Uses(es + [e], st, dk, b[i].0) {
        BumpAt(t, e.2, i);
        assert b[i].0 == t[i].0;
        UsesSnoc(es, e, st, dk, t[i].0);
        assert t[i].1 == Uses(es, st, dk, t[i].0);
      }
    } else {
      assert b == t + [(e.2, 1)];
      forall i | 0 <= i < |b| ensures b[i].1 == Uses(es + [e], st, dk, b[i].0) {
        if i < |t| {
          assert b[i] == t[i];
          assert Spellings(t)[i] == t[i].0 != e.2;
          UsesSnoc(es, e, st, dk, t[i].0);
        } else {
          assert b[i] == (e.2, 1);
          assert e.2 !in RawsOf(es, st, dk);
          UsesSnoc(es, e, st, dk, e.2);
          UnseenCountsZero(es, st, dk, e.2);
        }
      }
    }
  }

  /** The counting loop builds exactly the reference tallies: a pair of keys
      is present when some row has it, and its tally lists every spelling
      of those rows once, in order of first occurrence, with its number of
      rows. */
  lemma {:induction false} CountsFromMeans(es: seq<Entry>, st: string, dk: string)
    ensures HasPair(CountsFrom(es), st, dk) <==> exists i :: 0 <= i < |es| && InGroup(es[i], st, dk)
    ensures Reflects(Tallied(CountsFrom(es), st, dk), es, st, dk)
  {
    if es != [] {
      var p, e := es[..|es| - 1], es[|es| - 1];
      assert es == p + [e];
      CountsFromMeans(p, st, dk);
      RecordEffect(CountsFrom(p), e, st, dk);
      if InGroup(e, st, dk) {
        BumpReflects(Tallied(CountsFrom(p), st, dk), p, e, st, dk);
      } else {
        SkipReflects(Tallied(CountsFrom(p), st, dk), p, e, st, dk);
      }
      if exists i :: 0 <= i < |es| && InGroup(es[i], st, dk) {
        var i :| 0 <= i < |es| && InGroup(es[i], st, dk);
        if i < |p| {
          assert p[i] == es[i];
        }
      }
      if exists i :: 0 <= i < |p| && InGroup(p[i], st, dk) {
        var i :| 0 <= i < |p| && InGroup(p[i], st, dk);
        assert es[i] == p[i];
      }
    }
  }

  // ---------------------------------------------------------------- choosing

  /** `max(rawmap.items(), key=lambda x: x[1])`: the entry with the largest
      count, the first such in insertion order. */
  function Best(t: Tally): (b: (string, nat))
    requires |t| > 0
    ensures exists i :: 0 <= i < |t| && t[i] == b && forall j :: 0 <= j < i ==> t[j].1 < b.1
    ensures forall j :: 0 <= j < |t| ==> t[j].1 <= b.1
  {
    if |t| == 1 then t[0]
    else
      var b := Best(t[..|t| - 1]);
      if t[|t| - 1].1 > b.1 then t[|t| - 1] else b
  }

  /** Every tally has an entry (Python's `max` of an empty dictionary fails). */
  predicate AllNonEmpty(dkmap: map<string, Tally>) {
    forall dk :: dk in dkmap ==> |dkmap[dk]| > 0
  }

  predicate NonEmptyTallies(counts: Counts) {
    forall st :: st in counts ==> AllNonEmpty(counts[st])
  }

  /** `mapping[st][dk] = best_raw` for every district key of one state. */
  function Choices(dkmap: map<string, Tally>): map<string, string>
    requires AllNonEmpty(dkmap)
  {
    map dk | dk in dkmap :: Best(dkmap[dk]).0
  }

  function MappingOf(counts: Counts): map<string, map<string, string>>
    requires NonEmptyTallies(counts)
  {
    map st | st in counts :: Choices(counts[st])
  }

  /** The inner loop: `mapping[st][dk] = best_raw` for each district key of
      one state. */
  method ChooseSpellings(dkmap: map<string, Tally>) returns (inner: map<string, string>)
    requires AllNonEmpty(dkmap)
    ensures inner == Choices(dkmap)
  {
    inner := map[];
    var districts := dkmap.Keys;
    while districts != {}
      invariant districts <= dkmap.Keys
      invariant inner.Keys == dkmap.Keys - districts
      invariant forall dk :: dk in inner ==> inner[dk] == Best(dkmap[dk]).0
      decreases |districts|
    {
      var dk :| dk in districts;
      inner := inner[dk := Best(dkmap[dk]).0];
      districts := districts - {dk};
    }
  }

  /** The outer loop over the states of the counts. */
  method BuildMapping(counts: Counts) returns (mapping: map<string, map<string, string>>)
    requires NonEmptyTallies(counts)
    ensures mapping == MappingOf(counts)
  {
    mapping := map[];
    var states := counts.Keys;
    while states != {}
      invariant states <= counts.Keys
      invariant mapping.Keys == counts.Keys - states
      invariant forall st :: st in mapping ==> mapping[st] == Choices(counts[st])
      decreases |states|
    {
      var st :| st in states;
      var inner := ChooseSpellings(counts[st]);
      mapping := mapping[st := inner];
      states := states - {st};
    }
  }

  // ---------------------------------------------------------------- the canonical table

  /** Every tally built from rows has an entry. */
  lemma CountsNonEmpty(es: seq<Entry>)
    ensures NonEmptyTallies(CountsFrom(es))
  {
    var counts := CountsFrom(es);
    forall st, dk | st in counts && dk in counts[st] ensures |counts[st][dk]| > 0 {
      CountsFromMeans(es, st, dk);
      var i :| 0 <= i < |es| && InGroup(es[i], st, dk);
      StateLookup.RecognisedMeans(es, SpellingIn(st, dk));
      assert es[i].2 in RawsOf(es, st, dk);
    }
  }

  /** The table names a district under a state exactly when some row
      normalises to that pair of keys. */
  lemma CanonicalCovers(es: seq<Entry>, st: string, dk: string)
    ensures NonEmptyTallies(CountsFrom(es))
    ensures HasPair(MappingOf(CountsFrom(es)), st, dk) <==>
            exists i :: 0 <= i < |es| && InGroup(es[i], st, dk)
  {
    CountsNonEmpty(es);
    CountsFromMeans(es, st, dk);
  }

  lemma MappingAt(counts: Counts, st: string, dk: string)
    requires NonEmptyTallies(counts) && HasPair(counts, st, dk)
    ensures HasPair(MappingOf(counts), st, dk)
    ensures MappingOf(counts)[st][dk] == Best(counts[st][dk]).0
  {}

  /** The best entry of a tally of the group is a spelling some row of the
      group uses, and no spelling is used by more rows. */
  lemma BestIsMostUsed(t: Tally, es: seq<Entry>, st: string, dk: string)
    requires Reflects(t, es, st, dk) && |t| > 0
    ensures exists i :: 0 <= i < |es| && Spelled(es[i], st, dk, Best(t).0)
    ensures forall x :: Uses(es, st, dk, x) <= Uses(es, st, dk, Best(t).0)
  {
    var b := Best(t);
    var d := Distinct(RawsOf(es, st, dk));
    var k :| 0 <= k < |t| && t[k] == b;
    assert Spellings(t)[k] == b.0;
    StateLookup.RecognisedMeans(es, SpellingIn(st, dk));
    var i :| 0 <= i < |es| && SpellingIn(st, dk)(es[i]) == Some(b.0);
    assert Spelled(es[i], st, dk, b.0);
    forall x ensures Uses(es, st, dk, x) <= b.1 {
      if x in d {
        var m :| 0 <= m < |d| && d[m] == x;
        assert Spellings(t)[m] == t[m].0;
      } else {
        UnseenCountsZero(es, st, dk, x);
      }
    }
  }

  /** The chosen spelling is one the rows use under those keys, and no
      other spelling is used by more rows. */
  lemma CanonicalSpelling(es: seq<Entry>, st: string, dk: string)
    requires exists i :: 0 <= i < |es| && InGroup(es[i], st, dk)
    ensures NonEmptyTallies(CountsFrom(es))
    ensures HasPair(MappingOf(CountsFrom(es)), st, dk)
    ensures var b := MappingOf(CountsFrom(es))[st][dk];
            && (exists i :: 0 <= i < |es| && Spelled(es[i], st, dk, b))
            && forall x :: Uses(es, st, dk, x) <= Uses(es, st, dk, b)
  {
    CanonicalCovers(es, st, dk);
    CountsFromMeans(es, st, dk);
    MappingAt(CountsFrom(es), st, dk);
    BestIsMostUsed(Tallied(CountsFrom(es), st, dk), es, st, dk);
  }

  /** The table's spelling of a district normalises back to its key. */
  lemma CanonicalRoundTrip(rows: seq<DashboardRow>, st: string, dk: string)
    requires exists i :: 0 <= i < |rows| && InGroup(EntryOf(rows[i]), st, dk)
    ensures NonEmptyTallies(CountsFrom(Entries(rows)))
    ensures HasPair(MappingOf(CountsFrom(Entries(rows))), st, dk)
    ensures NormDistrict(Some(MappingOf(CountsFrom(Entries(rows)))[st][dk])) == dk
  {
    var es := Entries(rows);
    var i :| 0 <= i < |rows| && InGroup(EntryOf(rows[i]), st, dk);
    assert InGroup(es[i], st, dk);
    CanonicalSpelling(es, st, dk);
    var b := MappingOf(CountsFrom(es))[st][dk];
    var j :| 0 <= j < |es| && Spelled(es[j], st, dk, b);
    assert es[j] == EntryOf(rows[j]);
    SpellingNormalises(rows[j], st, dk);
  }

  lemma {:induction false} DistinctPrefix<T(!new)>(a: seq<T>, b: seq<T>)
    ensures Distinct(a) <= Distinct(a + b)
    decreases |b|
  {
    if b == [] {
      assert a + b == a;
    } else {
      var b' := b[..|b| - 1];
      assert (a + b)[..|a + b| - 1] == a + b';
      DistinctPrefix(a, b');
    }
  }

  lemma {:induction false} RecognisedPrefix<R, N>(a: seq<R>, b: seq<R>, nameOf: R -> Option<N>)
    ensures StateLookup.Recognised(a, nameOf) <= StateLookup.Recognised(a + b, nameOf)
    decreases |b|
  {
    if b == [] {
      assert a + b == a;
    } else {
      var b' := b[..|b| - 1];
      assert (a + b)[..|a + b| - 1] == a + b';
      RecognisedPrefix(a, b', nameOf);
    }
  }

  /** The spellings seen up to an entry head the list of distinct spellings. */
  lemma DistinctUpTo(es: seq<Entry>, st: string, dk: string, i: nat)
    requires i < |es|
    ensures Distinct(RawsOf(es[..i + 1], st, dk)) <= Distinct(RawsOf(es, st, dk))
  {
    assert es == es[..i + 1] + es[i + 1..];
    RecognisedPrefix(es[..i + 1], es[i + 1..], SpellingIn(st, dk));
    var p := RawsOf(es[..i + 1], st, dk);
    var all := RawsOf(es, st, dk);
    assert all == p + all[|p|..];
    DistinctPrefix(p, all[|p|..]);
  }

  /** A distinct spelling listed before the spelling of some row of the
      group already occurs at or before that row. */
  lemma EarlierSpellingSeen(es: seq<Entry>, st: string, dk: string, i: nat, k: nat)
    requires i < |es| && InGroup(es[i], st, dk)
    requires var d := Distinct(RawsOf(es, st, dk));
             k < |d| && forall m :: 0 <= m < k ==> d[m] != es[i].2
    ensures exists j :: 0 <= j <= i && Spelled(es[j], st, dk, Distinct(RawsOf(es, st, dk))[k])
  {
    var d := Distinct(RawsOf(es, st, dk));
    var head := es[..i + 1];
    var f := SpellingIn(st, dk);
    StateLookup.RecognisedMeans(head, f);
    assert f(head[i]) == Some(es[i].2);
    var dp := Distinct(RawsOf(head, st, dk));
    var m :| 0 <= m < |dp| && dp[m] == es[i].2;
    DistinctUpTo(es, st, dk, i);
    assert d[m] == dp[m];
    assert dp[k] == d[k];
    var j :| 0 <= j < |head| && f(head[j]) == Some(d[k]);
    assert es[j] == head[j];
  }

  /** In a tally of the group, a spelling tied with the best entry does not
      occur before it. */
  lemma BestComesFirst(t: Tally, es: seq<Entry>, st: string, dk: string, i: nat)
    requires Reflects(t, es, st, dk) && |t| > 0
    requires i < |es| && InGroup(es[i], st, dk)
    requires Uses(es, st, dk, es[i].2) == Uses(es, st, dk, Best(t).0)
    ensures exists j :: 0 <= j <= i && Spelled(es[j], st, dk, Best(t).0)
  {
    var b := Best(t);
    var d := Distinct(RawsOf(es, st, dk));
    var k :| 0 <= k < |t| && t[k] == b && forall j :: 0 <= j < k ==> t[j].1 < b.1;
    assert Spellings(t)[k] == b.0;
    forall m | 0 <= m < k ensures d[m] != es[i].2 {
      assert Spellings(t)[m] == t[m].0;
    }
    EarlierSpellingSeen(es, st, dk, i, k);
  }

  /** Ties go to the spelling seen first: when the spelling of some row of
      the group is used as often as the chosen one, the chosen one already
      occurs at or before that row. */
  lemma CanonicalFirstTie(es: seq<Entry>, st: string, dk: string, i: nat)
    requires i < |es| && InGroup(es[i], st, dk)
    ensures NonEmptyTallies(CountsFrom(es))
    ensures HasPair(MappingOf(CountsFrom(es)), st, dk)
    ensures var b := MappingOf(CountsFrom(es))[st][dk];
            Uses(es, st, dk, es[i].2) == Uses(es, st, dk, b) ==>
            exists j :: 0 <= j <= i && Spelled(es[j], st, dk, b)
  {
    CanonicalCovers(es, st, dk);
    CountsFromMeans(es, st, dk);
    MappingAt(CountsFrom(es), st, dk);
    var t := Tallied(CountsFrom(es), st, dk);
    if Uses(es, st, dk, es[i].2) == Uses(es, st, dk, Best(t).0) {
      BestComesFirst(t, es, st, dk, i);
    }
  }

  /** The whole script: count the spellings, then choose one per pair of keys. */
  method GenerateCanonical(rows: seq<DashboardRow>) returns (mapping: map<string, map<string, string>>)
    ensures NonEmptyTallies(CountsFrom(Entries(rows)))
    ensures mapping == MappingOf(CountsFrom(Entries(rows)))
  {
    var counts := CountSpellings(rows);
    CountsNonEmpty(Entries(rows));
    mapping := BuildMapping(counts);
  }
}
