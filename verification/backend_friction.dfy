/** The back end's `/friction-age-analysis` endpoint: its own table of state
    spellings and `normalize_state`, the removal of numeric junk states and of
    states that do not normalise, the relabelling of the age-group column, the
    per-(state, age group) sum and `classify_friction`. */
module BackendFriction {
  import opened Wrappers
  import opened Text
  import opened Seqs
  import opened Records
  import StateLookup

  // ---------------------------------------------------------------- the table

  // `CANONICAL_STATES`, in source order, in groups of at most eight entries.

  /** Lines 107-114 of the table. */
  const Group1: map<string, string> := map[
    "andaman & nicobar islands" := "Andaman & Nicobar Islands",
    "andaman and nicobar islands" := "Andaman & Nicobar Islands",
    "andhra pradesh" := "Andhra Pradesh",
    "arunachal pradesh" := "Arunachal Pradesh",
    "assam" := "Assam",
    "bihar" := "Bihar",
    "chandigarh" := "Chandigarh",
    "chhattisgarh" := "Chhattisgarh"
  ]
  /** Lines 115-122 of the table. */
  const Group2: map<string, string> := map[
    "delhi" := "Delhi",
    "goa" := "Goa",
    "gujarat" := "Gujarat",
    "haryana" := "Haryana",
    "himachal pradesh" := "Himachal Pradesh",
    "jharkhand" := "Jharkhand",
    "karnataka" := "Karnataka",
    "kerala" := "Kerala"
  ]
  /** Lines 123-130 of the table. */
  const Group3: map<string, string> := map[
    "ladakh" := "Ladakh",
    "lakshadweep" := "Lakshadweep",
    "madhya pradesh" := "Madhya Pradesh",
    "maharashtra" := "Maharashtra",
    "manipur" := "Manipur",
    "meghalaya" := "Meghalaya",
    "mizoram" := "Mizoram",
    "nagaland" := "Nagaland"
  ]
  /** Lines 131-138 of the table. */
  const Group4: map<string, string> := map[
    "odisha" := "Odisha",
    "orissa" := "Odisha",
    "pondicherry" := "Puducherry",
    "puducherry" := "Puducherry",
    "punjab" := "Punjab",
    "rajasthan" := "Rajasthan",
    "sikkim" := "Sikkim",
    "tamil nadu" := "Tamil Nadu"
  ]
  /** Lines 139-146 of the table. */
  const Group5: map<string, string> := map[
    "telangana" := "Telangana",
    "tripura" := "Tripura",
    "uttar pradesh" := "Uttar Pradesh",
    "uttarakhand" := "Uttarakhand",
    "west bengal" := "West Bengal",
    "west bangal" := "West Bengal",
    "westbengal" := "West Bengal",
    "west  bengal" := "West Bengal"
  ]
  /** Lines 147-154 of the table. */
  const Group6: map<string, string> := map[
    "jammu & kashmir" := "Jammu & Kashmir",
    "jammu and kashmir" := "Jammu & Kashmir",
    "dadra & nagar haveli" := "Dadra & Nagar Haveli and Daman & Diu",
    "dadra and nagar haveli" := "Dadra & Nagar Haveli and Daman & Diu",
    "daman & diu" := "Dadra & Nagar Haveli and Daman & Diu",
    "daman and diu" := "Dadra & Nagar Haveli and Daman & Diu",
    "dadra & nagar haveli & daman & diu" := "Dadra & Nagar Haveli and Daman & Diu",
    "dadra and nagar haveli and daman and diu" := "Dadra & Nagar Haveli and Daman & Diu"
  ]
  /** Lines 155-156 of the table. */
  const Group7: map<string, string> := map[
    "the dadra & nagar haveli & daman & diu" := "Dadra & Nagar Haveli and Daman & Diu",
    "the dadra and nagar haveli and daman and diu" := "Dadra & Nagar Haveli and Daman & Diu"
  ]

  const CanonicalStates: map<string, string> :=
    Group1 + Group2 + Group3 + Group4 + Group5 + Group6 + Group7

  lemma GroupsProperA()
    ensures StateLookup.Proper(Group1) && StateLookup.Proper(Group2) && StateLookup.Proper(Group3)
  {}

  lemma GroupsProperB()
    ensures StateLookup.Proper(Group4) && StateLookup.Proper(Group5)
  {}

  lemma GroupsProperC()
    ensures StateLookup.Proper(Group6) && StateLookup.Proper(Group7)
  {}

  /** No key and no name of the table is empty. */
  lemma CanonicalStatesProper()
    ensures StateLookup.Proper(CanonicalStates)
  {
    GroupsProperA();
    GroupsProperB();
    GroupsProperC();
    StateLookup.UnionProper(Group1, Group2);
    StateLookup.UnionProper(Group1 + Group2, Group3);
    StateLookup.UnionProper(Group1 + Group2 + Group3, Group4);
    StateLookup.UnionProper(Group1 + Group2 + Group3 + Group4, Group5);
    StateLookup.UnionProper(Group1 + Group2 + Group3 + Group4 + Group5, Group6);
    StateLookup.UnionProper(Group1 + Group2 + Group3 + Group4 + Group5 + Group6, Group7);
  }

  // ---------------------------------------------------------------- normalize_state

  /** `' '.join(str(raw).lower().split())`: lower-cased, whitespace runs
      collapsed to one space, both ends trimmed. */
  function StateKey(raw: string): (key: string)
    ensures IsSpaced(key)
  {
    SplitJoinIsSpaced(Lower(raw));
    SplitJoin(Lower(raw))
  }

  lemma StateKeyOfEmpty()
    ensures StateKey("") == ""
  {
    assert Lower("") == "";
    assert TrimStart("") == "";
  }

  /** `normalize_state` over a given table: a missing or empty value gives
      None; otherwise the table's name for the key, or the raw value itself. */
  function NormalizeWith(table: map<string, string>, raw: Option<string>): Option<string> {
    if raw.None? || raw.value == "" then None
    else
      var key := StateKey(raw.value);
      Some(if key in table then table[key] else raw.value)
  }

  function NormalizeState(raw: Option<string>): Option<string> {
    NormalizeWith(CanonicalStates, raw)
  }

  /** A falsy value gives None; any other value gives the table's name for
      its key when the key is listed, and comes back unchanged otherwise. */
  lemma NormalizeStateMeans(raw: Option<string>)
    ensures NormalizeState(raw).None? <==> raw.None? || raw.value == ""
    ensures raw.Some? && raw.value != "" && StateKey(raw.value) in CanonicalStates ==>
              NormalizeState(raw) == Some(CanonicalStates[StateKey(raw.value)]) &&
              NormalizeState(raw).value != ""
    ensures raw.Some? && raw.value != "" && StateKey(raw.value) !in CanonicalStates ==>
              NormalizeState(raw) == raw
  {
    CanonicalStatesProper();
  }

  /** A key has no upper-case letter. */
  lemma KeyHasNoUpper(raw: string)
    ensures HasNoUpper(StateKey(raw))
  {
    var k := StateKey(raw);
    SplitJoinIsSpaced(Lower(raw));
    LowerHasNoUpper(raw);
    forall i | 0 <= i < |k| ensures !IsUpper(k[i]) {
      if k[i] != ' ' {
        var j :| 0 <= j < |Lower(raw)| && Lower(raw)[j] == k[i];
      }
    }
  }

  /** Letter case and the amount of whitespace between or around the words do
      not matter: spellings with the same key normalise alike whenever the key
      is listed, and a key is already its own key. */
  lemma NormalizeIgnoresCaseAndSpacing(a: string, b: string)
    requires a != "" && b != "" && StateKey(a) == StateKey(b) && StateKey(a) in CanonicalStates
    ensures NormalizeState(Some(a)) == NormalizeState(Some(b))
    ensures StateKey(StateKey(a)) == StateKey(a)
  {
    var k := StateKey(a);
    KeyHasNoUpper(a);
    LowerOfLowered(k);
    SplitJoinIdempotent(Lower(a));
  }

  /** The lookup of a value whose key is listed. */
  lemma ListedKey(raw: string, k: string)
    requires StateKey(raw) == k && k in CanonicalStates
    ensures NormalizeState(Some(raw)) == Some(CanonicalStates[k])
  {
    CanonicalStatesProper();
    StateKeyOfEmpty();
  }

  lemma JammuInGroups()
    ensures "jammu & kashmir" in Group6 && Group6["jammu & kashmir"] == "Jammu & Kashmir"
    ensures "jammu and kashmir" in Group6 && Group6["jammu and kashmir"] == "Jammu & Kashmir"
    ensures "jammu & kashmir" !in Group7 && "jammu and kashmir" !in Group7
  {}

  /** "Jammu and Kashmir" and "Jammu & Kashmir", in any letter case and with
      any spacing, both give "Jammu & Kashmir". */
  lemma JammuAndKashmir(raw: string)
    requires StateKey(raw) == "jammu and kashmir" || StateKey(raw) == "jammu & kashmir"
    ensures NormalizeState(Some(raw)) == Some("Jammu & Kashmir")
  {
    JammuInGroups();
    var k := StateKey(raw);
    StateLookup.UnionLookup(Group1 + Group2 + Group3 + Group4 + Group5, Group6, k);
    StateLookup.UnionLookup(Group1 + Group2 + Group3 + Group4 + Group5 + Group6, Group7, k);
    ListedKey(raw, k);
  }

  lemma DadraSpellingInGroups()
    ensures "dadra and nagar haveli and daman and diu" in Group6
    ensures Group6["dadra and nagar haveli and daman and diu"] == StateLookup.DadraName
    ensures "dadra and nagar haveli and daman and diu" !in Group7
  {}

  /** The spelled-out "Dadra and Nagar Haveli and Daman and Diu" becomes the
      merged territory's name. */
  lemma DadraSpelling(raw: string)
    requires StateKey(raw) == "dadra and nagar haveli and daman and diu"
    ensures NormalizeState(Some(raw)) == Some(StateLookup.DadraName)
  {
    DadraSpellingInGroups();
    var k := StateKey(raw);
    StateLookup.UnionLookup(Group1 + Group2 + Group3 + Group4 + Group5, Group6, k);
    StateLookup.UnionLookup(Group1 + Group2 + Group3 + Group4 + Group5 + Group6, Group7, k);
    ListedKey(raw, k);
  }

  lemma DadraKeyInGroups()
    ensures StateLookup.DadraKey !in Group1 && StateLookup.DadraKey !in Group2
    ensures StateLookup.DadraKey !in Group3 && StateLookup.DadraKey !in Group4
    ensures StateLookup.DadraKey !in Group5 && StateLookup.DadraKey !in Group6
    ensures StateLookup.DadraKey !in Group7
  {}

  lemma DadraKeyPartsSpaced()
    ensures IsSpaced("dadra & nagar") && IsSpaced("haveli and daman") && IsSpaced("& diu")
  {}

  lemma DadraKeyIsSpaced()
    ensures IsSpaced(StateLookup.DadraKey)
  {
    DadraKeyPartsSpaced();
    JoinIsSpaced("dadra & nagar", "haveli and daman");
    DadraKeySplit();
    JoinIsSpaced("dadra & nagar" + " " + "haveli and daman", "& diu");
  }

  lemma DadraKeySplit()
    ensures StateLookup.DadraKey == ("dadra & nagar" + " " + "haveli and daman") + " " + "& diu"
  {}

  /** The merged territory's name is not itself a key, so it comes back as
      it is, which is the same name. */
  lemma DadraNameKept()
    ensures NormalizeState(Some(StateLookup.DadraName)) == Some(StateLookup.DadraName)
  {
    DadraKeyInGroups();
    StateLookup.LowerDadraName();
    DadraKeyIsSpaced();
    SplitJoinOfSpaced(StateLookup.DadraKey);
  }

  /** No single-spaced string is the key with two inner spaces. */
  lemma NotTwoSpaceKey(k: string)
    requires IsSpaced(k)
    ensures k != "west  bengal"
  {
    if |k| == 12 {
      assert !(IsSpace(k[4]) && IsSpace(k[5]));
    }
  }

  /** Removing an entry changes only the lookup of its own key. */
  lemma NormalizeWithout(table: map<string, string>, x: string, raw: Option<string>)
    requires raw.Some? ==> StateKey(raw.value) != x
    ensures NormalizeWith(table - {x}, raw) == NormalizeWith(table, raw)
  {}

  /** The key with two inner spaces (line 146) can never be looked up: every
      key is single-spaced, so removing that entry changes nothing. */
  lemma TwoSpaceKeyUnreachable(raw: Option<string>)
    ensures raw.Some? ==> StateKey(raw.value) != "west  bengal"
    ensures NormalizeWith(CanonicalStates - {"west  bengal"}, raw) == NormalizeState(raw)
  {
    if raw.Some? {
      NotTwoSpaceKey(StateKey(raw.value));
    }
    NormalizeWithout(CanonicalStates, "west  bengal", raw);
  }

  // ---------------------------------------------------------------- the age-group column

  /** The age-group column after the four reassignments: `age_` removed,
      `_` turned into `-`, `18-greater` into `18+`, and ` years` appended. */
  function AgeLabel(column: string): string {
    ReplaceAll(ReplaceAll(ReplaceAll(column, "age_", ""), "_", "-"), "18-greater", "18+") + " years"
  }

  /** The column reassigned step by step, as the endpoint does it. */
  method RelabelAges(groups: seq<string>) returns (relabelled: seq<string>)
    ensures |relabelled| == |groups|
    ensures forall i :: 0 <= i < |groups| ==> relabelled[i] == AgeLabel(groups[i])
  {
    relabelled := seq(|groups|, i requires 0 <= i < |groups| => ReplaceAll(groups[i], "age_", ""));
    relabelled := seq(|relabelled|, i requires 0 <= i < |relabelled| => ReplaceAll(relabelled[i], "_", "-"));
    relabelled := seq(|relabelled|, i requires 0 <= i < |relabelled| => ReplaceAll(relabelled[i], "18-greater", "18+"));
    relabelled := seq(|relabelled|, i requires 0 <= i < |relabelled| => relabelled[i] + " years");
  }

  /** `age_` goes from the front of `age_<a>_<b>`, and from nowhere else,
      when the first part is at most two characters with no underscore. */
  lemma StripAge(a: string, b: string)
    requires |a| < 3 && forall i :: 0 <= i < |a| ==> a[i] != '_'
    requires forall i :: 0 <= i < |b| ==> b[i] != '_'
    ensures ReplaceAll("age_" + (a + "_" + b), "age_", "") == a + "_" + b
  {
    var a' := a + "_";
    var t := a' + b;
    forall i | 0 <= i <= |t| - 4 ensures t[i] != 'a' || t[i + 3] != '_' {
      IndexAfter(a', b, i + 3);
    }
    ReplacePrefixOnly("age_", t, "");
  }

  /** A column `age_<a>_<b>` becomes `<a>-<b> years`, up to the `18-greater`
      rewrite. */
  lemma AgeLabelOf(a: string, b: string)
    requires |a| < 3 && forall i :: 0 <= i < |a| ==> a[i] != '_'
    requires forall i :: 0 <= i < |b| ==> b[i] != '_'
    ensures AgeLabel("age_" + (a + "_" + b)) == ReplaceAll(a + "-" + b, "18-greater", "18+") + " years"
  {
    StripAge(a, b);
    ReplaceSeparator(a, b, '_', "-");
  }

  // The three columns of the enrolment file.

  lemma YoungestLabel(column: string)
    requires column == "age_0_5"
    ensures AgeLabel(column) == "0-5 years"
  {
    assert column == "age_" + ("0" + "_" + "5");
    AgeLabelOf("0", "5");
    ReplaceAllNoMatch("0-5", "18-greater", "18+");
  }

  lemma MiddleLabel(column: string)
    requires column == "age_5_17"
    ensures AgeLabel(column) == "5-17 years"
  {
    assert column == "age_" + ("5" + "_" + "17");
    AgeLabelOf("5", "17");
    ReplaceAllNoMatch("5-17", "18-greater", "18+");
  }

  lemma OldestLabel(column: string)
    requires column == "age_18_greater"
    ensures AgeLabel(column) == "18+ years"
  {
    assert column == "age_" + ("18" + "_" + "greater");
    AgeLabelOf("18", "greater");
    assert "18" + "-" + "greater" == "18-greater" + "";
    ReplaceAllPrefix("18-greater", "", "18+");
  }

  // ---------------------------------------------------------------- the rows

  /** One row of the melted enrolment table: the state cell (None for a
      missing one), the age-group column it came from and its count. */
  datatype MeltedRow = MeltedRow(state: Option<string>, ageGroup: string, count: int)

  /** A row that survived cleaning, with its normalised state and its
      relabelled age group. */
  datatype StateAgeCount = StateAgeCount(state: string, ageGroup: string, count: int)

  /** `state.astype(str).str.isdigit()`: the state cell is all digits. */
  predicate JunkState(row: MeltedRow) {
    row.state.Some? && AllDigits(row.state.value)
  }

  /** The row passes the digit filter and its normalised state is present. */
  predicate Kept(row: MeltedRow) {
    !JunkState(row) && NormalizeState(row.state).Some?
  }

  function Clean(row: MeltedRow): StateAgeCount
    requires Kept(row)
  {
    StateAgeCount(NormalizeState(row.state).value, AgeLabel(row.ageGroup), row.count)
  }

  /** The rows after the digit filter, the normalisation with `notna` and the
      relabelling, in their original order. */
  function Cleaned(rows: seq<MeltedRow>): (r: seq<StateAgeCount>)
    ensures |r| == Count(rows, Kept)
  {
    if rows == [] then []
    else (if Kept(rows[0]) then [Clean(rows[0])] else []) + Cleaned(rows[1..])
  }

  /** A cleaned row is exactly the cleaned form of a kept input row: all-digit
      states and states that do not normalise are gone, and nothing else. */
  lemma {:induction false} CleanedMeans(rows: seq<MeltedRow>)
    ensures forall x :: x in Cleaned(rows) <==> exists i :: 0 <= i < |rows| && Kept(rows[i]) && x == Clean(rows[i])
  {
    if rows != [] {
      CleanedMeans(rows[1..]);
      forall x ensures x in Cleaned(rows) <==> exists i :: 0 <= i < |rows| && Kept(rows[i]) && x == Clean(rows[i]) {
        if x in Cleaned(rows[1..]) {
          var i :| 0 <= i < |rows[1..]| && Kept(rows[1..][i]) && x == Clean(rows[1..][i]);
          assert rows[i + 1] == rows[1..][i];
        }
        if exists i :: 0 <= i < |rows| && Kept(rows[i]) && x == Clean(rows[i]) {
          var i :| 0 <= i < |rows| && Kept(rows[i]) && x == Clean(rows[i]);
          if i > 0 {
            assert rows[1..][i - 1] == rows[i];
          }
        }
      }
    }
  }

  // ---------------------------------------------------------------- the group sum

  type Key = (string, string)

  function KeyOf(x: StateAgeCount): Key {
    (x.state, x.ageGroup)
  }

  function HasKey(k: Key): StateAgeCount -> bool {
    x => KeyOf(x) == k
  }

  /** The sum of the counts. */
  function Total(rows: seq<StateAgeCount>): int {
    if rows == [] then 0 else rows[0].count + Total(rows[1..])
  }

  lemma {:induction false} TotalAppend(a: seq<StateAgeCount>, b: seq<StateAgeCount>)
    ensures Total(a + b) == Total(a) + Total(b)
  {
    if a == [] {
      assert a + b == b;
    } else {
      assert (a + b)[1..] == a[1..] + b;
      TotalAppend(a[1..], b);
    }
  }

  /** `groupby(["state", "age_group"])["count"].sum()` for one pair. */
  function NumUpdates(rows: seq<StateAgeCount>, k: Key): int {
    Total(Filter(rows, HasKey(k)))
  }

  /** The pairs of the rows, in row order, with repetitions. */
  function Keys(rows: seq<StateAgeCount>): (keys: seq<Key>)
    ensures |keys| == |rows|
    ensures forall i :: 0 <= i < |rows| ==> keys[i] == KeyOf(rows[i])
  {
    seq(|rows|, i requires 0 <= i < |rows| => KeyOf(rows[i]))
  }

  /** Every pair of the rows, and nothing else, is among their keys. */
  lemma KeysMembers(rows: seq<StateAgeCount>)
    ensures forall k :: k in Keys(rows) <==> exists x :: x in rows && KeyOf(x) == k
  {
    forall k | k in Keys(rows) ensures exists x :: x in rows && KeyOf(x) == k {
      var i :| 0 <= i < |rows| && Keys(rows)[i] == k;
      assert rows[i] in rows;
    }
    forall x | x in rows ensures KeyOf(x) in Keys(rows) {
      var i :| 0 <= i < |rows| && rows[i] == x;
      assert Keys(rows)[i] == KeyOf(x);
    }
  }

  /** The groups in the order `groupby` gives them: each pair once, ascending. */
  function GroupKeys(rows: seq<StateAgeCount>): (keys: seq<Key>)
    ensures Sorted(keys, PairLe) && NoDups(keys)
    ensures forall k :: k in keys <==> exists x :: x in rows && KeyOf(x) == k
  {
    var d := Distinct(Keys(rows));
    PairLeIsTotalPreorder();
    SortSorted(d, PairLe);
    SortPairsDistinct(d);
    KeysMembers(rows);
    Sort(d, PairLe)
  }

  /** One output record. */
  function Summary(rows: seq<StateAgeCount>, k: Key): FrictionRow {
    var n := NumUpdates(rows, k);
    FrictionRow(Some(k.0), k.1, n, ClassifyFriction(n))
  }

  /** The pair an output record stands for. */
  function RecordKey(r: FrictionRow): Key {
    (r.state.GetOr(""), r.ageGroup)
  }

  /** The aggregated records with their friction level, in group order. */
  function Aggregate(rows: seq<StateAgeCount>): (out: seq<FrictionRow>)
    ensures |out| == |GroupKeys(rows)|
    ensures forall i :: 0 <= i < |out| ==> out[i] == Summary(rows, GroupKeys(rows)[i])
  {
    var keys := GroupKeys(rows);
    seq(|keys|, i requires 0 <= i < |keys| => Summary(rows, keys[i]))
  }

  /** Each record has a state, the sum of its own pair's counts and that
      sum's friction level. */
  lemma AggregateRecords(rows: seq<StateAgeCount>)
    ensures forall r :: r in Aggregate(rows) ==>
              && r.state.Some?
              && r.numUpdates == NumUpdates(rows, RecordKey(r))
              && r.frictionLevel == ClassifyFriction(r.numUpdates)
  {}

  /** The records come in strictly ascending (state, age group) order, so no
      pair has two records. */
  lemma AggregateOrdered(rows: seq<StateAgeCount>)
    ensures var out := Aggregate(rows);
            forall i, j :: 0 <= i < j < |out| ==>
              PairLe(RecordKey(out[i]), RecordKey(out[j])) && RecordKey(out[i]) != RecordKey(out[j])
  {
    var out := Aggregate(rows);
    var keys := GroupKeys(rows);
    assert forall i :: 0 <= i < |out| ==> RecordKey(out[i]) == keys[i];
  }

  /** The record of a pair stands for that pair. */
  lemma SummaryKey(rows: seq<StateAgeCount>, k: Key)
    ensures Summary(rows, k).state.Some? && RecordKey(Summary(rows, k)) == k
  {}

  /** Every group has its record. */
  lemma AggregateHasKey(rows: seq<StateAgeCount>, k: Key)
    requires k in GroupKeys(rows)
    ensures exists r :: r in Aggregate(rows) && r.state.Some? && RecordKey(r) == k
  {
    var keys := GroupKeys(rows);
    var out := Aggregate(rows);
    var i :| 0 <= i < |keys| && keys[i] == k;
    SummaryKey(rows, k);
    assert out[i] in out;
  }

  /** Every record stands for a group. */
  lemma AggregateKeyFrom(rows: seq<StateAgeCount>, r: FrictionRow)
    requires r in Aggregate(rows)
    ensures RecordKey(r) in GroupKeys(rows)
  {
    var keys := GroupKeys(rows);
    var out := Aggregate(rows);
    var i :| 0 <= i < |out| && out[i] == r;
    SummaryKey(rows, keys[i]);
  }

  /** A pair has a record exactly when some cleaned row carries it. */
  lemma AggregateCovers(rows: seq<StateAgeCount>, k: Key)
    ensures (exists x :: x in rows && KeyOf(x) == k) <==>
            exists r :: r in Aggregate(rows) && r.state.Some? && RecordKey(r) == k
  {
    if k in GroupKeys(rows) {
      AggregateHasKey(rows, k);
    }
    if exists r :: r in Aggregate(rows) && r.state.Some? && RecordKey(r) == k {
      var r :| r in Aggregate(rows) && r.state.Some? && RecordKey(r) == k;
      AggregateKeyFrom(rows, r);
    }
  }

  /** Every cleaned row is represented by the record of its pair. */
  lemma RowReplied(rows: seq<StateAgeCount>, x: StateAgeCount)
    requires x in rows
    ensures exists r :: r in Aggregate(rows) && r.state == Some(x.state) && r.ageGroup == x.ageGroup
  {
    AggregateCovers(rows, KeyOf(x));
  }

  /** A kept input row is cleaned, not dropped. */
  lemma KeptRowCleaned(melted: seq<MeltedRow>, i: nat)
    requires i < |melted| && Kept(melted[i])
    ensures Clean(melted[i]) in Cleaned(melted)
  {
    CleanedMeans(melted);
  }

  /** Every kept input row is represented by a record under its cleaned
      state and age group. */
  lemma KeptRowReplied(melted: seq<MeltedRow>, i: nat)
    requires i < |melted| && Kept(melted[i])
    ensures exists r :: r in Aggregate(Cleaned(melted)) && r.state == Some(Clean(melted[i]).state) &&
                        r.ageGroup == Clean(melted[i]).ageGroup
  {
    KeptRowCleaned(melted, i);
    RowReplied(Cleaned(melted), Clean(melted[i]));
  }

  /** The sums of all groups add up to the sum of all counts: no count is
      lost or counted twice. */
  lemma CountsConserved(rows: seq<StateAgeCount>)
    ensures SumUpdates(Aggregate(rows)) == Total(rows)
  {
    var keys := GroupKeys(rows);
    var out := Aggregate(rows);
    SumOverKeys(rows, keys);
    SumUpdatesOfSummaries(rows, keys, out);
  }

  function SumUpdates(out: seq<FrictionRow>): int {
    if out == [] then 0 else out[0].numUpdates + SumUpdates(out[1..])
  }

  /** The group sums over any duplicate-free list of pairs. */
  function SumOver(rows: seq<StateAgeCount>, keys: seq<Key>): int {
    if keys == [] then 0 else NumUpdates(rows, keys[0]) + SumOver(rows, keys[1..])
  }

  lemma {:induction false} SumUpdatesOfSummaries(rows: seq<StateAgeCount>, keys: seq<Key>, out: seq<FrictionRow>)
    requires |out| == |keys| && forall i :: 0 <= i < |out| ==> out[i] == Summary(rows, keys[i])
    ensures SumUpdates(out) == SumOver(rows, keys)
  {
    if keys != [] {
      SumUpdatesOfSummaries(rows, keys[1..], out[1..]);
    }
  }

  /** One row contributes its count to the one pair it belongs to. */
  lemma {:induction false} SumOverOne(x: StateAgeCount, keys: seq<Key>)
    requires NoDups(keys)
    ensures SumOver([x], keys) == if KeyOf(x) in keys then x.count else 0
  {
    if keys != [] {
      SumOverOne(x, keys[1..]);
      assert Filter([x], HasKey(keys[0])) == if KeyOf(x) == keys[0] then [x] else [];
      assert Total([x]) == x.count;
      if KeyOf(x) == keys[0] {
        assert KeyOf(x) !in keys[1..];
      }
    }
  }

  lemma {:induction false} SumOverAppend(a: seq<StateAgeCount>, b: seq<StateAgeCount>, keys: seq<Key>)
    ensures SumOver(a + b, keys) == SumOver(a, keys) + SumOver(b, keys)
  {
    if keys != [] {
      SumOverAppend(a, b, keys[1..]);
      FilterAppend(a, b, HasKey(keys[0]));
      TotalAppend(Filter(a, HasKey(keys[0])), Filter(b, HasKey(keys[0])));
    }
  }

  lemma {:induction false} SumOverKeys(rows: seq<StateAgeCount>, keys: seq<Key>)
    requires NoDups(keys) && forall x :: x in rows ==> KeyOf(x) in keys
    ensures SumOver(rows, keys) == Total(rows)
  {
    if rows == [] {
      SumOverNone(keys);
    } else {
      assert rows == [rows[0]] + rows[1..];
      SumOverAppend([rows[0]], rows[1..], keys);
      SumOverOne(rows[0], keys);
      SumOverKeys(rows[1..], keys);
    }
  }

  lemma {:induction false} SumOverNone(keys: seq<Key>)
    ensures SumOver([], keys) == 0
  {
    if keys != [] {
      SumOverNone(keys[1..]);
    }
  }

  // ---------------------------------------------------------------- classify_friction

  /** `classify_friction`: above 50000 updates is High, above 10000 Medium,
      anything else Low. */
  function ClassifyFriction(x: int): (level: string)
    ensures level == "High" <==> x > 50000
    ensures level == "Medium" <==> 10000 < x <= 50000
    ensures level == "Low" <==> x <= 10000
  {
    if x > 50000 then "High" else if x > 10000 then "Medium" else "Low"
  }

  /** Low, Medium, High as 0, 1, 2. */
  function FrictionRank(level: string): nat {
    if level == "High" then 2 else if level == "Medium" then 1 else 0
  }

  /** More updates never give a lower friction level; the boundaries belong
      to the lower level. */
  lemma ClassifyMonotone(x: int, y: int)
    requires x <= y
    ensures FrictionRank(ClassifyFriction(x)) <= FrictionRank(ClassifyFriction(y))
    ensures ClassifyFriction(50000) == "Medium" && ClassifyFriction(10000) == "Low"
  {}
}
